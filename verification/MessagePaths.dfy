/** Where the containers of a message are found in the tree that `serialize` makes of it. */
module MessagePaths {

  import opened Collections
  import opened Serializer

  // ---------------------------------------------------------------- access paths

  /** The value found by following element positions from `v`. */
  ghost function Resolve(g: Graph, v: Value, path: seq<int>): Option<Value>
    decreases path
  {
    if path == [] then Some(v)
    else if v.Ref? && v.obj in g && 0 <= path[0] < |g[v.obj].elements| then
      Resolve(g, g[v.obj].elements[path[0]], path[1..])
    else None
  }

  /** The part of a tree found by following child positions. */
  ghost function At(t: Tree, path: seq<int>): Option<Tree> {
    if path == [] then Some(t)
    else if IsRecord(t) && 0 <= path[0] < |t.children| then At(t.children[path[0]], path[1..])
    else None
  }

  lemma {:induction false} ResolveSnoc(g: Graph, v: Value, path: seq<int>, k: int)
    ensures Resolve(g, v, path + [k]) ==
            if Resolve(g, v, path).None? then None else Resolve(g, Resolve(g, v, path).value, [k])
    decreases path
  {
    if path != [] {
      assert (path + [k])[1..] == path[1..] + [k];
      if v.Ref? && v.obj in g && 0 <= path[0] < |g[v.obj].elements| {
        ResolveSnoc(g, g[v.obj].elements[path[0]], path[1..], k);
      }
    }
  }

  /** A part of the tree encodes the value at the same place. */
  lemma {:induction false} EncodesAt(g: Graph, visited: seq<Obj>, v: Value, t: Tree, path: seq<int>)
    requires Encodes(g, visited, v, t) && At(t, path).Some?
    ensures Resolve(g, v, path).Some? && Encodes(g, visited, Resolve(g, v, path).value, At(t, path).value)
    decreases path
  {
    if path != [] {
      EncodesAt(g, visited, g[v.obj].elements[path[0]], t.children[path[0]], path[1..]);
    }
  }

  // -------------------------------------------------------- numbering and positions

  lemma {:induction false} NumberedAt(ts: seq<Tree>, from: nat, i: int)
    requires NumberedAll(ts, from) && 0 <= i < |ts|
    ensures Numbered(ts[i], from + CountAll(ts[..i]))
    ensures CountAll(ts[..i + 1]) == CountAll(ts[..i]) + Count(ts[i])
    decreases ts
  {
    var n := |ts| - 1;
    if i == n {
      assert ts[..i + 1] == ts;
    } else {
      NumberedAt(ts[..n], from, i);
      assert ts[..n][..i] == ts[..i] && ts[..n][..i + 1] == ts[..i + 1];
    }
  }

  lemma {:induction false} CountGrows(ts: seq<Tree>, i: int, j: int)
    requires 0 <= i <= j <= |ts|
    ensures CountAll(ts[..i]) <= CountAll(ts[..j])
    decreases j
  {
    if i < j {
      CountGrows(ts, i, j - 1);
      assert ts[..j][..j - 1] == ts[..j - 1];
    }
  }

  /** Child `i` of a numbered record has its own range of numbers. */
  lemma ChildRange(t: Tree, from: nat, i: int) returns (low: nat)
    requires Numbered(t, from) && IsRecord(t) && 0 <= i < |t.children|
    ensures low == from + 1 + CountAll(t.children[..i]) && Numbered(t.children[i], low)
    ensures low + Count(t.children[i]) <= from + Count(t)
    ensures low + Count(t.children[i]) == from + 1 + CountAll(t.children[..i + 1])
  {
    low := from + 1 + CountAll(t.children[..i]);
    NumberedAt(t.children, from + 1, i);
    CountGrows(t.children, i + 1, |t.children|);
    assert t.children[..|t.children|] == t.children;
  }

  /** Numbers found below a place stay in its range, and references point backwards. */
  lemma {:induction false} IdsAt(t: Tree, from: nat, path: seq<int>)
    requires Numbered(t, from) && At(t, path).Some?
    ensures var s := At(t, path).value;
            && (s.RefRecord? ==> 0 <= s.id < from + Count(t))
            && (IsRecord(s) ==> from <= s.id < from + Count(t) && (path != [] ==> from < s.id))
    decreases path
  {
    if path != [] {
      var low := ChildRange(t, from, path[0]);
      IdsAt(t.children[path[0]], low, path[1..]);
    }
  }

  lemma HeadAndTail<T>(p: seq<T>, q: seq<T>)
    requires p != [] && q != [] && p[0] == q[0] && p[1..] == q[1..]
    ensures p == q
  {
    assert p == [p[0]] + p[1..] && q == [q[0]] + q[1..];
  }

  /** No number is given twice. */
  lemma {:induction false} RecordIsUnique(t: Tree, from: nat, p: seq<int>, q: seq<int>)
    requires Numbered(t, from) && At(t, p).Some? && At(t, q).Some?
    requires IsRecord(At(t, p).value) && IsRecord(At(t, q).value) && At(t, p).value.id == At(t, q).value.id
    ensures p == q
    decreases p
  {
    IdsAt(t, from, p);
    IdsAt(t, from, q);
    if p != [] && q != [] {
      var i, j := p[0], q[0];
      var low := ChildRange(t, from, i);
      var high := ChildRange(t, from, j);
      IdsAt(t.children[i], low, p[1..]);
      IdsAt(t.children[j], high, q[1..]);
      if i < j {
        CountGrows(t.children, i + 1, j);
      } else if j < i {
        CountGrows(t.children, j + 1, i);
      } else {
        RecordIsUnique(t.children[i], low, p[1..], q[1..]);
        HeadAndTail(p, q);
      }
    }
  }

  /** Every number below the count is given to some record. */
  lemma {:induction false} RecordExists(t: Tree, from: nat, id: int) returns (path: seq<int>)
    requires Numbered(t, from) && from <= id < from + Count(t)
    ensures At(t, path).Some? && IsRecord(At(t, path).value) && At(t, path).value.id == id
    decreases t
  {
    if id == from {
      path := [];
    } else {
      var i, rest := RecordExistsIn(t.children, from + 1, id);
      path := [i] + rest;
      assert path[1..] == rest;
    }
  }

  lemma {:induction false} RecordExistsIn(ts: seq<Tree>, from: nat, id: int) returns (i: int, path: seq<int>)
    requires NumberedAll(ts, from) && from <= id < from + CountAll(ts)
    ensures 0 <= i < |ts| && At(ts[i], path).Some?
    ensures IsRecord(At(ts[i], path).value) && At(ts[i], path).value.id == id
    decreases ts
  {
    var n := |ts| - 1;
    if id < from + CountAll(ts[..n]) {
      i, path := RecordExistsIn(ts[..n], from, id);
    } else {
      i := n;
      path := RecordExists(ts[n], from + CountAll(ts[..n]), id);
    }
  }

  // ---------------------------------------------------------------- the theorems

  ghost predicate Reaches(g: Graph, v: Value, path: seq<int>, o: Obj) {
    Resolve(g, v, path) == Some(Ref(o))
  }

  /** The record of the container with number `id`, wherever it stands in the message. */
  lemma RecordOf(g: Graph, v: Value, t: Tree, visited: seq<Obj>, id: int) returns (path: seq<int>, s: Tree)
    requires Sound(g, v, [], t, visited) && 0 <= id < |visited|
    ensures At(t, path) == Some(s) && IsRecord(s) && s.id == id
    ensures Reaches(g, v, path, visited[id]) && Encodes(g, visited, Ref(visited[id]), s)
  {
    path := RecordExists(t, 0, id);
    s := At(t, path).value;
    EncodesAt(g, visited, v, t, path);
  }

  lemma {:induction false} ReachedIsVisited(g: Graph, v: Value, t: Tree, visited: seq<Obj>, path: seq<int>, o: Obj)
    requires Sound(g, v, [], t, visited) && Reaches(g, v, path, o)
    ensures o in visited
    decreases |path|
  {
    if path != [] {
      var n := |path| - 1;
      assert path == path[..n] + [path[n]];
      ResolveSnoc(g, v, path[..n], path[n]);
      var parent := Resolve(g, v, path[..n]).value.obj;
      ReachedIsVisited(g, v, t, visited, path[..n], parent);
      var _, s := RecordOf(g, v, t, visited, IndexIn(visited, parent));
      assert Encodes(g, visited, g[parent].elements[path[n]], s.children[path[n]]);
    }
  }

  /** `serialize` gives the containers that can be reached from the message, and only
      those, one full record each; read in preorder the records are numbered from 0 and
      a reference only uses a number already given. */
  lemma SerializeNumbersReachable(g: Graph, v: Value)
    requires WellFormed(g) && Known(g, v)
    ensures var (t, visited) := Serialize(g, v, []);
            && Numbered(t, 0) && Count(t) == |visited| && NoDuplicates(visited) && Encodes(g, visited, v, t)
            && forall o :: o in visited <==> exists path :: Reaches(g, v, path, o)
  {
    SerializeIsSound(g, v, []);
    var (t, visited) := Serialize(g, v, []);
    forall o ensures o in visited <==> exists path :: Reaches(g, v, path, o) {
      if o in visited {
        var path, _ := RecordOf(g, v, t, visited, IndexIn(visited, o));
      } else if path :| Reaches(g, v, path, o) {
        ReachedIsVisited(g, v, t, visited, path, o);
      }
    }
  }

  /** The same leaf, or containers with the same number. */
  ghost predicate Corresponds(x: Value, visited: seq<Obj>, y: Value, visited': seq<Obj>) {
    if x.Ref? then y.Ref? && x.obj in visited && IndexIn(visited, x.obj) == IndexIn(visited', y.obj)
    else x == y || (IsNothing(x) && IsNothing(y))
  }

  /** Undefined is sent as null. */
  predicate IsNothing(v: Value) {
    v.Null? || v.Undefined?
  }

  lemma {:induction false} IndexIsUnique<T>(s: seq<T>, i: int)
    requires NoDuplicates(s) && 0 <= i < |s|
    ensures IndexIn(s, s[i]) == i
  {
    assert s[i] in s;
    var j := IndexIn(s, s[i]);
    assert s[j] == s[i];
  }

  lemma SameTreeCorresponds(g: Graph, visited: seq<Obj>, x: Value, g': Graph, visited': seq<Obj>, y: Value, t: Tree)
    requires NoDuplicates(visited) && Encodes(g, visited, x, t) && NoDuplicates(visited') && Encodes(g', visited', y, t)
    ensures Corresponds(x, visited, y, visited')
  {
    if !t.Leaf? {
      IndexIsUnique(visited, t.id);
      IndexIsUnique(visited', t.id);
    }
  }

  /** The property names of a map; a list has none. */
  ghost function Label(node: Node): Option<seq<string>> {
    if node.MapNode? then Some(node.names) else None
  }

  lemma {:induction false} FaithfulAt(g: Graph, v: Value, t: Tree, visited: seq<Obj>, g': Graph, v': Value, visited': seq<Obj>, path: seq<int>)
    requires Sound(g, v, [], t, visited) && Sound(g', v', [], t, visited')
    ensures Resolve(g, v, path).Some? <==> Resolve(g', v', path).Some?
    ensures Resolve(g, v, path).Some? ==> Corresponds(Resolve(g, v, path).value, visited, Resolve(g', v', path).value, visited')
    decreases |path|
  {
    if path == [] {
      SameTreeCorresponds(g, visited, v, g', visited', v', t);
    } else {
      var n := |path| - 1;
      var init, k := path[..n], path[n];
      assert path == init + [k];
      ResolveSnoc(g, v, init, k);
      ResolveSnoc(g', v', init, k);
      FaithfulAt(g, v, t, visited, g', v', visited', init);
      if Resolve(g, v, init).Some? && Resolve(g, v, init).value.Ref? {
        FaithfulChild(g, v, t, visited, g', v', visited', Resolve(g, v, init).value.obj, Resolve(g', v', init).value.obj, k);
      }
    }
  }

  /** The message determines the graph: where two graphs give the same message, every
      access path finds the same thing in both, and finds containers that are of the same
      kind and were given the same number, so that sharing and cycles are the same too. */
  lemma SerializeIsFaithful(g: Graph, v: Value, g': Graph, v': Value, path: seq<int>)
    requires WellFormed(g) && Known(g, v) && WellFormed(g') && Known(g', v')
    requires Serialize(g, v, []).0 == Serialize(g', v', []).0
    ensures var r, r' := Resolve(g, v, path), Resolve(g', v', path);
            && (r.Some? <==> r'.Some?)
            && (r.Some? ==> Corresponds(r.value, Serialize(g, v, []).1, r'.value, Serialize(g', v', []).1))
            && (r.Some? && r.value.Ref? ==>
                  r.value.obj in g && r'.value.obj in g' && Label(g[r.value.obj]) == Label(g'[r'.value.obj]))
  {
    SerializeIsSound(g, v, []);
    SerializeIsSound(g', v', []);
    var (t, visited) := Serialize(g, v, []);
    var (_, visited') := Serialize(g', v', []);
    FaithfulAt(g, v, t, visited, g', v', visited', path);
    if Resolve(g, v, path).Some? && Resolve(g, v, path).value.Ref? {
      var _ := SameRecord(g, v, t, visited, g', v', visited', Resolve(g, v, path).value.obj, Resolve(g', v', path).value.obj);
    }
  }

  /** Containers with the same number have the same record. */
  lemma SameRecord(g: Graph, v: Value, t: Tree, visited: seq<Obj>, g': Graph, v': Value, visited': seq<Obj>, o: Obj, o': Obj) returns (s: Tree)
    requires Sound(g, v, [], t, visited) && Sound(g', v', [], t, visited')
    requires o in visited && IndexIn(visited, o) == IndexIn(visited', o')
    ensures IsRecord(s) && Encodes(g, visited, Ref(o), s) && Encodes(g', visited', Ref(o'), s)
    ensures o in g && o' in g' && Label(g[o]) == Label(g'[o'])
  {
    var id := IndexIn(visited, o);
    var p, q, s';
    p, s := RecordOf(g, v, t, visited, id);
    q, s' := RecordOf(g', v', t, visited', id);
    RecordIsUnique(t, 0, p, q);
  }

  lemma FaithfulChild(g: Graph, v: Value, t: Tree, visited: seq<Obj>, g': Graph, v': Value, visited': seq<Obj>, o: Obj, o': Obj, k: int)
    requires Sound(g, v, [], t, visited) && Sound(g', v', [], t, visited')
    requires o in visited && IndexIn(visited, o) == IndexIn(visited', o')
    ensures Resolve(g, Ref(o), [k]).Some? <==> Resolve(g', Ref(o'), [k]).Some?
    ensures Resolve(g, Ref(o), [k]).Some? ==>
              Corresponds(Resolve(g, Ref(o), [k]).value, visited, Resolve(g', Ref(o'), [k]).value, visited')
  {
    var s := SameRecord(g, v, t, visited, g', v', visited', o, o');
    if 0 <= k < |s.children| {
      SameTreeCorresponds(g, visited, g[o].elements[k], g', visited', g'[o'].elements[k], s.children[k]);
    }
  }
}
