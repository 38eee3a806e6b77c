/** The reader of serialized messages in client/dart.js, which rebuilds plain lists and
    maps and does not implement references. */
module Deserializer {

  import opened Collections
  import opened Serializer
  import opened MessagePaths

  /** A freshly built value. A map holds its properties in order of creation. */
  datatype Js =
    | JsLeaf(value: Value)
    | JsList(elements: seq<Js>)
    | JsMap(names: seq<string>, elements: seq<Js>)

  /** Sets property `name`, replacing an earlier value. */
  function Put(names: seq<string>, elements: seq<Js>, name: string, value: Js): (r: (seq<string>, seq<Js>))
    requires |names| == |elements|
    ensures |r.0| == |r.1|
  {
    if name in names then (names, elements[IndexIn(names, name) := value])
    else (names + [name], elements + [value])
  }

  /** The value of a message, or `None` where the reader throws. */
  function Deserialize(t: Tree): Option<Js>
    decreases t
  {
    match t
    case Leaf(value) => Some(JsLeaf(value))
    case RefRecord(_) => None
    case ListRecord(_, children) =>
      var elements := DeserializeAll(children);
      if elements.None? then None else Some(JsList(elements.value))
    case MapRecord(_, keys, children) =>
      var entries := DeserializeEntries(keys, children);
      if entries.None? then None else Some(JsMap(entries.value.0, entries.value.1))
  }

  function DeserializeAll(ts: seq<Tree>): (r: Option<seq<Js>>)
    ensures r.Some? ==> |r.value| == |ts|
    decreases ts
  {
    if ts == [] then Some([])
    else
      var first := DeserializeAll(ts[..|ts| - 1]);
      if first.None? then None else
      var last := Deserialize(ts[|ts| - 1]);
      if last.None? then None else Some(first.value + [last.value])
  }

  /** A missing value reads as undefined; values without a key are not read. */
  function DeserializeEntries(keys: seq<string>, children: seq<Tree>): (r: Option<(seq<string>, seq<Js>)>)
    ensures r.Some? ==> |r.value.0| == |r.value.1|
    decreases children, |keys|
  {
    if keys == [] then Some(([], []))
    else
      var n := |keys| - 1;
      var first := DeserializeEntries(keys[..n], children);
      if first.None? then None else
      var last := if n < |children| then Deserialize(children[n]) else Some(JsLeaf(Undefined));
      if last.None? then None else Some(Put(first.value.0, first.value.1, keys[n], last.value))
  }

  // ---------------------------------------------------------------- the program

  method DeserializeHelper(t: Tree) returns (r: Option<Js>)
    ensures r == Deserialize(t)
    decreases t
  {
    match t
    case Leaf(value) =>
      r := Some(JsLeaf(value));
    case RefRecord(_) =>
      r := None;
    case ListRecord(_, children) =>
      r := DeserializeList(children);
    case MapRecord(_, keys, children) =>
      r := DeserializeMap(keys, children);
  }

  method DeserializeList(values: seq<Tree>) returns (r: Option<Js>)
    ensures r == var e := DeserializeAll(values); if e.None? then None else Some(JsList(e.value))
    decreases values
  {
    var result: seq<Js> := [];
    for i := 0 to |values|
      invariant DeserializeAll(values[..i]) == Some(result)
    {
      assert values[..i + 1][..i] == values[..i];
      var element := DeserializeHelper(values[i]);
      if element.None? {
        Stops(values, i + 1);
        return None;
      }
      result := result + [element.value];
    }
    assert values[..|values|] == values;
    r := Some(JsList(result));
  }

  lemma {:induction false} Stops(ts: seq<Tree>, n: nat)
    requires n <= |ts| && DeserializeAll(ts[..n]).None?
    ensures DeserializeAll(ts).None?
  {
    if n < |ts| {
      assert ts[..|ts| - 1][..n] == ts[..n];
      Stops(ts[..|ts| - 1], n);
    } else {
      assert ts[..n] == ts;
    }
  }

  method DeserializeMap(keys: seq<string>, values: seq<Tree>) returns (r: Option<Js>)
    ensures r == var e := DeserializeEntries(keys, values); if e.None? then None else Some(JsMap(e.value.0, e.value.1))
    decreases values
  {
    var names: seq<string>, elements: seq<Js> := [], [];
    for i := 0 to |keys|
      invariant DeserializeEntries(keys[..i], values) == Some((names, elements))
    {
      assert keys[..i + 1][..i] == keys[..i];
      var value := Some(JsLeaf(Undefined));
      if i < |values| {
        value := DeserializeHelper(values[i]);
      }
      if value.None? {
        StopsAtKey(keys, values, i + 1);
        return None;
      }
      var entries := Put(names, elements, keys[i], value.value);
      names, elements := entries.0, entries.1;
    }
    assert keys[..|keys|] == keys;
    r := Some(JsMap(names, elements));
  }

  lemma {:induction false} StopsAtKey(keys: seq<string>, children: seq<Tree>, n: nat)
    requires n <= |keys| && DeserializeEntries(keys[..n], children).None?
    ensures DeserializeEntries(keys, children).None?
    decreases |keys|
  {
    if n < |keys| {
      assert keys[..|keys| - 1][..n] == keys[..n];
      StopsAtKey(keys[..|keys| - 1], children, n);
    } else {
      assert keys[..n] == keys;
    }
  }

  // ---------------------------------------------------------------- repeated keys

  /** The value that belongs to key `i`: undefined if the message has none for it. */
  function ValueAt(children: seq<Tree>, i: nat): Option<Js> {
    if i < |children| then Deserialize(children[i]) else Some(JsLeaf(Undefined))
  }

  /** Key `i` is the last of its name. */
  predicate IsLast(keys: seq<string>, i: nat)
    requires i < |keys|
  {
    forall j :: i < j < |keys| ==> keys[j] != keys[i]
  }

  /** Exactly the names of the message, each once, with the last value given. */
  ghost predicate LastValues(names: seq<string>, elements: seq<Js>, keys: seq<string>, children: seq<Tree>) {
    && |names| == |elements| && NoDuplicates(names) && (forall n :: n in names <==> n in keys)
    && forall i: nat :: i < |keys| && IsLast(keys, i) ==> HasValue(names, elements, keys[i], ValueAt(children, i))
  }

  ghost predicate HasValue(names: seq<string>, elements: seq<Js>, n: string, value: Option<Js>)
    requires |names| == |elements|
  {
    n in names && Some(elements[IndexIn(names, n)]) == value
  }

  /** A map cannot be read exactly when one of its values cannot. */
  lemma {:induction false} ReadsAllValues(keys: seq<string>, children: seq<Tree>)
    ensures DeserializeEntries(keys, children).Some? <==> forall i: nat :: i < |keys| ==> ValueAt(children, i).Some?
    decreases |keys|
  {
    if keys != [] {
      var n := |keys| - 1;
      ReadsAllValues(keys[..n], children);
      if DeserializeEntries(keys[..n], children).Some? && ValueAt(children, n).Some? {
        forall i: nat | i < |keys| ensures ValueAt(children, i).Some? {}
      }
    }
  }

  lemma {:induction false} LastValueCounts(keys: seq<string>, children: seq<Tree>)
    requires DeserializeEntries(keys, children).Some?
    ensures var (names, elements) := DeserializeEntries(keys, children).value; LastValues(names, elements, keys, children)
    decreases |keys|
  {
    if keys != [] {
      var n := |keys| - 1;
      LastValueCounts(keys[..n], children);
      var (names, elements) := DeserializeEntries(keys[..n], children).value;
      OneMoreKey(names, elements, keys, children, ValueAt(children, n).value);
    }
  }

  lemma OneMoreKey(names: seq<string>, elements: seq<Js>, keys: seq<string>, children: seq<Tree>, value: Js)
    requires keys != [] && LastValues(names, elements, keys[..|keys| - 1], children)
    requires ValueAt(children, |keys| - 1) == Some(value)
    ensures var (names', elements') := Put(names, elements, keys[|keys| - 1], value);
            LastValues(names', elements', keys, children)
  {
    var n := |keys| - 1;
    var init := keys[..n];
    var (names', elements') := Put(names, elements, keys[n], value);
    PutSets(names, elements, keys[n], value);
    assert keys == init + [keys[n]];
    forall i: nat | i < |keys| && IsLast(keys, i) ensures HasValue(names', elements', keys[i], ValueAt(children, i)) {
      if i < n {
        assert keys[n] != keys[i] && init[i] == keys[i];
        assert IsLast(init, i);
        assert HasValue(names, elements, init[i], ValueAt(children, i));
      }
    }
  }

  /** Setting a property sets it and no other. */
  lemma PutSets(names: seq<string>, elements: seq<Js>, name: string, value: Js)
    requires |names| == |elements| && NoDuplicates(names)
    ensures var (names', elements') := Put(names, elements, name, value);
            && NoDuplicates(names') && (forall n :: n in names' <==> n in names || n == name)
            && elements'[IndexIn(names', name)] == value
            && forall n :: n in names && n != name ==> elements'[IndexIn(names', n)] == elements[IndexIn(names, n)]
  {
    var (names', elements') := Put(names, elements, name, value);
    if name !in names {
      assert names'[|names|] == name;
      IndexIsUnique(names', |names|);
    }
    forall n | n in names && n != name ensures elements'[IndexIn(names', n)] == elements[IndexIn(names, n)] {
      var k := IndexIn(names, n);
      assert names'[k] == n;
      IndexIsUnique(names', k);
    }
  }

  // ---------------------------------------------------------------- round trips

  /** `j` is a structural copy of `v`. */
  ghost predicate Copies(g: Graph, v: Value, j: Js)
    decreases j
  {
    match j
    case JsLeaf(value) => !v.Ref? && value == if v.Undefined? then Null else v
    case JsList(elements) =>
      v.Ref? && v.obj in g && g[v.obj].ListNode? && CopiesAll(g, g[v.obj].elements, elements)
    case JsMap(names, elements) =>
      v.Ref? && v.obj in g && g[v.obj].MapNode? && names == g[v.obj].names && CopiesAll(g, g[v.obj].elements, elements)
  }

  ghost predicate CopiesAll(g: Graph, vs: seq<Value>, js: seq<Js>)
    decreases js
  {
    |vs| == |js| && forall i :: 0 <= i < |js| ==> Copies(g, vs[i], js[i])
  }

  ghost predicate NoRefs(t: Tree)
    decreases t
  {
    !t.RefRecord? && (IsRecord(t) ==> forall i :: 0 <= i < |t.children| ==> NoRefs(t.children[i]))
  }

  /** With distinct keys every value gets its own property. */
  lemma {:induction false} DistinctKeys(keys: seq<string>, children: seq<Tree>)
    requires NoDuplicates(keys) && |keys| <= |children|
    ensures var all := DeserializeAll(children[..|keys|]);
            DeserializeEntries(keys, children) == if all.None? then None else Some((keys, all.value))
    decreases |keys|
  {
    if keys != [] {
      var n := |keys| - 1;
      DistinctKeys(keys[..n], children);
      assert children[..n + 1][..n] == children[..n];
      assert keys == keys[..n] + [keys[n]];
    }
  }

  /** What comes back from an encoding of `v`: a copy, or nothing where it has a reference. */
  lemma {:induction false} DeserializeCopies(g: Graph, visited: seq<Obj>, v: Value, t: Tree)
    requires WellFormed(g) && Encodes(g, visited, v, t)
    ensures Deserialize(t).Some? <==> NoRefs(t)
    ensures Deserialize(t).Some? ==> Copies(g, v, Deserialize(t).value)
    decreases t
  {
    if IsRecord(t) {
      DeserializeAllCopies(g, visited, g[v.obj].elements, t.children);
      if t.MapRecord? {
        DistinctKeys(t.keys, t.children);
        assert t.children[..|t.keys|] == t.children;
      }
    }
  }

  lemma {:induction false} DeserializeAllCopies(g: Graph, visited: seq<Obj>, vs: seq<Value>, ts: seq<Tree>)
    requires WellFormed(g) && EncodesAll(g, visited, vs, ts)
    ensures DeserializeAll(ts).Some? <==> forall i :: 0 <= i < |ts| ==> NoRefs(ts[i])
    ensures DeserializeAll(ts).Some? ==> CopiesAll(g, vs, DeserializeAll(ts).value)
    decreases ts
  {
    if ts != [] {
      var n := |ts| - 1;
      DeserializeAllCopies(g, visited, vs[..n], ts[..n]);
      DeserializeCopies(g, visited, vs[n], ts[n]);
      AllButLast(ts);
      if DeserializeAll(ts).Some? {
        CopiesOneMore(g, vs, DeserializeAll(ts[..n]).value, Deserialize(ts[n]).value);
      }
    }
  }

  lemma AllButLast(ts: seq<Tree>)
    requires ts != []
    ensures var n := |ts| - 1;
            (forall i :: 0 <= i < |ts| ==> NoRefs(ts[i])) <==> (forall i :: 0 <= i < n ==> NoRefs(ts[..n][i])) && NoRefs(ts[n])
  {
    var n := |ts| - 1;
    assert forall i :: 0 <= i < n ==> ts[..n][i] == ts[i];
  }

  lemma CopiesOneMore(g: Graph, vs: seq<Value>, js: seq<Js>, j: Js)
    requires |vs| == |js| + 1 && CopiesAll(g, vs[..|js|], js) && Copies(g, vs[|js|], j)
    ensures CopiesAll(g, vs, js + [j])
  {
    forall i | 0 <= i < |js + [j]| ensures Copies(g, vs[i], (js + [j])[i]) {
      assert i < |js| ==> vs[i] == vs[..|js|][i] && (js + [j])[i] == js[i];
    }
  }

  /** No container is reached twice: different access paths lead to different containers. */
  ghost predicate TreeLike(g: Graph, v: Value) {
    forall p, q, o :: Reaches(g, v, p, o) && Reaches(g, v, q, o) ==> p == q
  }

  /** Without references, every value that can be reached is in the tree at its path. */
  lemma {:induction false} NoRefsAt(g: Graph, visited: seq<Obj>, v: Value, t: Tree, path: seq<int>)
    requires NoRefs(t) && Encodes(g, visited, v, t) && Resolve(g, v, path).Some?
    ensures At(t, path).Some? && NoRefs(At(t, path).value) && Encodes(g, visited, Resolve(g, v, path).value, At(t, path).value)
    decreases path
  {
    if path != [] {
      NoRefsAt(g, visited, g[v.obj].elements[path[0]], t.children[path[0]], path[1..]);
    }
  }

  lemma NoRefsIsTree(g: Graph, v: Value, t: Tree, visited: seq<Obj>)
    requires Sound(g, v, [], t, visited) && NoRefs(t)
    ensures TreeLike(g, v)
  {
    forall p, q, o | Reaches(g, v, p, o) && Reaches(g, v, q, o) ensures p == q {
      NoRefsAt(g, visited, v, t, p);
      NoRefsAt(g, visited, v, t, q);
      IndexIsUnique(visited, At(t, p).value.id);
      IndexIsUnique(visited, At(t, q).value.id);
      RecordIsUnique(t, 0, p, q);
    }
  }

  lemma {:induction false} RefExists(t: Tree) returns (path: seq<int>)
    requires !NoRefs(t)
    ensures At(t, path).Some? && At(t, path).value.RefRecord?
    decreases t
  {
    if t.RefRecord? {
      path := [];
    } else {
      var i :| 0 <= i < |t.children| && !NoRefs(t.children[i]);
      var rest := RefExists(t.children[i]);
      path := [i] + rest;
      assert path[1..] == rest;
    }
  }

  /** A reference shows a container that is reached by two paths. */
  lemma RefIsShared(g: Graph, v: Value, t: Tree, visited: seq<Obj>)
    requires Sound(g, v, [], t, visited) && !NoRefs(t)
    ensures !TreeLike(g, v)
  {
    var q := RefExists(t);
    IdsAt(t, 0, q);
    EncodesAt(g, visited, v, t, q);
    var id := At(t, q).value.id;
    var p, _ := RecordOf(g, v, t, visited, id);
    assert Reaches(g, v, q, visited[id]);
  }

  /** A message comes back as a structural copy exactly when no container in it is reached
      twice; otherwise the reader throws. */
  lemma RoundTrip(g: Graph, v: Value)
    requires WellFormed(g) && Known(g, v)
    ensures var r := Deserialize(Serialize(g, v, []).0);
            (r.Some? <==> TreeLike(g, v)) && (r.Some? ==> Copies(g, v, r.value))
  {
    SerializeIsSound(g, v, []);
    var (t, visited) := Serialize(g, v, []);
    DeserializeCopies(g, visited, v, t);
    if NoRefs(t) {
      NoRefsIsTree(g, v, t, visited);
    } else {
      RefIsShared(g, v, t, visited);
    }
  }
  /** A list that holds one empty list twice. */
  const TWICE: Graph := map[Obj(0) := ListNode([Ref(Obj(1)), Ref(Obj(1))]), Obj(1) := ListNode([])]

  /** A shared container, though no cycle, cannot be sent (`RoundTrip`). */
  lemma SharedContainerThrows()
    ensures WellFormed(TWICE) && Known(TWICE, Ref(Obj(0)))
    ensures Deserialize(Serialize(TWICE, Ref(Obj(0)), []).0).None?
  {
    var v := Ref(Obj(0));
    assert Resolve(TWICE, Ref(Obj(1)), []) == Some(Ref(Obj(1)));
    assert [0][1..] == [] && [1][1..] == [];
    assert Reaches(TWICE, v, [0], Obj(1)) && Reaches(TWICE, v, [1], Obj(1));
    assert [0][0] != [1][0];
    RoundTrip(TWICE, v);
  }
}
