/** The message serializer of client/dart.js: an object graph, possibly cyclic, becomes a
    tree in which every list and map has one full record, numbered in the order of first
    visit, and every later occurrence is a reference to that number. */
module Serializer {

  import opened Collections

  // The identity of a list or map.
  datatype Obj = Obj(address: int)

  /** A message value. Send ports are opaque leaves. */
  datatype Value =
    | Null
    | Undefined
    | Text(text: string)
    | Number(number: real)
    | Boolean(boolean: bool)
    | LocalPort(id: int)
    | DartPort(isolateId: int, portId: int)
    | Ref(obj: Obj)

  datatype Node =
    | ListNode(elements: seq<Value>)
    | MapNode(names: seq<string>, elements: seq<Value>)

  type Graph = map<Obj, Node>

  /** What goes on the wire. */
  datatype Tree =
    | Leaf(value: Value)
    | ListRecord(id: int, children: seq<Tree>)
    | MapRecord(id: int, keys: seq<string>, children: seq<Tree>)
    | RefRecord(id: int)

  predicate IsRecord(t: Tree) {
    t.ListRecord? || t.MapRecord?
  }

  predicate Known(g: Graph, v: Value) {
    v.Ref? ==> v.obj in g
  }

  /** Every container mentioned is in the graph, and a map has distinct property names. */
  predicate WellFormed(g: Graph) {
    forall o :: o in g ==>
      && (g[o].MapNode? ==> |g[o].names| == |g[o].elements| && NoDuplicates(g[o].names))
      && forall i :: 0 <= i < |g[o].elements| ==> Known(g, g[o].elements[i])
  }

  function Plain(v: Value): Value {
    if v.Undefined? then Null else v
  }

  function Record(node: Node, id: int, children: seq<Tree>): Tree {
    match node
    case ListNode(_) => ListRecord(id, children)
    case MapNode(names, _) => MapRecord(id, names, children)
  }

  function ToSet<T>(s: seq<T>): set<T> {
    set x | x in s
  }

  function IndexIn<T(==)>(s: seq<T>, x: T): (i: int)
    ensures x in s ==> 0 <= i < |s| && s[i] == x && x !in s[..i]
    ensures x !in s ==> i == -1
  {
    if s == [] then -1
    else if s[0] == x then 0
    else
      var i := IndexIn(s[1..], x);
      assert s == [s[0]] + s[1..];
      if i == -1 then -1 else
      assert s[..i + 1] == [s[0]] + s[1..][..i];
      i + 1
  }

  // ---------------------------------------------------------------- serialize

  /** `doSerialize`: the tree of a value and the containers visited after it. */
  function Serialize(g: Graph, v: Value, visited: seq<Obj>): (r: (Tree, seq<Obj>))
    requires WellFormed(g) && Known(g, v)
    ensures visited <= r.1
    decreases |g.Keys - ToSet(visited)|, 0
  {
    if !v.Ref? then (Leaf(Plain(v)), visited)
    else if v.obj in visited then (RefRecord(IndexIn(visited, v.obj)), visited)
    else
      Fewer(g.Keys, visited, v.obj);
      var (children, after) := SerializeAll(g, g[v.obj].elements, visited + [v.obj]);
      (Record(g[v.obj], |visited|, children), after)
  }

  function SerializeAll(g: Graph, vs: seq<Value>, visited: seq<Obj>): (r: (seq<Tree>, seq<Obj>))
    requires WellFormed(g) && forall i :: 0 <= i < |vs| ==> Known(g, vs[i])
    ensures visited <= r.1 && |r.0| == |vs|
    decreases |g.Keys - ToSet(visited)|, |vs|
  {
    if vs == [] then ([], visited)
    else
      var (first, between) := SerializeAll(g, vs[..|vs| - 1], visited);
      NoMore(g.Keys, visited, between);
      var (last, after) := Serialize(g, vs[|vs| - 1], between);
      (first + [last], after)
  }

  lemma Fewer<T>(all: set<T>, visited: seq<T>, x: T)
    requires x in all && x !in visited
    ensures |all - ToSet(visited + [x])| < |all - ToSet(visited)|
  {
    assert all - ToSet(visited) == all - ToSet(visited + [x]) + {x};
  }

  lemma NoMore<T>(all: set<T>, visited: seq<T>, later: seq<T>)
    requires visited <= later
    ensures |all - ToSet(later)| <= |all - ToSet(visited)|
  {
    Smaller(all - ToSet(later), all - ToSet(visited));
  }

  lemma {:induction false} Smaller<T>(a: set<T>, b: set<T>)
    requires a <= b
    ensures |a| <= |b|
  {
    if a != {} {
      var x :| x in a;
      Smaller(a - {x}, b - {x});
    }
  }

  // ------------------------------------------------- what the result looks like

  /** The number of full records in a tree. */
  ghost function Count(t: Tree): nat
    decreases t
  {
    if IsRecord(t) then 1 + CountAll(t.children) else 0
  }

  ghost function CountAll(ts: seq<Tree>): nat
    decreases ts
  {
    if ts == [] then 0 else CountAll(ts[..|ts| - 1]) + Count(ts[|ts| - 1])
  }

  /** Read in preorder, full records are numbered `from`, `from + 1`, ... and every
      reference is to a number given before it. */
  ghost predicate Numbered(t: Tree, from: nat)
    decreases t
  {
    match t
    case Leaf(_) => true
    case RefRecord(id) => 0 <= id < from
    case _ => t.id == from && NumberedAll(t.children, from + 1)
  }

  ghost predicate NumberedAll(ts: seq<Tree>, from: nat)
    decreases ts
  {
    ts != [] ==>
      var first := ts[..|ts| - 1];
      NumberedAll(first, from) && Numbered(ts[|ts| - 1], from + CountAll(first))
  }

  /** `t` is value `v` where a container stands for its place in `visited`. */
  ghost predicate Encodes(g: Graph, visited: seq<Obj>, v: Value, t: Tree)
    decreases t
  {
    match t
    case Leaf(value) => !v.Ref? && value == Plain(v)
    case RefRecord(id) => v.Ref? && 0 <= id < |visited| && visited[id] == v.obj
    case _ =>
      && v.Ref? && v.obj in g && 0 <= t.id < |visited| && visited[t.id] == v.obj
      && t == Record(g[v.obj], t.id, t.children)
      && EncodesAll(g, visited, g[v.obj].elements, t.children)
  }

  ghost predicate EncodesAll(g: Graph, visited: seq<Obj>, vs: seq<Value>, ts: seq<Tree>)
    decreases ts
  {
    |vs| == |ts| && forall i :: 0 <= i < |ts| ==> Encodes(g, visited, vs[i], ts[i])
  }

  lemma {:induction false} EncodesExtend(g: Graph, visited: seq<Obj>, more: seq<Obj>, v: Value, t: Tree)
    requires visited <= more && Encodes(g, visited, v, t)
    ensures Encodes(g, more, v, t)
    decreases t
  {
    if IsRecord(t) {
      EncodesAllExtend(g, visited, more, g[v.obj].elements, t.children);
    }
  }

  lemma {:induction false} EncodesAllExtend(g: Graph, visited: seq<Obj>, more: seq<Obj>, vs: seq<Value>, ts: seq<Tree>)
    requires visited <= more && EncodesAll(g, visited, vs, ts)
    ensures EncodesAll(g, more, vs, ts)
    decreases ts
  {
    forall i | 0 <= i < |ts| ensures Encodes(g, more, vs[i], ts[i]) {
      EncodesExtend(g, visited, more, vs[i], ts[i]);
    }
  }

  ghost predicate Visits(g: Graph, visited: seq<Obj>) {
    NoDuplicates(visited) && forall o :: o in visited ==> o in g
  }

  /** What one call of `doSerialize` does, whatever was visited before. */
  ghost predicate Sound(g: Graph, v: Value, visited: seq<Obj>, t: Tree, after: seq<Obj>) {
    && visited <= after && Visits(g, after) && |after| == |visited| + Count(t)
    && Numbered(t, |visited|) && Encodes(g, after, v, t)
  }

  ghost predicate SoundAll(g: Graph, vs: seq<Value>, visited: seq<Obj>, ts: seq<Tree>, after: seq<Obj>) {
    && visited <= after && Visits(g, after) && |after| == |visited| + CountAll(ts)
    && NumberedAll(ts, |visited|) && EncodesAll(g, after, vs, ts)
  }

  lemma {:induction false} SerializeIsSound(g: Graph, v: Value, visited: seq<Obj>)
    requires WellFormed(g) && Known(g, v) && Visits(g, visited)
    ensures Sound(g, v, visited, Serialize(g, v, visited).0, Serialize(g, v, visited).1)
    decreases |g.Keys - ToSet(visited)|, 0
  {
    if v.Ref? && v.obj !in visited {
      Fewer(g.Keys, visited, v.obj);
      SerializeAllIsSound(g, g[v.obj].elements, visited + [v.obj]);
      var (children, after) := SerializeAll(g, g[v.obj].elements, visited + [v.obj]);
      SoundRecord(g, v.obj, visited, children, after);
    }
  }

  lemma {:induction false} SerializeAllIsSound(g: Graph, vs: seq<Value>, visited: seq<Obj>)
    requires WellFormed(g) && (forall i :: 0 <= i < |vs| ==> Known(g, vs[i])) && Visits(g, visited)
    ensures SoundAll(g, vs, visited, SerializeAll(g, vs, visited).0, SerializeAll(g, vs, visited).1)
    decreases |g.Keys - ToSet(visited)|, |vs|
  {
    if vs != [] {
      var n := |vs| - 1;
      SerializeAllIsSound(g, vs[..n], visited);
      var (first, between) := SerializeAll(g, vs[..n], visited);
      NoMore(g.Keys, visited, between);
      SerializeIsSound(g, vs[n], between);
      var (last, after) := Serialize(g, vs[n], between);
      SoundSnoc(g, vs, visited, first, between, last, after);
    }
  }

  lemma SoundRecord(g: Graph, o: Obj, visited: seq<Obj>, children: seq<Tree>, after: seq<Obj>)
    requires o in g && SoundAll(g, g[o].elements, visited + [o], children, after)
    ensures Sound(g, Ref(o), visited, Record(g[o], |visited|, children), after)
  {
    assert after[|visited|] == (visited + [o])[|visited|];
  }

  lemma SoundSnoc(g: Graph, vs: seq<Value>, visited: seq<Obj>, first: seq<Tree>, between: seq<Obj>, last: Tree, after: seq<Obj>)
    requires vs != [] && SoundAll(g, vs[..|vs| - 1], visited, first, between)
    requires Sound(g, vs[|vs| - 1], between, last, after)
    ensures SoundAll(g, vs, visited, first + [last], after)
  {
    EncodesAllExtend(g, between, after, vs[..|vs| - 1], first);
    assert (first + [last])[..|first|] == first;
  }

  // ---------------------------------------------------------------- the program

  lemma OneMore(g: Graph, vs: seq<Value>, i: nat, visited: seq<Obj>, first: seq<Tree>, between: seq<Obj>, t: Tree, after: seq<Obj>)
    requires WellFormed(g) && (forall k :: 0 <= k < |vs| ==> Known(g, vs[k])) && i < |vs|
    requires (first, between) == SerializeAll(g, vs[..i], visited)
    requires (t, after) == Serialize(g, vs[i], between)
    ensures (first + [t], after) == SerializeAll(g, vs[..i + 1], visited)
  {
    assert vs[..i + 1][..i] == vs[..i];
  }

  /** The state of one call of `serialize`. */
  class MessageSerializer {
    var visited: seq<Obj>

    constructor ()
      ensures visited == []
    {
      visited := [];
    }

    method IndexOf(o: Obj) returns (id: int)
      ensures id == IndexIn(visited, o)
    {
      id := 0;
      while id < |visited|
        invariant 0 <= id <= |visited|
        invariant o !in visited[..id]
      {
        if visited[id] == o {
          return;
        }
        id := id + 1;
      }
      id := -1;
    }

    /** The tree of `v`, with the containers visited on the way recorded. */
    method DoSerialize(g: Graph, v: Value) returns (t: Tree)
      requires WellFormed(g) && Known(g, v)
      modifies this
      ensures (t, visited) == Serialize(g, v, old(visited))
      decreases |g.Keys - ToSet(visited)|, 0
    {
      if !v.Ref? {
        return Leaf(Plain(v));
      }
      var id := IndexOf(v.obj);
      if id != -1 {
        return RefRecord(id);
      }
      id := |visited|;
      Fewer(g.Keys, visited, v.obj);
      visited := visited + [v.obj];
      var values := SerializeElements(g, g[v.obj].elements);
      t := Record(g[v.obj], id, values);
    }

    method SerializeElements(g: Graph, vs: seq<Value>) returns (ts: seq<Tree>)
      requires WellFormed(g) && forall i :: 0 <= i < |vs| ==> Known(g, vs[i])
      modifies this
      ensures (ts, visited) == SerializeAll(g, vs, old(visited))
      decreases |g.Keys - ToSet(visited)|, 1
    {
      ts := [];
      var i := 0;
      while i < |vs|
        invariant 0 <= i <= |vs|
        invariant (ts, visited) == SerializeAll(g, vs[..i], old(visited))
      {
        ghost var between := visited;
        NoMore(g.Keys, old(visited), between);
        var t := DoSerialize(g, vs[i]);
        OneMore(g, vs, i, old(visited), ts, between, t, visited);
        ts := ts + [t];
        i := i + 1;
      }
      assert vs[..i] == vs;
    }
  }
}
