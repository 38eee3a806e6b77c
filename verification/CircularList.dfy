/** The doubly linked ring that orders the ready readers of a listening socket
    (class `CircularLinkedList` of runtime/bin/eventhandler.h), proved against a
    sequence. */
module CircularList {

  import opened Collections

  class Entry<T> {
    const t: T
    var next: Entry?<T>
    var prev: Entry?<T>

    constructor (t: T)
      ensures this.t == t && next == null && prev == null
    {
      this.t := t;
      next, prev := null, null;
    }
  }

  /** The sequence without its first occurrence of `x`. */
  function RemoveFirst<T(==)>(s: seq<T>, x: T): (r: seq<T>)
    ensures x !in s ==> r == s
    ensures x in s ==> |r| == |s| - 1
    ensures forall y :: y in r ==> y in s
    ensures forall y :: y in s && y != x ==> y in r
  {
    if s == [] then [] else if s[0] == x then s[1..] else [s[0]] + RemoveFirst(s[1..], x)
  }

  lemma {:induction false} RemoveFirstAt<T>(s: seq<T>, x: T, k: nat)
    requires k < |s| && s[k] == x && x !in s[..k]
    ensures RemoveFirst(s, x) == s[..k] + s[k + 1..]
  {
    if k > 0 {
      assert s[1..][..k - 1] == s[..k][1..];
      assert s[0] in s[..k];
      RemoveFirstAt(s[1..], x, k - 1);
      assert s[..k] + s[k + 1..] == [s[0]] + (s[1..][..k - 1] + s[1..][k..]);
    }
  }

  lemma DistinctCons<T>(x: T, s: seq<T>)
    requires NoDuplicates(s) && x !in s
    ensures NoDuplicates([x] + s)
  {
    forall i, j | 0 <= i < j < |s| + 1 ensures ([x] + s)[i] != ([x] + s)[j] {
      assert ([x] + s)[j] == s[j - 1];
    }
  }

  /** `l` lists each member of `s` exactly once. */
  ghost predicate Enumerates<T>(l: seq<T>, s: set<T>) {
    NoDuplicates(l) && (forall x :: x in l ==> x in s) && (forall x :: x in s ==> x in l)
  }

  lemma EnumeratesStep<T>(l: seq<T>, s: set<T>, todo: set<T>, x: T)
    requires Enumerates(l, s - todo) && x in s && x in todo
    ensures Enumerates(l + [x], s - (todo - {x}))
  {
    forall i, j | 0 <= i < j < |l| + 1 ensures (l + [x])[i] != (l + [x])[j] {
      assert (l + [x])[i] == l[i] && l[i] in l;
    }
  }

  lemma {:induction false} DistinctCardinality<T>(s: seq<T>)
    requires NoDuplicates(s)
    ensures |set x | x in s| == |s|
  {
    if s != [] {
      DistinctCardinality(s[1..]);
      assert (set x | x in s) == {s[0]} + set x | x in s[1..];
      assert s[0] !in s[1..];
    }
  }

  lemma {:induction false} RemoveFirstKeepsDistinct<T>(s: seq<T>, x: T)
    requires NoDuplicates(s)
    ensures NoDuplicates(RemoveFirst(s, x)) && x !in RemoveFirst(s, x)
  {
    if s != [] {
      forall y | y in s[1..] ensures y != s[0] {
        var j :| 0 <= j < |s[1..]| && s[1..][j] == y;
        assert s[1..][j] == s[j + 1];
      }
      if s[0] != x {
        RemoveFirstKeepsDistinct(s[1..], x);
        DistinctCons(s[0], RemoveFirst(s[1..], x));
      }
    }
  }

  class CircularLinkedList<T(==)> {
    var head: Entry?<T>
    ghost var nodes: seq<Entry<T>>  // the entries in ring order, from `head`
    ghost var Repr: set<Entry<T>>

    /** `next` and `prev` are mutual inverses along one cycle through `nodes`. */
    ghost predicate Valid()
      reads this, Repr
    {
      && (forall i :: 0 <= i < |nodes| ==> nodes[i] in Repr)
      && (head == null <==> nodes == [])
      && (nodes != [] ==> head == nodes[0])
      && NoDuplicates(nodes)
      && (forall i {:trigger nodes[i].next} :: 0 <= i < |nodes| ==>
            nodes[i].next == if i + 1 < |nodes| then nodes[i + 1] else nodes[0])
      && (forall i {:trigger nodes[i].prev} :: 0 <= i < |nodes| ==>
            nodes[i].prev == if i > 0 then nodes[i - 1] else nodes[|nodes| - 1])
    }

    ghost function Contents(): (s: seq<T>)
      reads this
      ensures |s| == |nodes| && forall i :: 0 <= i < |s| ==> s[i] == nodes[i].t
    {
      var es := nodes;
      seq(|es|, i requires 0 <= i < |es| => es[i].t)
    }

    constructor ()
      ensures Valid() && Contents() == [] && Repr == {}
    {
      head := null;
      nodes, Repr := [], {};
    }

    method Add(t: T) returns (wasEmpty: bool)
      requires Valid()
      modifies this, Repr
      ensures Valid() && fresh(Repr - old(Repr))
      ensures Contents() == old(Contents()) + [t]
      ensures wasEmpty <==> old(Contents()) == []
    {
      var e := new Entry(t);
      if head == null {
        e.next, e.prev := e, e;
        head := e;
        nodes, Repr := [e], {e};
        return true;
      } else {
        e.prev := head.prev;
        e.next := head;
        e.prev.next := e;
        head.prev := e;
        nodes, Repr := nodes + [e], Repr + {e};
        return false;
      }
    }

    method RemoveHead() returns (removed: T)
      requires Valid() && Contents() != []
      modifies this, Repr
      ensures Valid() && Repr == old(Repr) && nodes == old(nodes)[1..]
      ensures removed == old(Contents())[0] && Contents() == old(Contents())[1..]
    {
      var e := head;
      if e.next == e {
        head := null;
      } else {
        e.prev.next := e.next;
        e.next.prev := e.prev;
        head := e.next;
      }
      nodes := nodes[1..];
      removed := e.t;
    }

    /** Unlinks the entry at ring position `k`, as the body of `Remove` does. */
    method Unlink(current: Entry<T>, ghost k: nat)
      requires Valid() && 1 < |nodes| && k < |nodes| && nodes[k] == current
      modifies this, Repr
      ensures Valid() && Repr == old(Repr) && nodes == old(nodes)[..k] + old(nodes)[k + 1..]
    {
      var next, prev := current.next, current.prev;
      prev.next := next;
      next.prev := prev;
      if current == head {
        head := head.next;
      }
      nodes := nodes[..k] + nodes[k + 1..];
    }

    method Remove(item: T)
      requires Valid()
      modifies this, Repr
      ensures Valid() && Repr == old(Repr)
      ensures Contents() == RemoveFirst(old(Contents()), item)
    {
      if head == null {
        return;
      } else if head == head.next {
        if head.t == item {
          head := null;
          nodes := [];
        }
      } else {
        var current := head;
        ghost var k := 0;
        while true
          invariant unchanged(this) && unchanged(nodes)
          invariant k < |nodes| && current == nodes[k]
          invariant item !in Contents()[..k]
          decreases |nodes| - k
        {
          if current.t == item {
            RemoveFirstAt(Contents(), item, k);
            Unlink(current, k);
            return;
          }
          current := current.next;
          k := k + 1;
          if current == head {
            assert k == |nodes|;
            return;
          }
        }
      }
    }

    /** Empties the ring; `cleared` lists the values handed to the clear function. */
    method RemoveAll() returns (cleared: seq<T>)
      requires Valid()
      modifies this, Repr
      ensures Valid() && Contents() == [] && Repr == old(Repr)
      ensures cleared == old(Contents())
    {
      cleared := [];
      ghost var ring, k := nodes, 0;
      while head != null
        invariant Valid() && Repr == old(Repr)
        invariant k <= |ring| && nodes == ring[k..]
        invariant cleared == old(Contents())[..k]
        decreases |nodes|
      {
        var t := RemoveHead();
        cleared, k := cleared + [t], k + 1;
      }
    }

    method Head() returns (t: T)
      requires Valid() && Contents() != []
      ensures t == Contents()[0]
    {
      t := head.t;
    }

    predicate HasHead()
      reads this
    {
      head != null
    }

    method Rotate()
      requires Valid()
      modifies this
      ensures Valid() && Repr == old(Repr)
      ensures Contents() == Rotated(old(Contents()))
    {
      if head != null {
        head := head.next;
        nodes := nodes[1..] + [nodes[0]];
      }
    }

    /** Rotates until the same head comes round again; `visited` lists the heads seen. */
    method RoundTrip() returns (visited: seq<T>)
      requires Valid() && HasHead() && NoDuplicates(Contents())
      modifies this
      ensures Valid() && Contents() == old(Contents()) && Repr == old(Repr)
      ensures visited == Contents()
    {
      ghost var s := Contents();
      var root := head.t;
      var current := root;
      visited := [];
      while true
        invariant Valid() && Repr == old(Repr)
        invariant |visited| < |s| && visited == s[..|visited|]
        invariant Contents() == s[|visited|..] + s[..|visited|]
        invariant current == s[|visited|]
        decreases |s| - |visited|
      {
        RotatedFrom(s, |visited|);
        visited := visited + [current];
        Rotate();
        current := head.t;
        if current == root {
          assert |visited| == |s|;
          return;
        }
      }
    }
  }

  lemma RotatedFrom<T>(s: seq<T>, k: nat)
    requires k < |s|
    ensures Rotated(s[k..] + s[..k]) == s[k + 1..] + s[..k + 1]
  {}

  function Rotated<T>(s: seq<T>): (r: seq<T>)
    ensures (forall x :: x in r ==> x in s) && (forall x :: x in s ==> x in r)
  {
    assert s != [] ==> s == [s[0]] + s[1..];
    if s == [] then [] else s[1..] + [s[0]]
  }
}
