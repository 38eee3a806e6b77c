/** The timers of the event handler (class `TimeoutQueue` of
    runtime/bin/eventhandler.h and `UpdateTimeout` of runtime/bin/eventhandler.cc):
    a singly linked list with a cached minimum, proved against a list of pending
    timers, which in turn is a map from ports to due times. */
module TimeoutQueue {

  import opened Collections

  datatype Pending = Pending(port: int, due: int)

  /** The abstract value: the due time a port is waiting for. */
  function Due(l: seq<Pending>, port: int): (d: Option<int>) {
    if l == [] then None
    else if l[0].port == port then Some(l[0].due)
    else Due(l[1..], port)
  }

  /** Ports are distinct and no due time is negative. */
  predicate WellFormed(l: seq<Pending>) {
    l == [] || (l[0].due >= 0 && Due(l[1..], l[0].port).None? && WellFormed(l[1..]))
  }

  /** What `UpdateTimeout` does to the list: drop, overwrite or prepend. */
  function Update(l: seq<Pending>, port: int, due: int): (r: seq<Pending>) {
    if Due(l, port).Some? then Replace(l, port, due)
    else if due >= 0 then [Pending(port, due)] + l
    else l
  }

  function Replace(l: seq<Pending>, port: int, due: int): (r: seq<Pending>) {
    if l == [] then []
    else if l[0].port != port then [l[0]] + Replace(l[1..], port, due)
    else if due < 0 then l[1..]
    else [Pending(port, due)] + l[1..]
  }

  lemma {:induction false} ReplaceAt(l: seq<Pending>, port: int, due: int, k: nat)
    requires k < |l| && l[k].port == port && forall i :: 0 <= i < k ==> l[i].port != port
    ensures Due(l, port) == Some(l[k].due)
    ensures Replace(l, port, due) ==
            if due < 0 then l[..k] + l[k + 1..] else l[k := Pending(port, due)]
  {
    if k > 0 {
      ReplaceAt(l[1..], port, due, k - 1);
      assert l[..k] + l[k + 1..] == [l[0]] + (l[1..][..k - 1] + l[1..][k..]);
    }
  }

  lemma {:induction false} DueAbsent(l: seq<Pending>, port: int)
    requires forall i :: 0 <= i < |l| ==> l[i].port != port
    ensures Due(l, port).None?
  {
    if l != [] { DueAbsent(l[1..], port); }
  }

  /** The list refines a map from ports to due times: an update is a map update, a
      negative time a removal, and every other port keeps its time. */
  lemma UpdateIsMapUpdate(l: seq<Pending>, port: int, due: int)
    requires WellFormed(l)
    ensures WellFormed(Update(l, port, due))
    ensures Due(Update(l, port, due), port) == if due < 0 then None else Some(due)
    ensures forall q :: q != port ==> Due(Update(l, port, due), q) == Due(l, q)
  {
    if Due(l, port).Some? {
      ReplaceIsMapUpdate(l, port, due);
    }
  }

  lemma {:induction false} ReplaceIsMapUpdate(l: seq<Pending>, port: int, due: int)
    requires WellFormed(l) && Due(l, port).Some?
    ensures WellFormed(Replace(l, port, due))
    ensures Due(Replace(l, port, due), port) == if due < 0 then None else Some(due)
    ensures forall q :: q != port ==> Due(Replace(l, port, due), q) == Due(l, q)
  {
    if l[0].port != port {
      ReplaceIsMapUpdate(l[1..], port, due);
    }
  }

  lemma {:induction false} WellFormedAt(l: seq<Pending>, k: nat)
    requires WellFormed(l) && k < |l|
    ensures l[k].due >= 0 && Due(l, l[k].port) == Some(l[k].due)
    ensures forall i :: 0 <= i < k ==> l[i].port != l[k].port
  {
    if k > 0 { WellFormedAt(l[1..], k - 1); }
  }

  /** Position of the first timer with the least due time. */
  function Soonest(l: seq<Pending>): (k: nat)
    requires l != []
    ensures k < |l| && IsLeast(l, |l|, k)
  {
    SoonestFrom(l, 1, 0)
  }

  /** Position `k` holds the least due time of `l[..n]`, and no earlier one does. */
  predicate IsLeast(l: seq<Pending>, n: nat, k: nat)
    requires k < n <= |l|
  {
    && (forall i :: 0 <= i < n ==> l[k].due <= l[i].due)
    && (forall i :: 0 <= i < k ==> l[k].due < l[i].due)
  }

  function SoonestFrom(l: seq<Pending>, n: nat, k: nat): (r: nat)
    requires k < n <= |l| && IsLeast(l, n, k)
    ensures r < |l| && IsLeast(l, |l|, r)
    decreases |l| - n
  {
    if n == |l| then k else SoonestFrom(l, n + 1, if l[n].due < l[k].due then n else k)
  }

  lemma LeastStep(l: seq<Pending>, n: nat, k: nat)
    requires n < |l| && (n > 0 ==> k < n && IsLeast(l, n, k))
    ensures var k' := if n == 0 || l[n].due < l[k].due then n else k;
            IsLeast(l, n + 1, k') && SoonestFrom(l, n + 1, k') == if n > 0 then SoonestFrom(l, n, k) else Soonest(l)
  {}

  class Timeout {
    const port: int
    var timeout: int
    var next: Timeout?

    constructor (port: int, timeout: int, next: Timeout?)
      ensures this.port == port && this.timeout == timeout && this.next == next
    {
      this.port, this.timeout, this.next := port, timeout, next;
    }
  }

  class TimeoutQueue {
    var nextTimeout: Timeout?
    var timeouts: Timeout?
    ghost var nodes: seq<Timeout>
    ghost var Contents: seq<Pending>  // the timers in list order
    ghost var Repr: set<Timeout>

    ghost predicate Linked()
      reads this, Repr
    {
      && (forall i :: 0 <= i < |nodes| ==> nodes[i] in Repr)
      && (forall i, j :: 0 <= i < j < |nodes| ==> nodes[i] != nodes[j])
      && |Contents| == |nodes|
      && (forall i :: 0 <= i < |nodes| ==> Contents[i] == Pending(nodes[i].port, nodes[i].timeout))
      && (timeouts == if nodes == [] then null else nodes[0])
      && (forall i {:trigger nodes[i].next} :: 0 <= i < |nodes| ==>
            nodes[i].next == if i + 1 < |nodes| then nodes[i + 1] else null)
    }

    ghost predicate Valid()
      reads this, Repr
    {
      && Linked() && WellFormed(Contents)
      && nextTimeout == if nodes == [] then null else nodes[Soonest(Contents)]
    }

    constructor ()
      ensures Valid() && Contents == [] && Repr == {}
    {
      nextTimeout, timeouts := null, null;
      nodes, Contents, Repr := [], [], {};
    }

    predicate HasTimeout()
      reads this
    {
      nextTimeout != null
    }

    method CurrentTimeout() returns (due: int)
      requires Valid() && HasTimeout()
      ensures due == Contents[Soonest(Contents)].due
    {
      due := nextTimeout.timeout;
    }

    method CurrentPort() returns (port: int)
      requires Valid() && HasTimeout()
      ensures port == Contents[Soonest(Contents)].port
    {
      port := nextTimeout.port;
    }

    method RemoveCurrent()
      requires Valid() && HasTimeout()
      modifies this, Repr
      ensures Valid() && Repr == old(Repr)
      ensures Contents == Fired(old(Contents))
    {
      UpdateTimeout(nextTimeout.port, -1);
    }

    method UpdateTimeout(port: int, timeout: int)
      requires Valid()
      modifies this, Repr
      ensures Valid() && Contents == Update(old(Contents), port, timeout)
      ensures fresh(Repr - old(Repr)) && (timeout < 0 ==> Repr == old(Repr))
    {
      UpdateIsMapUpdate(Contents, port, timeout);
      UpdateTimeout'(port, timeout);
      FindNext();
    }

    method Splice(last: Timeout?, current: Timeout, ghost k: nat)
      requires Linked() && k < |nodes| && current == nodes[k]
      requires last == if k > 0 then nodes[k - 1] else null
      modifies this, Repr
      ensures Linked() && Repr == old(Repr)
      ensures Contents == old(Contents)[..k] + old(Contents)[k + 1..]
    {
      if last != null {
        last.next := current.next;
      } else {
        timeouts := current.next;
      }
      nodes := nodes[..k] + nodes[k + 1..];
      Contents := Contents[..k] + Contents[k + 1..];
    }

    method SetTimeout(current: Timeout, timeout: int, ghost k: nat)
      requires Linked() && k < |nodes| && current == nodes[k]
      modifies this`Contents, Repr
      ensures Linked() && Contents == old(Contents)[k := Pending(current.port, timeout)]
    {
      current.timeout := timeout;
      Contents := Contents[k := Pending(current.port, timeout)];
    }

    method Prepend(port: int, timeout: int)
      requires Linked()
      modifies this
      ensures Linked() && fresh(Repr - old(Repr))
      ensures Contents == [Pending(port, timeout)] + old(Contents)
    {
      var e := new Timeout(port, timeout, timeouts);
      timeouts := e;
      nodes, Repr := [e] + nodes, Repr + {e};
      Contents := [Pending(port, timeout)] + Contents;
    }

    /** The search-and-splice half of `UpdateTimeout`. */
    method UpdateTimeout'(port: int, timeout: int)
      requires Linked()
      modifies this, Repr
      ensures Linked() && Contents == Update(old(Contents), port, timeout)
      ensures fresh(Repr - old(Repr)) && (timeout < 0 ==> Repr == old(Repr))
    {
      var last: Timeout? := null;
      var current := timeouts;
      ghost var k := 0;
      while current != null
        invariant unchanged(this) && unchanged(nodes)
        invariant 0 <= k <= |nodes|
        invariant current == if k < |nodes| then nodes[k] else null
        invariant last == if k > 0 then nodes[k - 1] else null
        invariant forall i :: 0 <= i < k ==> nodes[i].port != port
        decreases |nodes| - k
      {
        if current.port == port {
          assert Contents[k].port == port;
          ReplaceAt(Contents, port, timeout, k);
          if timeout < 0 {
            Splice(last, current, k);
          } else {
            SetTimeout(current, timeout, k);
          }
          return;
        }
        last := current;
        current := current.next;
        k := k + 1;
      }
      DueAbsent(Contents, port);
      if timeout >= 0 {
        Prepend(port, timeout);
      }
    }

    /** The rescan for the cached minimum. */
    method FindNext()
      requires Linked() && WellFormed(Contents)
      modifies this`nextTimeout
      ensures Valid()
    {
      nextTimeout := null;
      var current := timeouts;
      ghost var k, m := 0, 0;
      while current != null
        invariant 0 <= k <= |nodes|
        invariant current == if k < |nodes| then nodes[k] else null
        invariant k > 0 ==> m < k && IsLeast(Contents, k, m)
        invariant k > 0 ==> SoonestFrom(Contents, k, m) == Soonest(Contents)
        invariant nextTimeout == if k == 0 then null else nodes[m]
        decreases |nodes| - k
      {
        LeastStep(Contents, k, m);
        if nextTimeout == null || current.timeout < nextTimeout.timeout {
          nextTimeout := current;
          m := k;
        }
        current := current.next;
        k := k + 1;
      }
    }

    /** The destructor's loop; `drained` lists the timers in removal order. */
    method Drain() returns (drained: seq<Pending>)
      requires Valid()
      modifies this, Repr
      ensures Valid() && Contents == []
      ensures drained == DrainOrder(old(Contents))
    {
      drained := [];
      ghost var all := DrainOrder(Contents);
      while HasTimeout()
        invariant Valid() && Repr == old(Repr)
        invariant drained + DrainOrder(Contents) == all
        decreases |Contents|
      {
        ghost var before := drained;
        var next := Pending(nextTimeout.port, nextTimeout.timeout);
        DrainStep(Contents);
        drained := drained + [next];
        RemoveCurrent();
        Shift(before, next, DrainOrder(Contents));
      }
    }
  }

  lemma FiredIsRemoval(l: seq<Pending>)
    requires WellFormed(l) && l != []
    ensures var k := Soonest(l); Update(l, l[k].port, -1) == l[..k] + l[k + 1..]
  {
    var k := Soonest(l);
    WellFormedAt(l, k);
    ReplaceAt(l, l[k].port, -1, k);
  }

  lemma WithoutOne<T>(l: seq<T>, k: nat)
    requires k < |l|
    ensures multiset(l) == multiset(l[..k] + l[k + 1..]) + multiset{l[k]}
  {
    assert l == l[..k] + [l[k]] + l[k + 1..];
  }

  /** The list after its soonest timer has fired. */
  function Fired(l: seq<Pending>): (r: seq<Pending>)
    requires WellFormed(l) && l != []
    ensures WellFormed(r) && |r| == |l| - 1
    ensures multiset(l) == multiset(r) + multiset{l[Soonest(l)]}
  {
    var k := Soonest(l);
    FiredIsRemoval(l);
    WithoutOne(l, k);
    UpdateIsMapUpdate(l, l[k].port, -1);
    Update(l, l[k].port, -1)
  }

  /** The order in which timers leave the queue. */
  function DrainOrder(l: seq<Pending>): (r: seq<Pending>)
    requires WellFormed(l)
    decreases |l|
  {
    if l == [] then [] else [l[Soonest(l)]] + DrainOrder(Fired(l))
  }

  /** The soonest timer is the first to leave. */
  lemma DrainStep(l: seq<Pending>)
    requires WellFormed(l) && l != []
    ensures DrainOrder(l) == [l[Soonest(l)]] + DrainOrder(Fired(l))
  {}

  ghost predicate Sorted(l: seq<Pending>) {
    forall i, j :: 0 <= i < j < |l| ==> l[i].due <= l[j].due
  }

  lemma SortedCons(x: Pending, l: seq<Pending>)
    requires Sorted(l) && forall y :: y in multiset(l) ==> x.due <= y.due
    ensures Sorted([x] + l)
  {
    forall j | 0 <= j < |l| ensures x.due <= l[j].due {
      assert l[j] in multiset(l);
    }
  }

  lemma SoonestIsLeast(l: seq<Pending>, y: Pending)
    requires l != [] && y in multiset(l)
    ensures l[Soonest(l)].due <= y.due
  {
    assert y in l;
  }

  /** Timers leave in non-decreasing order of due time, each exactly once. */
  lemma {:induction false} DrainIsSorted(l: seq<Pending>)
    requires WellFormed(l)
    ensures multiset(DrainOrder(l)) == multiset(l) && Sorted(DrainOrder(l))
    decreases |l|
  {
    if l != [] {
      var x, fired := l[Soonest(l)], Fired(l);
      var r := DrainOrder(fired);
      DrainIsSorted(fired);
      forall y: Pending | y in multiset(r) ensures x.due <= y.due {
        SoonestIsLeast(l, y);
      }
      SortedCons(x, r);
    }
  }
}
