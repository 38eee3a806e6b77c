/** Runs of operations on one listening descriptor, in any order: the ready ring is
    always right, and no ready port waits for more notifications than stand before
    it in the ring. */
module Fairness {

  import opened Collections
  import opened CircularList
  import opened Descriptor

  datatype Operation =
    | SetPortAndMask(port: int, mask: set<Event>)
    | RemovePort(port: int)
    | ReturnTokens(port: int, count: nat)
    | NextNotify
    | NotifyAll

  /** What the callers owe: real ports, and tokens only for registered ports. */
  predicate Legal(d: Descriptor, op: Operation) {
    match op
    case SetPortAndMask(p, _) => p != 0
    case ReturnTokens(p, _) => p in d.Ports()
    case _ => true
  }

  ghost function Apply(d: Descriptor, op: Operation): Descriptor
    requires d.Valid() && Legal(d, op)
  {
    match op
    case SetPortAndMask(p, m) => d.SetPortAndMask(p, m)
    case RemovePort(p) => d.RemovePort(p)
    case ReturnTokens(p, n) => d.ReturnTokens(p, n)
    case NextNotify => d.NextNotifyDartPort().0
    case NotifyAll => d.NotifyAllDartPorts()
  }

  lemma ApplyValid(d: Descriptor, op: Operation)
    requires d.Valid() && Legal(d, op)
    ensures Apply(d, op).Valid() && (Apply(d, op).Multiple? <==> d.Multiple?)
  {
    match op
    case SetPortAndMask(p, m) => SetPortAndMaskValid(d, p, m);
    case RemovePort(p) => RemovePortValid(d, p);
    case ReturnTokens(p, n) => ReturnTokensValid(d, p, n);
    case NextNotify => NextNotifyValid(d);
    case NotifyAll => NotifyAllValid(d);
  }

  ghost predicate LegalRun(d: Descriptor, ops: seq<Operation>)
    requires d.Valid()
    decreases |ops|
  {
    ops == [] || (Legal(d, ops[0]) && (ApplyValid(d, ops[0]); LegalRun(Apply(d, ops[0]), ops[1..])))
  }

  ghost function Run(d: Descriptor, ops: seq<Operation>): Descriptor
    requires d.Valid() && LegalRun(d, ops)
    decreases |ops|
  {
    if ops == [] then d else (ApplyValid(d, ops[0]); Run(Apply(d, ops[0]), ops[1..]))
  }

  /** After any run the ring holds exactly the ready entries, once each, so the mask
      read off the ring is the mask defined over the map. */
  lemma {:induction false} RingIsReadyEntries(d: Descriptor, ops: seq<Operation>)
    requires d.Multiple? && d.Valid() && LegalRun(d, ops)
    ensures var r := Run(d, ops);
            && r.Multiple? && NoDuplicates(r.ring)
            && (forall p :: p in r.ring <==> p in r.entries && r.entries[p].IsReady())
            && (r.Mask() == {In} <==> exists p :: p in r.entries && r.entries[p].IsReady())
    decreases |ops|
  {
    if ops == [] {
      if d.ring != [] {
        var p := d.ring[0];
        assert p in d.ring;
      }
    } else {
      ApplyValid(d, ops[0]);
      RingIsReadyEntries(Apply(d, ops[0]), ops[1..]);
    }
  }

  function Notifications(ops: seq<Operation>): nat {
    if ops == [] then 0 else (if ops[0].NextNotify? then 1 else 0) + Notifications(ops[1..])
  }

  /** Port `q` is ready in every state of the run up to the one that serves it. */
  ghost predicate StaysReady(d: Descriptor, ops: seq<Operation>, q: int)
    requires d.Multiple? && d.Valid() && LegalRun(d, ops)
    decreases |ops|
  {
    && q in d.ring
    && (ops == [] || (ops[0].NextNotify? && d.NextNotifyDartPort().1 == q) ||
        (ApplyValid(d, ops[0]); StaysReady(Apply(d, ops[0]), ops[1..], q)))
  }

  /** One of the first `n` notifications of the run goes to `q`. */
  ghost predicate ServedWithin(d: Descriptor, ops: seq<Operation>, q: int, n: nat)
    requires d.Multiple? && d.Valid() && LegalRun(d, ops)
    decreases |ops|
  {
    ops != [] && n > 0 &&
    ((ops[0].NextNotify? && d.NextNotifyDartPort().1 == q) ||
     (ApplyValid(d, ops[0]);
      ServedWithin(Apply(d, ops[0]), ops[1..], q, if ops[0].NextNotify? then n - 1 else n)))
  }

  /** A ready port at ring position `i` is served by one of the next `i + 1`
      notifications, whatever else happens meanwhile, as long as it stays ready. */
  lemma {:induction false} BoundedWaiting(d: Descriptor, ops: seq<Operation>, q: int, i: nat)
    requires d.Multiple? && d.Valid() && LegalRun(d, ops)
    requires i < |d.ring| && d.ring[i] == q && StaysReady(d, ops, q) && Notifications(ops) > i
    ensures ServedWithin(d, ops, q, i + 1)
    decreases |ops|
  {
    var op := ops[0];
    ApplyValid(d, op);
    var d' := Apply(d, op);
    if op.NextNotify? {
      if i > 0 {
        assert d'.ring[i - 1] == q;
        BoundedWaiting(d', ops[1..], q, i - 1);
      }
    } else {
      var j := NeverMovesBack(d, op, q, i);
      BoundedWaiting(d', ops[1..], q, j);
      MoreTurns(d', ops[1..], q, j + 1, i + 1);
    }
  }

  lemma {:induction false} MoreTurns(d: Descriptor, ops: seq<Operation>, q: int, n: nat, n': nat)
    requires d.Multiple? && d.Valid() && LegalRun(d, ops) && ServedWithin(d, ops, q, n) && n <= n'
    ensures ServedWithin(d, ops, q, n')
    decreases |ops|
  {
    ApplyValid(d, ops[0]);
    var k := if ops[0].NextNotify? then 1 else 0;
    if !(ops[0].NextNotify? && d.NextNotifyDartPort().1 == q) {
      MoreTurns(Apply(d, ops[0]), ops[1..], q, n - k, n' - k);
    }
  }

  /** No operation but a notification changes the order of the ports before `q`. */
  lemma NeverMovesBack(d: Descriptor, op: Operation, q: int, i: nat) returns (j: nat)
    requires d.Multiple? && d.Valid() && Legal(d, op) && !op.NextNotify?
    requires i < |d.ring| && d.ring[i] == q && q in Apply(d, op).ring
    ensures j <= i && j < |Apply(d, op).ring| && Apply(d, op).ring[j] == q
  {
    match op
    case NotifyAll =>
      j := HoldingPosition(d.ring, d.NotifyAllDartPorts().entries, i);
    case SetPortAndMask(p, _) =>
      j := RemovalPosition(d.ring, p, i, Apply(d, op).ring);
    case RemovePort(p) =>
      j := RemovalPosition(d.ring, p, i, Apply(d, op).ring);
    case ReturnTokens(p, _) =>
      j := RemovalPosition(d.ring, p, i, Apply(d, op).ring);
  }

  lemma RemovalPosition(ring: seq<int>, p: int, i: nat, ring': seq<int>) returns (j: nat)
    requires i < |ring| && NoDuplicates(ring) && ring[i] in ring'
    requires ring' == ring || ring' == ring + [p] || ring' == RemoveFirst(ring, p)
    ensures j <= i && j < |ring'| && ring'[j] == ring[i]
  {
    j := i;
    if ring' == RemoveFirst(ring, p) {
      RemoveFirstKeepsDistinct(ring, p);
      j := RemovePosition(ring, p, i);
    }
  }

  lemma {:induction false} RemovePosition(ring: seq<int>, p: int, i: nat) returns (j: nat)
    requires i < |ring| && ring[i] != p
    ensures j <= i && j < |RemoveFirst(ring, p)| && RemoveFirst(ring, p)[j] == ring[i]
  {
    if ring[0] == p {
      j := i - 1;
    } else if i == 0 {
      j := 0;
    } else {
      j := RemovePosition(ring[1..], p, i - 1);
      j := j + 1;
    }
  }

  lemma {:induction false} HoldingPosition(ring: seq<int>, es: map<int, PortState>, i: nat) returns (j: nat)
    requires i < |ring| && (forall p :: p in ring ==> p in es)
    requires NoDuplicates(ring) && ring[i] in Holding(ring, es)
    ensures j <= i && j < |Holding(ring, es)| && Holding(ring, es)[j] == ring[i]
  {
    if i == 0 {
      j := 0;
    } else {
      assert ring[i] == ring[1..][i - 1];
      j := HoldingPosition(ring[1..], es, i - 1);
      if es[ring[0]].tokens > 0 {
        j := j + 1;
      }
    }
  }
}
