/** Runs of operations on a listening descriptor on the heap (runtime/bin/eventhandler.h):
    the object goes through the same states as the model and serves the same ports, so
    what is proved of model runs holds of it. */
module DescriptorRuns {

  import opened Descriptor
  import opened DescriptorInfo
  import opened Fairness

  /** The ports that the notifications of a run choose, in order. */
  ghost function ServedPorts(d: Descriptor, ops: seq<Operation>): (ports: seq<int>)
    requires d.Valid() && LegalRun(d, ops)
    ensures |ports| == Notifications(ops)
    decreases |ops|
  {
    if ops == [] then []
    else
      ApplyValid(d, ops[0]);
      (if ops[0].NextNotify? then [d.NextNotifyDartPort().1] else []) + ServedPorts(Apply(d, ops[0]), ops[1..])
  }

  lemma {:induction false} ServedIsListed(d: Descriptor, ops: seq<Operation>, q: int, n: nat)
    requires d.Multiple? && d.Valid() && LegalRun(d, ops) && n <= Notifications(ops)
    ensures ServedWithin(d, ops, q, n) <==> q in ServedPorts(d, ops)[..n]
    decreases |ops|
  {
    if ops != [] {
      ApplyValid(d, ops[0]);
      var rest := ServedPorts(Apply(d, ops[0]), ops[1..]);
      if ops[0].NextNotify? {
        if n > 0 {
          ServedIsListed(Apply(d, ops[0]), ops[1..], q, n - 1);
          assert ServedPorts(d, ops)[..n] == [d.NextNotifyDartPort().1] + rest[..n - 1];
        }
      } else {
        assert ServedPorts(d, ops) == rest;
        ServedIsListed(Apply(d, ops[0]), ops[1..], q, n);
      }
    }
  }

  /** Which runs make a port wait its turn: it is ready at position `i` and stays so
      while at least `i + 1` notifications happen. */
  ghost predicate Waits(d: Descriptor, ops: seq<Operation>, q: int, i: nat)
    requires d.Multiple? && d.Valid() && LegalRun(d, ops)
  {
    i < |d.ring| && d.ring[i] == q && StaysReady(d, ops, q) && Notifications(ops) > i
  }

  lemma WaitersAreServed(d: Descriptor, ops: seq<Operation>)
    requires d.Multiple? && d.Valid() && LegalRun(d, ops)
    ensures forall q, i: nat :: Waits(d, ops, q, i) ==> q in ServedPorts(d, ops)[..i + 1]
  {
    forall q, i: nat | Waits(d, ops, q, i) ensures q in ServedPorts(d, ops)[..i + 1] {
      BoundedWaiting(d, ops, q, i);
      ServedIsListed(d, ops, q, i + 1);
    }
  }

  /** The object with its ring and its entries. */
  ghost function Footprint(info: DescriptorInfoMultiple): set<object>
    reads info, info.activeReaders
  {
    {info, info.activeReaders} + info.activeReaders.Repr + info.tokensMap.Values
  }

  method Perform(info: DescriptorInfoMultiple, op: Operation) returns (served: seq<int>)
    requires info.Valid() && Legal(info.Model, op)
    modifies Footprint(info)
    ensures info.Valid() && info.Model == Apply(old(info.Model), op)
    ensures fresh(Footprint(info) - old(Footprint(info)))
    ensures served == if op.NextNotify? then [old(info.Model).NextNotifyDartPort().1] else []
  {
    served := [];
    match op {
      case SetPortAndMask(p, m) => info.SetPortAndMask(p, m);
      case RemovePort(p) => info.RemovePort(p);
      case ReturnTokens(p, n) => info.ReturnTokens(p, n);
      case NextNotify =>
        var port := info.NextNotifyDartPort();
        served := [port];
      case NotifyAll =>
        var _ := info.NotifyAllDartPorts();
    }
  }

  /** Any legal run on any listening descriptor. */
  method PerformAll(info: DescriptorInfoMultiple, ops: seq<Operation>) returns (served: seq<int>)
    requires info.Valid() && LegalRun(info.Model, ops)
    modifies Footprint(info)
    ensures info.Valid() && info.Model == Run(old(info.Model), ops)
    ensures served == ServedPorts(old(info.Model), ops)
    decreases |ops|
  {
    if ops == [] {
      return [];
    }
    ApplyValid(info.Model, ops[0]);
    var first := Perform(info, ops[0]);
    var rest := PerformAll(info, ops[1..]);
    served := first + rest;
  }

  /** Any legal run from the start. */
  method RunFromStart(fd: int, disableTokens: bool, ops: seq<Operation>) returns (info: DescriptorInfoMultiple, served: seq<int>)
    requires LegalRun(Multiple(fd, disableTokens, [], map[]), ops)
    ensures info.Valid() && info.Model == Run(Multiple(fd, disableTokens, [], map[]), ops)
    ensures served == ServedPorts(Multiple(fd, disableTokens, [], map[]), ops)
  {
    info := new DescriptorInfoMultiple(fd, disableTokens);
    served := PerformAll(info, ops);
  }
}
