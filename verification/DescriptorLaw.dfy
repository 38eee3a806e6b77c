/** What any run of operations makes of a descriptor (runtime/bin/eventhandler.h), said of
    the operations alone: which ports are registered, what they ask for, how many tokens
    they hold, and so who is ready. */
module DescriptorLaw {

  import opened Collections
  import opened Descriptor
  import opened Fairness
  import opened DescriptorRuns

  /** The mask that `q` last asked for, unless it has left since. */
  function LastMask(ops: seq<Operation>, q: int): Option<set<Event>> {
    if ops == [] then None
    else
      var init := ops[..|ops| - 1];
      match ops[|ops| - 1]
      case SetPortAndMask(p, m) => if p == q then Some(m) else LastMask(init, q)
      case RemovePort(p) => if p == q then None else LastMask(init, q)
      case _ => LastMask(init, q)
  }

  /** Four tokens at registration, one less for each notification that went to `q` and for
      each broadcast, and those returned; `served` are the ports that were notified. */
  function Held(ops: seq<Operation>, served: seq<int>, q: int): int
    requires |served| == Notifications(ops)
  {
    if ops == [] then 4
    else
      var init, last := ops[..|ops| - 1], ops[|ops| - 1];
      NotificationsSnoc(init, last);
      assert ops == init + [last];
      match last
      case SetPortAndMask(p, _) => if p == q && LastMask(init, q).None? then 4 else Held(init, served, q)
      case RemovePort(_) => Held(init, served, q)
      case ReturnTokens(p, n) => Held(init, served, q) + if p == q then n else 0
      case NextNotify =>
        var before := served[..|served| - 1];
        Held(init, before, q) - if served[|served| - 1] == q then 1 else 0
      case NotifyAll => Held(init, served, q) - 1
  }

  lemma {:induction false} NotificationsSnoc(ops: seq<Operation>, op: Operation)
    ensures Notifications(ops + [op]) == Notifications(ops) + if op.NextNotify? then 1 else 0
  {
    if ops == [] {
      assert ops + [op] == [op];
    } else {
      assert (ops + [op])[1..] == ops[1..] + [op];
      NotificationsSnoc(ops[1..], op);
    }
  }

  /** A run is its last operation applied to what the others made. */
  lemma {:induction false} RunSnoc(d: Descriptor, ops: seq<Operation>, op: Operation)
    requires d.Valid() && LegalRun(d, ops + [op])
    ensures LegalRun(d, ops) && Run(d, ops).Valid() && (Run(d, ops).Multiple? <==> d.Multiple?)
    ensures Legal(Run(d, ops), op) && Run(d, ops + [op]) == Apply(Run(d, ops), op)
    ensures ServedPorts(d, ops + [op]) ==
            ServedPorts(d, ops) + if op.NextNotify? then [Run(d, ops).NextNotifyDartPort().1] else []
    decreases |ops|
  {
    if ops == [] {
      assert ops + [op] == [op];
      ApplyValid(d, op);
    } else {
      var d' := Apply(d, ops[0]);
      ApplyValid(d, ops[0]);
      assert (ops + [op])[0] == ops[0] && (ops + [op])[1..] == ops[1..] + [op];
      RunSnoc(d', ops[1..], op);
      ServedRegroup(d, ops, op);
    }
  }

  lemma ServedRegroup(d: Descriptor, ops: seq<Operation>, op: Operation)
    requires ops != [] && d.Valid() && LegalRun(d, ops + [op]) && LegalRun(d, ops)
    requires Legal(d, ops[0]) && Apply(d, ops[0]).Valid() && LegalRun(Apply(d, ops[0]), ops[1..] + [op])
    requires LegalRun(Apply(d, ops[0]), ops[1..])
    ensures var d' := Apply(d, ops[0]);
            var first := if ops[0].NextNotify? then [d.NextNotifyDartPort().1] else [];
            && ServedPorts(d, ops + [op]) == first + ServedPorts(d', ops[1..] + [op])
            && ServedPorts(d, ops) == first + ServedPorts(d', ops[1..])
  {
    assert (ops + [op])[0] == ops[0] && (ops + [op])[1..] == ops[1..] + [op];
  }

  /** The law of a listening descriptor: a port is registered with what it last asked for,
      holds what it got and gave, and is in the ring if and only if it asked for input and
      holds a token. */
  ghost predicate Follows(d: Descriptor, ops: seq<Operation>, served: seq<int>, q: int)
    requires d.Multiple? && |served| == Notifications(ops)
  {
    var mask := LastMask(ops, q);
    && (q in d.entries <==> mask.Some?)
    && (q in d.entries ==>
          && d.entries[q].isReading == (mask.value == {In})
          && d.entries[q].tokens == if d.disableTokens then 4 else Held(ops, served, q))
  }

  lemma {:induction false} ListeningLaw(fd: int, disableTokens: bool, ops: seq<Operation>, q: int)
    requires LegalRun(Multiple(fd, disableTokens, [], map[]), ops)
    ensures var d0 := Multiple(fd, disableTokens, [], map[]);
            var d := Run(d0, ops);
            && d.Multiple? && d.Valid() && d.fd == fd && d.disableTokens == disableTokens
            && Follows(d, ops, ServedPorts(d0, ops), q)
            && (q in d.ring <==> LastMask(ops, q) == Some({In}) && q in d.Ports() && d.Tokens(q) > 0)
  {
    if ops != [] {
      var d0 := Multiple(fd, disableTokens, [], map[]);
      var init, last := ops[..|ops| - 1], ops[|ops| - 1];
      assert ops == init + [last];
      RunSnoc(d0, init, last);
      ListeningLaw(fd, disableTokens, init, q);
      NotificationsSnoc(init, last);
      ApplyValid(Run(d0, init), last);
      FollowsStep(Run(d0, init), init, ServedPorts(d0, init), last, q);
    }
  }

  lemma FollowsStep(d: Descriptor, ops: seq<Operation>, served: seq<int>, op: Operation, q: int)
    requires d.Multiple? && d.Valid() && Legal(d, op)
    requires |served| == Notifications(ops) && Follows(d, ops, served, q)
    ensures var served' := served + if op.NextNotify? then [d.NextNotifyDartPort().1] else [];
            && |served'| == Notifications(ops + [op]) && Apply(d, op).Multiple?
            && Apply(d, op).fd == d.fd && Apply(d, op).disableTokens == d.disableTokens
            && Follows(Apply(d, op), ops + [op], served', q)
  {
    NotificationsSnoc(ops, op);
    var all, served' := ops + [op], served + if op.NextNotify? then [d.NextNotifyDartPort().1] else [];
    assert all[..|all| - 1] == ops && all[|all| - 1] == op;
    assert op.NextNotify? ==> served'[..|served'| - 1] == served;
    assert !op.NextNotify? ==> served' == served;
    assert op.NextNotify? && d.ring != [] ==> d.ring[0] in d.ring;
    assert op.NextNotify? && d.ring == [] ==> d.NextNotifyDartPort().1 == 0 && 0 !in d.entries;
  }

  // ---------------------------------------------------------- connected sockets

  /** The port and mask last set, unless the port has left since. */
  function LastSetting(ops: seq<Operation>): (int, set<Event>) {
    if ops == [] then (0, {})
    else
      match ops[|ops| - 1]
      case SetPortAndMask(p, m) => (p, m)
      case RemovePort(_) => (0, {})
      case _ => LastSetting(ops[..|ops| - 1])
  }

  /** Sixteen tokens, less one for every notification, and those returned. */
  function Left(ops: seq<Operation>): int {
    if ops == [] then 16
    else
      Left(ops[..|ops| - 1]) +
      match ops[|ops| - 1]
      case ReturnTokens(_, n) => n
      case NextNotify => -1
      case NotifyAll => -1
      case _ => 0
  }

  /** The law of a connected descriptor: it asks for what was last set while it holds
      tokens. */
  lemma {:induction false} ConnectedLaw(fd: int, disableTokens: bool, ops: seq<Operation>)
    requires LegalRun(Single(fd, disableTokens, 0, 16, {}), ops)
    ensures var d := Run(Single(fd, disableTokens, 0, 16, {}), ops);
            var (port, mask) := LastSetting(ops);
            && d == Single(fd, disableTokens, port, if disableTokens then 16 else Left(ops), mask)
            && d.Mask() == if disableTokens || Left(ops) > 0 then mask else {}
  {
    if ops != [] {
      var d0 := Single(fd, disableTokens, 0, 16, {});
      var init, last := ops[..|ops| - 1], ops[|ops| - 1];
      RunEnds(d0, ops, init, last);
      ConnectedLaw(fd, disableTokens, init);
      ConnectedStep(Run(d0, init), init, last);
    }
  }

  lemma RunEnds(d: Descriptor, ops: seq<Operation>, init: seq<Operation>, last: Operation)
    requires d.Valid() && LegalRun(d, ops) && ops != [] && init == ops[..|ops| - 1] && last == ops[|ops| - 1]
    ensures ops == init + [last] && LegalRun(d, init) && Run(d, init).Valid()
    ensures Legal(Run(d, init), last) && Run(d, ops) == Apply(Run(d, init), last)
  {
    assert ops == init + [last];
    RunSnoc(d, init, last);
  }

  lemma ConnectedStep(d: Descriptor, ops: seq<Operation>, op: Operation)
    requires d.Single? && d.Valid() && Legal(d, op)
    requires (d.port, d.mask) == LastSetting(ops) && d.tokens == if d.disableTokens then 16 else Left(ops)
    ensures var all := ops + [op];
            Apply(d, op) == Single(d.fd, d.disableTokens, LastSetting(all).0, if d.disableTokens then 16 else Left(all), LastSetting(all).1)
  {
    var all := ops + [op];
    assert all[..|all| - 1] == ops && all[|all| - 1] == op;
  }
}
