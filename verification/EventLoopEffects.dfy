/** What every input does to a reachable state of the event handler, said from the input
    alone: the flags of an epoll event, the command and the fields of a message. */
module EventLoopEffects {

  import opened Collections
  import opened Descriptor
  import opened MessageBits
  import opened TimeoutQueue
  import opened EventLoop
  import opened EventLoopRuns

  // -------------------------------------------------------------- socket events

  /** What a port is told, read off the flags. */
  ghost predicate Reports(events: set<Event>, flags: set<Flag>) {
    && (In in events <==> EpollIn in flags)
    && (Out in events <==> EpollOut in flags)
    && (Close in events <==> EpollHup in flags || EpollRdHup in flags)
    && Error !in events && Destroyed !in events
  }

  lemma TranslateReports(flags: set<Flag>)
    ensures EpollErr in flags ==> Translate(flags) == if EpollIn in flags then {Error} else {}
    ensures EpollErr !in flags ==> Reports(Translate(flags), flags) && (Translate(flags) == {} <==> flags == {})
  {
    ConnectionsOrErrors(flags);
    var events := Translate(flags);
    if EpollErr !in flags && flags != {} {
      var f :| f in flags;
      assert match f case EpollIn => In in events case EpollOut => Out in events case _ => Close in events;
    }
  }

  /** The registration follows the mask; a mask that is spent is asked for no longer. */
  function Unregistered(s: State, d: Descriptor): map<int, Registration> {
    if d.Mask() == {} then s.epoll - {d.fd} else s.epoll
  }

  /** An error that can be read is broadcast, any other report goes to one port, the one
      of a connected socket or the first of the ring, which pays a token; an error that
      cannot be read and a report of nothing change nothing. */
  lemma SocketEventOutcome(s: State, ref: nat, flags: set<Flag>, addOk: bool)
    requires Reachable(s) && IsRegistered(s, ref)
    ensures s.live[ref].Valid() && s.live[ref].Mask() != {}
    ensures var d, s' := s.live[ref], OnSocketReady(s, ref, flags, addOk);
            if EpollErr in flags then
              if EpollIn in flags then
                var d' := d.NotifyAllDartPorts();
                s' == s.(live := s.live[ref := d'], epoll := Unregistered(s, d'),
                         history := Then(s.history, Broadcast(ref, d.Ports(), {Error})))
              else s' == s
            else if flags != {} then
              exists events ::
                var (d', port) := (d.NextNotifyDartPort().0, if d.Single? then d.port else d.ring[0]);
                && Reports(events, flags)
                && port != 0 && port in d.Ports() && d.Tokens(port) > 0
                && s' == s.(live := s.live[ref := d'], epoll := Unregistered(s, d'),
                            history := Then(s.history, DataPost(ref, port, d.TokenCount(), events)))
            else s' == s
  {
    ReachableInv(s);
    var d, events := s.live[ref], Translate(flags);
    NotifyAllValid(d);
    NextNotifyValid(d);
    TranslateReports(flags);
    if EpollErr in flags && EpollIn in flags {
      SpentMask(s, ref, d.NotifyAllDartPorts(), Then(s.history, Broadcast(ref, d.Ports(), {Error})), addOk);
    } else if EpollErr !in flags && flags != {} {
      var (d', port) := d.NextNotifyDartPort();
      SpentMask(s, ref, d', Then(s.history, DataPost(ref, port, d.TokenCount(), events)), addOk);
    }
  }

  /** Paying tokens leaves the mask or empties it, so nothing is registered anew. */
  lemma SpentMask(s: State, ref: nat, d: Descriptor, h: History, addOk: bool)
    requires Inv(s) && ref in s.live && d.Valid() && d.fd == s.live[ref].fd && s.live[ref].Mask() != {}
    requires d.Mask() == s.live[ref].Mask() || d.Mask() == {}
    ensures UpdateEpoll(s.(live := s.live[ref := d], history := h), s.live[ref].Mask(), ref, addOk) ==
            s.(live := s.live[ref := d], history := h, epoll := Unregistered(s, d))
  {}

  // ---------------------------------------------------------------- timer events

  /** A timer event tells the port with the least due time, which has come, and forgets
      its timer and no other. */
  lemma TimerEventOutcome(s: State, now: int)
    requires Reachable(s) && EventOk(s, TimerReady(now))
    ensures WellFormed(s.timeouts)
    ensures var s' := OnTimerReady(s, now);
            exists port ::
              && Due(s.timeouts, port).Some? && Due(s.timeouts, port).value <= now
              && (forall q :: Due(s.timeouts, q).Some? ==> Due(s.timeouts, port).value <= Due(s.timeouts, q).value)
              && Due(s'.timeouts, port) == None && (forall q :: q != port ==> Due(s'.timeouts, q) == Due(s.timeouts, q))
              && s' == s.(timeouts := s'.timeouts, timer := Arm(s'.timeouts), history := Then(s.history, TimerFired(port, now)))
  {
    ReachableInv(s);
    var l := s.timeouts;
    ArmedForMinimum(l);
    var k := Soonest(l);
    WellFormedAt(l, k);
    UpdateIsMapUpdate(l, l[k].port, -1);
    forall q | Due(l, q).Some? ensures l[k].due <= Due(l, q).value {
      DueIndex(l, q);
    }
    assert Due(l, l[k].port).value == l[k].due;
  }

  // -------------------------------------------------------------------- messages

  /** A timer message sets its port's time, or clears it if negative, and no other. */
  lemma TimerMessageOutcome(s: State, port: int, due: int)
    requires Reachable(s)
    ensures Inv(s)
    ensures var s' := OnMessage(s, TimerMessage(port, due));
            && Due(s'.timeouts, port) == (if due < 0 then None else Some(due))
            && (forall q :: q != port ==> Due(s'.timeouts, q) == Due(s.timeouts, q))
            && s' == s.(timeouts := s'.timeouts, timer := Arm(s'.timeouts), history := Then(s.history, TimerSet(port, due)))
  {
    ReachableInv(s);
    UpdateIsMapUpdate(s.timeouts, port, due);
  }

  /** Shutdown stops the loop; a message to a closed socket is dropped. */
  lemma OtherMessageOutcome(s: State, m: Message)
    requires Reachable(s) && MessageOk(s, m)
    ensures Inv(s)
    ensures m.ShutdownMessage? ==> OnMessage(s, m) == s.(shutdown := true)
    ensures m.SocketMessage? && m.socket in s.closedSockets ==> OnMessage(s, m) == s
  {
    ReachableInv(s);
  }

  /** The descriptor a message is about: known by its fd, or a new one without ports. */
  function RefOf(s: State, fd: int): nat {
    if fd in s.socketMap then s.socketMap[fd] else s.nextRef
  }

  function DescriptorOf(s: State, fd: int, listening: bool): Descriptor
    requires fd in s.socketMap ==> s.socketMap[fd] in s.live
  {
    if fd in s.socketMap then s.live[s.socketMap[fd]]
    else if listening then Multiple(fd, false, [], map[])
    else Single(fd, false, 0, 16, {})
  }

  /** A command `c` to an open socket. */
  ghost predicate Commands(s: State, m: Message, c: Command, listening: bool) {
    && Reachable(s) && MessageOk(s, m) && m.SocketMessage? && m.socket !in s.closedSockets
    && (c.ReturnToken? ==> c.count <= TOKEN_MASK) && m.data == Encode(c, listening)
  }

  /** What the command finds: its descriptor, and its own decoding. */
  lemma CommandReaches(s: State, m: Message, c: Command, listening: bool)
    requires Commands(s, m, c, listening)
    ensures Inv(s) && (m.fd in s.socketMap ==> s.socketMap[m.fd] in s.live)
    ensures var d, ref, s1 := DescriptorOf(s, m.fd, listening), RefOf(s, m.fd), GetDescriptorInfo(s, m.fd, listening).0;
            && ref in s1.live && s1.live[ref] == d && d.Valid() && d.fd == m.fd && !d.disableTokens
            && Decode(m.data) == c && CommandOk(s1, ref, m) && OnMessage(s, m) == OnCommand(s1, ref, m)
  {
    ReachableInv(s);
    DecodeEncode(c, listening);
    GetDescriptorInfoInv(s, m.fd, listening);
  }

  /** A command changes the descriptor of its fd and no other. */
  lemma MessageFrame(s: State, m: Message, c: Command, listening: bool)
    requires Commands(s, m, c, listening)
    ensures Inv(s) && SameElsewhere(s, OnMessage(s, m), RefOf(s, m.fd))
  {
    CommandReaches(s, m, c, listening);
    GetDescriptorInfoInv(s, m.fd, listening);
    CommandFrame(GetDescriptorInfo(s, m.fd, listening).0, RefOf(s, m.fd), m);
    FrameFromLookup(s, m.fd, listening, OnMessage(s, m));
  }

  lemma FrameFromLookup(s: State, fd: int, listening: bool, s': State)
    requires Linked(s) && SameElsewhere(GetDescriptorInfo(s, fd, listening).0, s', RefOf(s, fd))
    ensures SameElsewhere(s, s', RefOf(s, fd))
  {
    var s1 := GetDescriptorInfo(s, fd, listening).0;
    assert s1.epoll == s.epoll && s1.timeouts == s.timeouts && s1.timer == s.timer;
    assert forall r :: r in s.live ==> r in s1.live && s1.live[r] == s.live[r];
  }

  /** epoll is asked to add the descriptor and refuses. */
  predicate Refused(addOk: bool, before: set<Event>, after: set<Event>) {
    !addOk && after != {} && after != before
  }

  /** Everything but descriptors, registrations, history and refusals. */
  predicate SameRest(s: State, s': State) {
    s'.closedSockets == s.closedSockets && s'.timeouts == s.timeouts && s'.timer == s.timer && s'.shutdown == s.shutdown
  }

  /** The registration of a descriptor whose mask went from `oldMask` to that of `d`: it
      is made when epoll accepts, asks for the in and out events of the mask, edge
      triggered for a connected socket, and only a refusal is remembered. */
  ghost predicate Registers(s: State, s': State, ref: nat, d: Descriptor, oldMask: set<Event>, addOk: bool) {
    && (d.Mask() == oldMask ==> s'.epoll == s.epoll)
    && (d.Mask() == {} && oldMask != {} ==> d.fd !in s'.epoll)
    && (d.Mask() != {} && d.Mask() != oldMask && addOk ==>
          d.fd in s'.epoll && s'.epoll[d.fd] == Registration(ref, d.Mask() * {In, Out}, d.Single?))
    && s'.addFailed == if Refused(addOk, oldMask, d.Mask()) then s.addFailed + {ref} else s.addFailed
  }

  lemma UpdateRegisters(s: State, ref: nat, oldMask: set<Event>, addOk: bool)
    requires ref in s.live && s.live[ref].Valid()
    ensures Registers(s, UpdateEpoll(s, oldMask, ref, addOk), ref, s.live[ref], oldMask, addOk)
  {}

  /** A refusal is broadcast as a close, at one token a port. */
  lemma UpdateOutcome(s: State, ref: nat, oldMask: set<Event>, addOk: bool)
    requires ref in s.live && s.live[ref].Valid() && !s.live[ref].disableTokens
    ensures var d, s' := s.live[ref], UpdateEpoll(s, oldMask, ref, addOk);
            var refused := Refused(addOk, oldMask, d.Mask());
            && SameRest(s, s') && s'.socketMap == s.socketMap && s'.nextRef == s.nextRef
            && s'.live.Keys == s.live.Keys && s'.live[ref].fd == d.fd && SameWishes(d, s'.live[ref])
            && s'.history == (if refused then Then(s.history, Broadcast(ref, d.Ports(), {Close})) else s.history)
            && (forall q :: q in d.Ports() ==> s'.live[ref].Tokens(q) == d.Tokens(q) - if refused then 1 else 0)
            && (d.Multiple? && !refused ==> s'.live[ref].ring == d.ring)
  {
    NotifyAllEffect(s.live[ref]);
    UpdateEpollSelf(s, oldMask, ref, addOk);
  }

  /** Tokens of the port grow by `n`, less one that a refusal costs every port. */
  ghost predicate TokensAreBack(d: Descriptor, d': Descriptor, port: int, n: nat, refused: bool) {
    var price := if refused then 1 else 0;
    && SameWishes(d, d') && d'.fd == d.fd && port in d.Ports()
    && d'.Tokens(port) == d.Tokens(port) + n - price
    && forall q :: q in d.Ports() && q != port ==> d'.Tokens(q) == d.Tokens(q) - price
  }

  function WithRefusal(h: History, refused: bool, ref: nat, ports: set<int>): History {
    if refused then Then(h, Broadcast(ref, ports, {Close})) else h
  }

  lemma ReturnBranch(s: State, ref: nat, port: int, n: nat, addOk: bool)
    requires ref in s.live && s.live[ref].Valid() && !s.live[ref].disableTokens && port in s.live[ref].Ports()
    ensures var d, s' := s.live[ref], OnReturnTokens(s, ref, port, n, addOk);
            var refused := Refused(addOk, d.Mask(), d.ReturnTokens(port, n).Mask());
            && SameRest(s, s') && s'.socketMap == s.socketMap && s'.live.Keys == s.live.Keys
            && TokensAreBack(d, s'.live[ref], port, n, refused)
            && s'.history == WithRefusal(Then(s.history, Returned(ref, port, n)), refused, ref, d.Ports())
            && Registers(s, s', ref, d.ReturnTokens(port, n), d.Mask(), addOk)
  {
    var d := s.live[ref];
    var d1 := d.ReturnTokens(port, n);
    ReturnTokensValid(d, port, n);
    ReturnTokensEffect(d, port, n);
    UpdateOutcome(Put(s, ref, d1, Returned(ref, port, n)), ref, d.Mask(), addOk);
    UpdateRegisters(Put(s, ref, d1, Returned(ref, port, n)), ref, d.Mask(), addOk);
    OthersTokens(d, d1, port);
  }

  lemma OthersTokens(d: Descriptor, d': Descriptor, p: int)
    requires OthersKept(d, d', p) && d'.Ports() == d.Ports()
    ensures d.Multiple? ==> forall q :: q in d.Ports() && q != p ==> d'.entries[q] == d.entries[q]
    ensures d.Single? && p in d.Ports() ==> forall q :: q in d.Ports() ==> q == p
  {
    if d.Multiple? {
      forall q | q in d.Ports() && q != p ensures d'.entries[q] == d.entries[q] {
        assert q in d.entries - {p} && (d'.entries - {p})[q] == (d.entries - {p})[q];
      }
    }
  }

  /** Returned tokens are added to those of the port, less one that a refusal costs. */
  lemma ReturnTokenOutcome(s: State, m: Message, n: Word, listening: bool)
    requires Commands(s, m, ReturnToken(n), listening)
    ensures Inv(s) && m.fd in s.socketMap && s.socketMap[m.fd] in s.live
    ensures var ref := s.socketMap[m.fd];
            var d, s' := s.live[ref], OnMessage(s, m);
            && m.port in d.Ports() && ref in s'.live && SameRest(s, s') && s'.socketMap == s.socketMap
            && var refused := Refused(m.addOk, d.Mask(), d.ReturnTokens(m.port, n as int).Mask());
            && TokensAreBack(d, s'.live[ref], m.port, n as int, refused)
            && s'.history == WithRefusal(Then(s.history, Returned(ref, m.port, n as int)), refused, ref, d.Ports())
            && Registers(s, s', ref, d.ReturnTokens(m.port, n as int), d.Mask(), m.addOk)
  {
    CommandReaches(s, m, ReturnToken(n), listening);
    assert DescriptorOf(s, m.fd, listening).Ports() != {};
    assert m.fd in s.socketMap;
    ReturnBranch(s, s.socketMap[m.fd], m.port, n as int, m.addOk);
  }

  /** What setting a mask makes of a descriptor, at the price of a refusal. */
  ghost predicate MaskIsSet(d: Descriptor, d': Descriptor, port: int, events: set<Event>, refused: bool) {
    var price := if refused then 1 else 0;
    && d'.fd == d.fd && d'.Multiple? == d.Multiple? && d'.Valid()
    && d'.Ports() == (if d.Single? then {port} else d.Ports() + {port})
    && (d.Single? ==> d'.tokens == d.tokens - price && d'.mask == events && d'.Mask() == if d'.tokens > 0 then events else {})
    && (d.Multiple? ==>
          && d'.Tokens(port) == (if port in d.Ports() then d.Tokens(port) else 4) - price
          && (port in d'.ring <==> events == {In} && d'.Tokens(port) > 0)
          && forall q :: q in d.Ports() && q != port ==>
               d'.entries[q] == d.entries[q].(tokens := d.entries[q].tokens - price))
  }

  lemma MaskBranch(s: State, ref: nat, port: int, events: set<Event>, addOk: bool)
    requires ref in s.live && s.live[ref].Valid() && !s.live[ref].disableTokens && port != 0
    ensures var d, s' := s.live[ref], OnSetMask(s, ref, port, events, addOk);
            var refused := Refused(addOk, d.Mask(), d.SetPortAndMask(port, events).Mask());
            && SameRest(s, s') && s'.socketMap == s.socketMap && s'.live.Keys == s.live.Keys
            && MaskIsSet(d, s'.live[ref], port, events, refused)
            && var h := if port in d.Ports() then s.history else Then(s.history, Registered(ref, port));
            s'.history == WithRefusal(h, refused, ref, s'.live[ref].Ports())
  {
    var d := s.live[ref];
    var d1 := d.SetPortAndMask(port, events);
    SetPortAndMaskValid(d, port, events);
    var s1 := if port in d.Ports() then s.(live := s.live[ref := d1]) else Put(s, ref, d1, Registered(ref, port));
    UpdateOutcome(s1, ref, d.Mask(), addOk);
    UpdateEpollSelf(s1, d.Mask(), ref, addOk);
    SetMaskSettled(d, port, events, addOk);
  }

  lemma MaskRegisters(s: State, ref: nat, port: int, events: set<Event>, addOk: bool)
    requires ref in s.live && s.live[ref].Valid() && port != 0
    ensures var d := s.live[ref];
            Registers(s, OnSetMask(s, ref, port, events, addOk), ref, d.SetPortAndMask(port, events), d.Mask(), addOk)
  {
    var d := s.live[ref];
    var d1 := d.SetPortAndMask(port, events);
    SetPortAndMaskValid(d, port, events);
    var s1 := if port in d.Ports() then s.(live := s.live[ref := d1]) else Put(s, ref, d1, Registered(ref, port));
    UpdateRegisters(s1, ref, d.Mask(), addOk);
  }

  /** A mask message makes the descriptor of its fd ask for the events of the message on
      behalf of its port, as long as there are tokens. */
  lemma SetEventMaskOutcome(s: State, m: Message, events: set<Event>, listening: bool)
    requires Commands(s, m, SetEventMask(events), listening)
    ensures Inv(s) && m.port != 0 && (m.fd in s.socketMap ==> s.socketMap[m.fd] in s.live)
    ensures var d, ref, s' := DescriptorOf(s, m.fd, listening), RefOf(s, m.fd), OnMessage(s, m);
            && ref in s'.live && s'.socketMap == s.socketMap[m.fd := ref] && SameRest(s, s')
            && var refused := Refused(m.addOk, d.Mask(), d.SetPortAndMask(m.port, events).Mask());
            && MaskIsSet(d, s'.live[ref], m.port, events, refused)
            && Registers(s, s', ref, d.SetPortAndMask(m.port, events), d.Mask(), m.addOk)
            && var h := if m.port in d.Ports() then s.history else Then(s.history, Registered(ref, m.port));
            s'.history == WithRefusal(h, refused, ref, s'.live[ref].Ports())
  {
    CommandReaches(s, m, SetEventMask(events), listening);
    var s1 := GetDescriptorInfo(s, m.fd, listening).0;
    LookupRest(s, m.fd, listening);
    MaskBranch(s1, RefOf(s, m.fd), m.port, events, m.addOk);
    MaskRegisters(s1, RefOf(s, m.fd), m.port, events, m.addOk);
  }

  lemma LookupRest(s: State, fd: int, listening: bool)
    ensures var s1 := GetDescriptorInfo(s, fd, listening).0;
            SameRest(s, s1) && s1.history == s.history && s1.epoll == s.epoll && s1.addFailed == s.addFailed && s1.socketMap == s.socketMap[fd := RefOf(s, fd)]
  {}

  lemma SetMaskSettled(d: Descriptor, port: int, events: set<Event>, addOk: bool)
    requires d.Valid() && !d.disableTokens && port != 0
    ensures d.SetPortAndMask(port, events).Valid()
    ensures var d1 := d.SetPortAndMask(port, events);
            MaskIsSet(d, Settled(d1, d.Mask(), addOk), port, events, Refused(addOk, d.Mask(), d1.Mask()))
  {
    var d1 := d.SetPortAndMask(port, events);
    SetPortAndMaskValid(d, port, events);
    SetPortAndMaskEffect(d, port, events);
    NotifyAllValid(d1);
    NotifyAllEffect(d1);
  }

  /** What closing makes of a descriptor, at its own branch. */
  lemma CloseBranch(s: State, ref: nat, m: Message)
    requires m.SocketMessage? && ref in s.live && s.live[ref].Valid() && !s.live[ref].disableTokens
    ensures var d, s' := s.live[ref], OnClose(s, ref, m);
            && s'.history == Then(s.history, DestroyedPost(m.port))
            && s'.addFailed == s.addFailed && s'.shutdown == s.shutdown
            && if d.Single? || m.closeSafe then
                 && s'.live == s.live - {ref} && s'.socketMap == s.socketMap - {d.fd} && d.fd !in s'.epoll
                 && s'.closedSockets == s.closedSockets + {m.socket}
               else
                 && s'.socketMap == s.socketMap && SameRest(s, s') && s'.live.Keys == s.live.Keys
                 && s'.live[ref] == if m.port == 0 then d else d.RemovePort(m.port)
  {
    ReleaseBranch(s, ref, m.port, m.addOk);
  }

  /** A port that leaves takes its mask along, so nothing is registered anew. */
  lemma ReleaseBranch(s: State, ref: nat, port: int, addOk: bool)
    requires ref in s.live && s.live[ref].Valid() && !s.live[ref].disableTokens
    ensures var d, s' := s.live[ref], Release(s, ref, port, addOk);
            && SameRest(s, s') && s'.socketMap == s.socketMap && s'.history == s.history && s'.addFailed == s.addFailed
            && s'.live == s.live[ref := if port == 0 then d else d.RemovePort(port)] && s'.live - {ref} == s.live - {ref}
  {
    var d := s.live[ref];
    if port != 0 {
      RemovePortValid(d, port);
      MaskShrinks(d, port);
      var s1 := s.(live := s.live[ref := d.RemovePort(port)]);
      UpdateOutcome(s1, ref, d.Mask(), addOk);
      UpdateRegisters(s1, ref, d.Mask(), addOk);
      UpdateEpollSelf(s1, d.Mask(), ref, addOk);
    }
  }

  lemma MaskShrinks(d: Descriptor, port: int)
    requires d.Valid()
    ensures var d1 := d.RemovePort(port); d1.Mask() == {} || d1.Mask() == d.Mask()
  {
    var d1 := d.RemovePort(port);
    if d.Multiple? && d1.ring != [] {
      RemovePortValid(d, port);
      assert d1.ring[0] in d1.ring;
    }
  }

  /** A close message drops its port and tells it so; with a connected socket, and with a
      listening one that nobody else uses, the descriptor goes as well. */
  lemma CloseOutcome(s: State, m: Message, listening: bool)
    requires Commands(s, m, Shut, listening)
    ensures Inv(s) && (m.fd in s.socketMap ==> s.socketMap[m.fd] in s.live)
    ensures var d, ref, s' := DescriptorOf(s, m.fd, listening), RefOf(s, m.fd), OnMessage(s, m);
            && s'.history == Then(s.history, DestroyedPost(m.port))
            && s'.addFailed == s.addFailed && s'.shutdown == s.shutdown
            && if d.Single? || m.closeSafe then
                 && s'.live == s.live - {ref} && s'.socketMap == s.socketMap - {m.fd} && m.fd !in s'.epoll
                 && s'.closedSockets == s.closedSockets + {m.socket}
               else
                 && ref in s'.live && s'.socketMap == s.socketMap[m.fd := ref] && SameRest(s, s')
                 && (m.port == 0 ==> s'.live[ref] == d)
                 && (m.port != 0 ==> OthersKept(d, s'.live[ref], m.port) && s'.live[ref].Ports() == d.Ports() - {m.port})
  {
    CommandReaches(s, m, Shut, listening);
    var d, ref, s1 := DescriptorOf(s, m.fd, listening), RefOf(s, m.fd), GetDescriptorInfo(s, m.fd, listening).0;
    LookupRest(s, m.fd, listening);
    LookupWithout(s, m.fd, listening);
    CloseBranch(s1, ref, m);
    RemovePortEffect(d, m.port);
  }

  lemma LookupWithout(s: State, fd: int, listening: bool)
    requires Linked(s)
    ensures var s1, ref := GetDescriptorInfo(s, fd, listening).0, RefOf(s, fd);
            s1.live - {ref} == s.live - {ref} && s1.socketMap - {fd} == s.socketMap - {fd}
  {}

  /** Shutting one direction changes nothing that the handler knows. */
  lemma ShutdownOutcome(s: State, m: Message, c: Command, listening: bool)
    requires Commands(s, m, c, listening) && (c.ShutdownRead? || c.ShutdownWrite?) && m.fd in s.socketMap
    ensures Inv(s) && OnMessage(s, m) == s
  {
    CommandReaches(s, m, c, listening);
  }
  // ------------------------------------------------------------ several of them

  /** The events of a batch are handled one after the other, each in a state that it fits. */
  lemma {:induction false} EventsInOrder(s: State, events: seq<EpollEvent>, e: EpollEvent)
    requires Inv(s) && BatchOk(s, events + [e])
    ensures BatchOk(s, events) && EventOk(AfterEvents(s, events), e)
    ensures AfterEvents(s, events + [e]) == OnEvent(AfterEvents(s, events), e)
    decreases |events|
  {
    var all := events + [e];
    BatchPrefix(s, events, e);
    BatchStep(s, all);
    if events == [] {
      assert all[1..] == [];
    } else {
      assert all[0] == events[0] && all[1..] == events[1..] + [e];
      EventsInOrder(OnEvent(s, events[0]), events[1..], e);
    }
  }

  lemma BatchPrefix(s: State, events: seq<EpollEvent>, e: EpollEvent)
    requires BatchOk(s, events + [e])
    ensures BatchOk(s, events) && EventOk(s, e)
  {
    var all := events + [e];
    assert all[|events|] == e;
    assert forall i :: 0 <= i < |events| ==> all[i] == events[i];
  }

  /** So are the messages of an interrupt. */
  lemma {:induction false} MessagesInOrder(s: State, messages: seq<Message>, m: Message)
    requires Inv(s) && MessagesOk(s, messages + [m])
    ensures MessagesOk(s, messages) && MessageOk(AfterMessages(s, messages), m)
    ensures AfterMessages(s, messages + [m]) == OnMessage(AfterMessages(s, messages), m)
    decreases |messages|
  {
    var all := messages + [m];
    OnMessageInv(s, all[0]);
    if messages == [] {
      assert all[1..] == [];
    } else {
      assert all[0] == messages[0] && all[1..] == messages[1..] + [m];
      MessagesInOrder(OnMessage(s, messages[0]), messages[1..], m);
    }
  }
}
