/** Whole runs of the event loop: what holds in every state the poll loop can reach,
    whatever epoll reports and whatever the clients send. */
module EventLoopRuns {

  import opened Collections
  import opened Descriptor
  import opened MessageBits
  import opened TimeoutQueue
  import opened EventLoop

  // ---------------------------------------------------------------- one batch

  /** epoll reports a registration, and the timer, at most once per batch. */
  predicate Distinct(e: EpollEvent, f: EpollEvent) {
    !(e.TimerReady? && f.TimerReady?) && !(e.SocketReady? && f.SocketReady? && e.ref == f.ref)
  }

  /** What `epoll_wait` promises of a batch, judged in the state it was called in. */
  ghost predicate BatchOk(s: State, events: seq<EpollEvent>) {
    && (forall i :: 0 <= i < |events| ==> EventOk(s, events[i]))
    && (forall i, j :: 0 <= i < j < |events| ==> Distinct(events[i], events[j]))
  }

  /** Handling one event leaves what the others refer to as it was. */
  lemma StillOk(s: State, e: EpollEvent, f: EpollEvent)
    requires Inv(s) && EventOk(s, e) && EventOk(s, f) && Distinct(e, f)
    ensures EventOk(OnEvent(s, e), f)
  {
    if e.SocketReady? && e.ref in s.live {
      SocketReadyEffect(s, e.ref, e.flags, e.addOk);
    }
  }

  /** Every descriptor but `ref` is as it was, and so is its registration. */
  ghost predicate SameElsewhere(s: State, s': State, ref: nat) {
    && s'.timeouts == s.timeouts && s'.timer == s.timer
    && (forall r :: r in s.live && r != ref ==> r in s'.live && s'.live[r] == s.live[r])
    && (forall r :: r in s.live && r != ref ==>
          && (s.live[r].fd in s'.epoll <==> s.live[r].fd in s.epoll)
          && (s.live[r].fd in s.epoll ==> s'.epoll[s.live[r].fd] == s.epoll[s.live[r].fd]))
  }

  /** A descriptor after its registration was brought up to date: when epoll refuses to
      add it, every port has been told. */
  ghost function Settled(d: Descriptor, oldMask: set<Event>, addOk: bool): Descriptor
    requires d.Valid()
  {
    if !addOk && d.Mask() != {} && d.Mask() != oldMask then d.NotifyAllDartPorts() else d
  }

  /** Objects with different numbers have different fds. */
  lemma UpdateEpollElsewhere(s: State, ref: nat, d: Descriptor, h: History, oldMask: set<Event>, addOk: bool)
    requires Linked(s) && ref in s.live && d.Valid() && d.fd == s.live[ref].fd
    ensures var s' := UpdateEpoll(s.(live := s.live[ref := d], history := h), oldMask, ref, addOk);
            SameElsewhere(s, s', ref) && ref in s'.live && s'.live[ref] == Settled(d, oldMask, addOk)
  {
    var s1 := s.(live := s.live[ref := d], history := h);
    UpdateEpollSelf(s1, oldMask, ref, addOk);
    UpdateEpollOthers(s1, oldMask, ref, addOk);
    ElsewhereFromBut(s, s1, UpdateEpoll(s1, oldMask, ref, addOk), ref, d.fd);
  }

  lemma UpdateEpollSelf(s: State, oldMask: set<Event>, ref: nat, addOk: bool)
    requires ref in s.live && s.live[ref].Valid()
    ensures UpdateEpoll(s, oldMask, ref, addOk).live == s.live[ref := Settled(s.live[ref], oldMask, addOk)]
  {
    assert s.live == s.live[ref := s.live[ref]];
  }

  /** The registrations of other fds, and the timers, are as they were. */
  ghost predicate SameBut(s: State, s': State, fd: int) {
    s'.timeouts == s.timeouts && s'.timer == s.timer && s'.epoll - {fd} == s.epoll - {fd}
  }

  lemma UpdateEpollOthers(s: State, oldMask: set<Event>, ref: nat, addOk: bool)
    requires ref in s.live && s.live[ref].Valid()
    ensures SameBut(s, UpdateEpoll(s, oldMask, ref, addOk), s.live[ref].fd)
  {
    var s1 := RemoveFromEpoll(s, ref);
    assert SameBut(s, s1, s.live[ref].fd);
    AddOthers(s, ref, addOk);
    AddOthers(s1, ref, addOk);
  }

  lemma AddOthers(s: State, ref: nat, addOk: bool)
    requires ref in s.live && s.live[ref].Valid()
    ensures SameBut(s, AddToEpoll(s, ref, addOk), s.live[ref].fd)
  {}

  lemma ElsewhereFromBut(s: State, s1: State, s': State, ref: nat, fd: int)
    requires Linked(s) && ref in s.live && fd == s.live[ref].fd && s1.live.Keys == s.live.Keys && s1.epoll == s.epoll
    requires SameBut(s1, s', fd) && s1.timeouts == s.timeouts && s1.timer == s.timer
    requires forall r :: r in s.live && r != ref ==> r in s'.live && s'.live[r] == s.live[r]
    ensures SameElsewhere(s, s', ref)
  {
    forall r | r in s.live && r != ref
      ensures (s.live[r].fd in s'.epoll <==> s.live[r].fd in s.epoll) && (s.live[r].fd in s.epoll ==> s'.epoll[s.live[r].fd] == s.epoll[s.live[r].fd])
    {
      var f := s.live[r].fd;
      assert f != fd;
      assert f in s'.epoll - {fd} <==> f in s.epoll - {fd};
      assert f in s.epoll ==> (s'.epoll - {fd})[f] == (s.epoll - {fd})[f];
    }
  }

  /** An event is handed to its own descriptor and to no other. */
  lemma SocketReadyEffect(s: State, ref: nat, flags: set<Flag>, addOk: bool)
    requires Inv(s) && IsRegistered(s, ref)
    ensures var d, events, s' := s.live[ref], Translate(flags), OnSocketReady(s, ref, flags, addOk);
            && SameElsewhere(s, s', ref) && ref in s'.live
            && var d' := if Error in events then d.NotifyAllDartPorts()
                         else if events != {} then d.NextNotifyDartPort().0 else d;
            d'.Valid() && s'.live[ref] == Settled(d', d.Mask(), addOk)
  {
    var d, events := s.live[ref], Translate(flags);
    NotifyAllValid(d);
    NextNotifyValid(d);
    var (d', port) := d.NextNotifyDartPort();
    UpdateEpollElsewhere(s, ref, d.NotifyAllDartPorts(), Then(s.history, Broadcast(ref, d.Ports(), events)), d.Mask(), addOk);
    UpdateEpollElsewhere(s, ref, d', Then(s.history, DataPost(ref, port, d.TokenCount(), events)), d.Mask(), addOk);
  }

  lemma BatchStep(s: State, events: seq<EpollEvent>)
    requires Inv(s) && BatchOk(s, events) && events != []
    ensures Inv(OnEvent(s, events[0])) && BatchOk(OnEvent(s, events[0]), events[1..])
  {
    OnEventInv(s, events[0]);
    forall i | 0 <= i < |events[1..]| ensures EventOk(OnEvent(s, events[0]), events[1..][i]) {
      StillOk(s, events[0], events[i + 1]);
    }
  }

  /** The state after the events of a batch, in order. Its recursion is well defined:
      every descriptor is still registered when its own event is reached. */
  ghost function AfterEvents(s: State, events: seq<EpollEvent>): (r: State)
    requires Inv(s) && BatchOk(s, events)
    ensures Inv(r)
    decreases |events|
  {
    if events == [] then s else (BatchStep(s, events); AfterEvents(OnEvent(s, events[0]), events[1..]))
  }

  /** No event of a batch touches a freed descriptor: when the i-th event is handled,
      its descriptor is live and still registered. */
  lemma {:induction false} BatchTouchesOnlyLiveDescriptors(s: State, events: seq<EpollEvent>, i: nat)
    requires Inv(s) && BatchOk(s, events) && i < |events| && events[i].SocketReady?
    ensures BatchOk(s, events[..i]) && IsRegistered(AfterEvents(s, events[..i]), events[i].ref)
    decreases i
  {
    if i > 0 {
      BatchStep(s, events);
      assert events[..i][1..] == events[1..][..i - 1];
      BatchTouchesOnlyLiveDescriptors(OnEvent(s, events[0]), events[1..], i - 1);
    }
  }

  /** A registered descriptor has something to listen for, and the port it would notify
      next is a real one that holds a token. */
  lemma RegisteredPortIsReal(s: State, ref: nat)
    requires Inv(s) && IsRegistered(s, ref)
    ensures var d := s.live[ref];
            && d.Valid() && d.Mask() != {}
            && var port := d.NextNotifyDartPort().1;
            port != 0 && port in d.Ports() && d.Tokens(port) > 0
  {
    NextNotifyConserved(s.live[ref], s.history, ref, {});
  }

  // ----------------------------------------------------------------- the run

  ghost predicate MessagesOk(s: State, messages: seq<Message>)
    requires Inv(s)
    decreases |messages|
  {
    messages == [] ||
    (MessageOk(s, messages[0]) && (OnMessageInv(s, messages[0]); MessagesOk(OnMessage(s, messages[0]), messages[1..])))
  }

  ghost function AfterMessages(s: State, messages: seq<Message>): (r: State)
    requires Inv(s) && MessagesOk(s, messages)
    ensures Inv(r)
    decreases |messages|
  {
    if messages == [] then s
    else (OnMessageInv(s, messages[0]); AfterMessages(OnMessage(s, messages[0]), messages[1..]))
  }

  /** Messages are read only when the interrupt pipe was reported, after all events. */
  function ReadMessages(b: Batch): seq<Message> {
    if Interrupt in b.events then b.messages else []
  }

  ghost predicate TurnOk(s: State, b: Batch)
    requires Inv(s)
  {
    BatchOk(s, b.events) && MessagesOk(AfterEvents(s, b.events), ReadMessages(b))
  }

  ghost function Turn(s: State, b: Batch): (r: State)
    requires Inv(s) && TurnOk(s, b)
    ensures Inv(r)
  {
    AfterMessages(AfterEvents(s, b.events), ReadMessages(b))
  }

  ghost predicate RunOk(s: State, batches: seq<Batch>)
    requires Inv(s)
    decreases |batches|
  {
    batches == [] || s.shutdown || (TurnOk(s, batches[0]) && RunOk(Turn(s, batches[0]), batches[1..]))
  }

  ghost function Poll(s: State, batches: seq<Batch>): (r: State)
    requires Inv(s) && RunOk(s, batches)
    ensures Inv(r)
    decreases |batches|
  {
    if batches == [] || s.shutdown then s else Poll(Turn(s, batches[0]), batches[1..])
  }

  lemma PollStep(s: State, batches: seq<Batch>, i: nat)
    requires Inv(s) && i < |batches| && RunOk(s, batches[i..]) && !s.shutdown
    ensures TurnOk(s, batches[i]) && RunOk(Turn(s, batches[i]), batches[i + 1..])
    ensures Poll(s, batches[i..]) == Poll(Turn(s, batches[i]), batches[i + 1..])
  {
    assert batches[i..][1..] == batches[i + 1..];
  }

  lemma InitialInv()
    ensures Inv(INITIAL)
  {}

  // ------------------------------------- what holds in every reachable state

  ghost predicate Reachable(s: State) {
    exists batches :: Inv(INITIAL) && RunOk(INITIAL, batches) && Poll(INITIAL, batches) == s
  }

  lemma ReachableInv(s: State)
    requires Reachable(s)
    ensures Inv(s)
  {
    var batches :| Inv(INITIAL) && RunOk(INITIAL, batches) && Poll(INITIAL, batches) == s;
  }

  /** A registration belongs to a live descriptor with a non-empty mask and asks for
      exactly its in and out bits; a descriptor epoll never refused is registered if
      and only if its mask is not empty. */
  lemma RegistrationMatchesMask(s: State)
    requires Reachable(s)
    ensures forall fd :: fd in s.epoll ==>
              var r := s.epoll[fd].ref;
              && r in s.live && s.live[r].fd == fd && s.live[r].Mask() != {}
              && s.epoll[fd].interest == s.live[r].Mask() * {In, Out}
              && s.epoll[fd].edgeTriggered == !s.live[r].IsListeningSocket()
    ensures forall r :: r in s.live && r !in s.addFailed ==> (IsRegistered(s, r) <==> s.live[r].Mask() != {})
  {
    ReachableInv(s);
    forall r | r in s.live && r !in s.addFailed
      ensures IsRegistered(s, r) <==> s.live[r].Mask() != {}
    {
      if s.live[r].Mask() != {} {
        var fd := s.live[r].fd;
        assert fd in s.epoll;
      }
    }
  }

  /** Tokens held and tokens owed make up the full count for every port of every
      descriptor, so no port ever holds more than the full count. */
  lemma TokensAreConserved(s: State, r: nat, p: int)
    requires Reachable(s) && r in s.live && p in s.live[r].Ports()
    ensures s.live[r].Tokens(p) + Balance(s.history, r, p) == s.live[r].TokenCount()
    ensures s.live[r].Tokens(p) <= s.live[r].TokenCount()
  {
    ReachableInv(s);
    BalanceNonnegative(s.history, r, p);
  }

  lemma {:induction false} BalanceNonnegative(h: History, r: nat, p: int)
    requires Proper(h)
    ensures Balance(h, r, p) >= 0
  {
    if h.Then? {
      BalanceNonnegative(h.before, r, p);
    }
  }

  /** In every history, a data event finds its port with tokens left, and a timer
      posts only for a setting that is due and has not been posted yet. */
  lemma HistoryIsProper(s: State)
    requires Reachable(s)
    ensures Proper(s.history)
  {
    ReachableInv(s);
  }

  /** The timerfd is armed for the earliest pending timer; it is disarmed only when
      there is none or when the earliest is at time zero. */
  lemma TimerIsArmedForMinimum(s: State)
    requires Reachable(s)
    ensures forall p :: Due(s.timeouts, p) == LastSet(s.history, p)
    ensures s.timeouts != [] ==>
              s.timer.sec * 1000000000 + s.timer.nsec == s.timeouts[Soonest(s.timeouts)].due * 1000000
    ensures s.timer == TimerSpec(0, 0) <==> s.timeouts == [] || s.timeouts[Soonest(s.timeouts)].due == 0
  {
    ReachableInv(s);
    ArmedForMinimum(s.timeouts);
  }

  /** Exactly when a timer event can still arrive: some timer is pending and none is
      at time zero. A timer at zero disarms the timerfd and holds back every other. */
  lemma TimerCanFire(s: State)
    requires Reachable(s)
    ensures (exists now :: EventOk(s, TimerReady(now))) <==>
            s.timeouts != [] && forall p :: Due(s.timeouts, p) != Some(0)
  {
    ReachableInv(s);
    var l := s.timeouts;
    ArmedForMinimum(l);
    if l != [] {
      var k := Soonest(l);
      WellFormedAt(l, k);
      if l[k].due == 0 {
        assert Due(l, l[k].port) == Some(0);
      } else {
        assert EventOk(s, TimerReady(l[k].due));
        forall p ensures Due(l, p) != Some(0) {
          if Due(l, p) == Some(0) { ZeroIsLeast(l, p); }
        }
      }
    }
  }

  lemma {:induction false} ZeroIsLeast(l: seq<Pending>, p: int)
    requires WellFormed(l) && Due(l, p) == Some(0)
    ensures l != [] && l[Soonest(l)].due == 0
  {
    DueIndex(l, p);
    WellFormedAt(l, Soonest(l));
  }

  lemma {:induction false} DueIndex(l: seq<Pending>, p: int)
    requires Due(l, p).Some?
    ensures exists i :: 0 <= i < |l| && l[i] == Pending(p, Due(l, p).value)
  {
    if l[0].port != p {
      DueIndex(l[1..], p);
      var i :| 0 <= i < |l[1..]| && l[1..][i] == Pending(p, Due(l, p).value);
      assert l[i + 1] == l[1..][i];
    } else {
      assert l[0] == Pending(p, Due(l, p).value);
    }
  }

  lemma RegisteredIsReady(s: State, ref: nat)
    requires Inv(s) && IsRegistered(s, ref)
    ensures var d := s.live[ref];
            d.Valid() && d.Mask() != {}
  {}

  /** An error, or nothing but a connection that waits to be accepted. */
  predicate OnlyConnections(flags: set<Flag>) {
    EpollErr in flags || flags !! {EpollOut, EpollHup, EpollRdHup}
  }

  /** The events that a report stands for, and exactly when the assertion that a listening
      socket is told of connections only holds: a broadcast or nothing, or only input. */
  lemma ConnectionsOrErrors(flags: set<Flag>)
    ensures var events := Translate(flags);
            && (Error in events <==> EpollErr in flags && EpollIn in flags)
            && (In in events <==> EpollErr !in flags && EpollIn in flags)
            && (Out in events <==> EpollErr !in flags && EpollOut in flags)
            && (Close in events <==> EpollErr !in flags && (EpollHup in flags || EpollRdHup in flags))
            && Destroyed !in events && (Error in events ==> events == {Error})
    ensures OnlyConnections(flags) <==>
            var events := Translate(flags); Error in events || events == {} || events == {In}
  {
    var events := Translate(flags);
    assert Out in events <==> EpollErr !in flags && EpollOut in flags;
    assert Close in events <==> EpollErr !in flags && (EpollHup in flags || EpollRdHup in flags);
  }

  /** A connected socket is closed with its port or has no mask, and of a listening one
      no other port is ready. */
  predicate LeavesNoMask(d: Descriptor, port: int) {
    if d.Single? then port != 0 || d.Mask() == {}
    else forall q :: q in d.entries && q != port ==> !d.entries[q].IsReady()
  }

  /** Exactly when the assertion that a closed descriptor has no mask left holds. */
  lemma ClosedMaskIsEmpty(s: State, r: nat, port: int)
    requires Reachable(s) && r in s.live
    ensures var d := s.live[r];
            (if port == 0 then d else d.RemovePort(port)).Mask() == {} <==> LeavesNoMask(d, port)
  {
    ReachableInv(s);
    ReleasedMask(s.live[r], port);
  }

  lemma ReleasedMask(d: Descriptor, port: int)
    requires d.Valid()
    ensures (if port == 0 then d else d.RemovePort(port)).Mask() == {} <==> LeavesNoMask(d, port)
  {
    RemovePortValid(d, port);
    var d' := if port == 0 then d else d.RemovePort(port);
    if d.Multiple? {
      if d'.ring != [] {
        var q := d'.ring[0];
        assert q in d'.ring;
        assert q in d'.entries;
      }
      assert forall q :: q in d.entries && q != port && d.entries[q].IsReady() ==> q in d'.ring;
    }
  }

  // ------------------------------------------------------ what a message changes

  /** A new mask is set on its descriptor and on no other. */
  lemma SetMaskEffect(s: State, ref: nat, port: int, mask: set<Event>, addOk: bool)
    requires Inv(s) && ref in s.live && port != 0
    ensures var s' := OnSetMask(s, ref, port, mask, addOk);
            && SameElsewhere(s, s', ref) && ref in s'.live && s.live[ref].SetPortAndMask(port, mask).Valid()
            && s'.live[ref] == Settled(s.live[ref].SetPortAndMask(port, mask), s.live[ref].Mask(), addOk)
  {
    var d := s.live[ref];
    SetPortAndMaskValid(d, port, mask);
    var h := if port in d.Ports() then s.history else Then(s.history, Registered(ref, port));
    UpdateEpollElsewhere(s, ref, d.SetPortAndMask(port, mask), h, d.Mask(), addOk);
  }

  /** Tokens are returned to their descriptor and to no other. */
  lemma ReturnEffect(s: State, ref: nat, port: int, count: nat, addOk: bool)
    requires Inv(s) && ref in s.live && port in s.live[ref].Ports()
    ensures var s' := OnReturnTokens(s, ref, port, count, addOk);
            && SameElsewhere(s, s', ref) && ref in s'.live && s.live[ref].ReturnTokens(port, count).Valid()
            && s'.live[ref] == Settled(s.live[ref].ReturnTokens(port, count), s.live[ref].Mask(), addOk)
  {
    var d := s.live[ref];
    ReturnTokensValid(d, port, count);
    UpdateEpollElsewhere(s, ref, d.ReturnTokens(port, count), Then(s.history, Returned(ref, port, count)), d.Mask(), addOk);
  }

  lemma ReleaseEffect(s: State, ref: nat, port: int, addOk: bool)
    requires Inv(s) && ref in s.live
    ensures var s' := Release(s, ref, port, addOk);
            && SameElsewhere(s, s', ref) && s.live[ref].RemovePort(port).Valid() && s'.live[ref].fd == s.live[ref].fd
            && s'.live[ref] == if port == 0 then s.live[ref] else Settled(s.live[ref].RemovePort(port), s.live[ref].Mask(), addOk)
  {
    var d := s.live[ref];
    RemovePortValid(d, port);
    UpdateEpollElsewhere(s, ref, d.RemovePort(port), s.history, d.Mask(), addOk);
  }

  lemma DeleteElsewhere(s: State, s': State, ref: nat, socket: int)
    requires Linked(s) && ref in s.live && SameElsewhere(s, s', ref) && ref in s'.live && s'.live[ref].fd == s.live[ref].fd
    ensures SameElsewhere(s, Delete(s', ref, socket), ref)
  {}

  /** A close that may delete its descriptor leaves no trace of it; another close drops
      its port; no other descriptor is touched. */
  lemma CloseEffect(s: State, ref: nat, m: Message)
    requires m.SocketMessage? && Inv(s) && ref in s.live
    ensures var d, s' := s.live[ref], OnClose(s, ref, m);
            && SameElsewhere(s, s', ref)
            && if d.Single? || m.closeSafe then
                 ref !in s'.live && d.fd !in s'.socketMap && d.fd !in s'.epoll && m.socket in s'.closedSockets
               else
                 && ref in s'.live && d.RemovePort(m.port).Valid()
                 && s'.live[ref] == if m.port == 0 then d else Settled(d.RemovePort(m.port), d.Mask(), m.addOk)
  {
    ReleaseEffect(s, ref, m.port, m.addOk);
    DeleteElsewhere(s, Release(s, ref, m.port, m.addOk), ref, m.socket);
  }

  /** A socket message changes the descriptor it is about and no other. */
  lemma CommandFrame(s: State, ref: nat, m: Message)
    requires Inv(s) && m.SocketMessage? && CommandOk(s, ref, m)
    ensures SameElsewhere(s, OnCommand(s, ref, m), ref)
  {
    match Decode(m.data)
    case Shut => CloseEffect(s, ref, m);
    case ReturnToken(count) => ReturnEffect(s, ref, m.port, count as int, m.addOk);
    case SetEventMask(events) => SetMaskEffect(s, ref, m.port, events, m.addOk);
    case _ =>
  }
}
