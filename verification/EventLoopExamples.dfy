/** Reachable states of the event handler in which a property one would expect fails;
    the lemmas named beside each give the exact condition. */
module EventLoopExamples {

  import opened Collections
  import opened Descriptor
  import opened MessageBits
  import opened TimeoutQueue
  import opened EventLoop
  import opened EventLoopRuns

  /** A turn more at the end of a run. */
  lemma {:induction false} PollSnoc(s: State, batches: seq<Batch>, b: Batch)
    requires Inv(s) && RunOk(s, batches) && !Poll(s, batches).shutdown && TurnOk(Poll(s, batches), b)
    ensures RunOk(s, batches + [b]) && Poll(s, batches + [b]) == Turn(Poll(s, batches), b)
    decreases |batches|
  {
    if batches == [] {
      assert ([b])[1..] == [];
      assert RunOk(Turn(s, b), []);
    } else {
      var all := batches + [b];
      assert all[0] == batches[0] && all[1..] == batches[1..] + [b];
      if !s.shutdown {
        PollSnoc(Turn(s, batches[0]), batches[1..], b);
      }
    }
  }

  /** A message more after a reachable state. */
  lemma MessageReaches(s: State, m: Message)
    requires Reachable(s) && Inv(s) && !s.shutdown && MessageOk(s, m)
    ensures Reachable(OnMessage(s, m)) && Inv(OnMessage(s, m))
  {
    var batches :| Inv(INITIAL) && RunOk(INITIAL, batches) && Poll(INITIAL, batches) == s;
    var b := Batch([Interrupt], [m]);
    OneMessage(s, m);
    PollSnoc(INITIAL, batches, b);
    ReachableBy(batches + [b], OnMessage(s, m));
  }

  lemma ReachableBy(batches: seq<Batch>, s: State)
    requires Inv(INITIAL) && RunOk(INITIAL, batches) && Poll(INITIAL, batches) == s
    ensures Reachable(s)
  {}

  lemma OneMessage(s: State, m: Message)
    requires Inv(s) && MessageOk(s, m)
    ensures var b := Batch([Interrupt], [m]); TurnOk(s, b) && Turn(s, b) == OnMessage(s, m)
    ensures Inv(OnMessage(s, m))
  {
    var b := Batch([Interrupt], [m]);
    OnMessageInv(s, m);
    assert [m][1..] == [] && b.events[1..] == [];
    assert AfterEvents(s, b.events) == s;
    assert MessagesOk(OnMessage(s, m), []) && AfterMessages(OnMessage(s, m), []) == OnMessage(s, m);
    assert MessagesOk(s, [m]) && AfterMessages(s, [m]) == OnMessage(s, m);
  }

  lemma InitialReachable()
    ensures Reachable(INITIAL) && Inv(INITIAL)
  {
    InitialInv();
    assert RunOk(INITIAL, []) && Poll(INITIAL, []) == INITIAL;
  }

  /** A timer at zero disarms the timerfd, so the one due at 5 cannot fire either
      (`TimerCanFire`). */
  lemma ZeroTimerHoldsBack() returns (s: State)
    ensures Reachable(s) && Due(s.timeouts, 2) == Some(5)
    ensures forall now :: !EventOk(s, TimerReady(now))
  {
    InitialReachable();
    MessageReaches(INITIAL, TimerMessage(1, 0));
    var s1 := OnMessage(INITIAL, TimerMessage(1, 0));
    MessageReaches(s1, TimerMessage(2, 5));
    s := OnMessage(s1, TimerMessage(2, 5));
    TwoTimers();
    TimerCanFire(s);
  }

  lemma TwoTimers()
    ensures var l := Update(Update([], 1, 0), 2, 5); Due(l, 2) == Some(5) && Due(l, 1) == Some(0)
  {
    assert Update([], 1, 0) == [Pending(1, 0)];
    var l := [Pending(2, 5)] + [Pending(1, 0)];
    assert l[1..] == [Pending(1, 0)];
  }

  /** One port has asked for input on the first socket, fd 3. */
  ghost function FirstSocket(listening: bool): State {
    var d := NewDescriptor(3, listening).SetPortAndMask(9, {In});
    State(map[0 := d], 1, map[3 := 0], {}, map[3 := Registration(0, {In}, !listening)], {}, [], TimerSpec(0, 0), false,
          Then(Start, Registered(0, 9)))
  }

  lemma FirstSocketReachable(listening: bool)
    ensures Reachable(FirstSocket(listening)) && Inv(FirstSocket(listening))
  {
    var m := SocketMessage(7, 3, 9, Encode(SetEventMask({In}), listening), true, false);
    InitialReachable();
    DecodeEncode(SetEventMask({In}), listening);
    var (s1, ref) := GetDescriptorInfo(INITIAL, 3, listening);
    assert s1.live == map[0 := NewDescriptor(3, listening)];
    FirstMask(s1, listening);
    MessageReaches(INITIAL, m);
  }

  lemma FirstMask(s1: State, listening: bool)
    requires s1 == GetDescriptorInfo(INITIAL, 3, listening).0
    ensures s1.live[0].Valid() && OnSetMask(s1, 0, 9, {In}, true) == FirstSocket(listening)
  {
    var d := NewDescriptor(3, listening);
    assert s1.live == map[0 := d] && d.Ports() == {} && d.Mask() == {};
    var d' := d.SetPortAndMask(9, {In});
    assert d'.Mask() == {In} && PollEvents({In}) == {In};
    assert s1.live[0 := d'] == map[0 := d'];
  }

  /** Closing a connected socket without its port leaves the mask, against the assertion
      of the close command (`ClosedMaskIsEmpty`). */
  lemma CloseWithoutPort() returns (s: State, m: Message)
    ensures Reachable(s) && MessageOk(s, m) && m.SocketMessage? && m.socket !in s.closedSockets
    ensures Decode(m.data) == Shut && m.fd in s.socketMap
    ensures var ref := s.socketMap[m.fd];
            ref in s.live && s.live[ref].Single? && !LeavesNoMask(s.live[ref], m.port)
  {
    FirstSocketReachable(false);
    s := FirstSocket(false);
    m := SocketMessage(7, 3, 0, Encode(Shut, false), true, true);
    DecodeEncode(Shut, false);
    assert m.data & COMMAND_MASK != 0;
  }

  /** A hang-up on a listening socket is handed to a port, against the assertion of
      `NextNotifyDartPort` (`ConnectionsOrErrors`). */
  lemma HangUpOnListeningSocket() returns (s: State, e: EpollEvent)
    ensures Reachable(s) && EventOk(s, e) && e.SocketReady?
    ensures s.live[e.ref].IsListeningSocket() && !OnlyConnections(e.flags)
    ensures Error !in Translate(e.flags) && Translate(e.flags) == {Close}
  {
    FirstSocketReachable(true);
    s := FirstSocket(true);
    e := SocketReady(0, {EpollHup}, true);
    ConnectionsOrErrors(e.flags);
  }
}
