/** The Linux event handler (runtime/bin/eventhandler_linux.cc) as a state machine:
    what one epoll event, one interrupt message and one turn of the poll loop do to the
    descriptors, to the epoll set, to the timers and to the history of what was sent. */
module EventLoop {

  import opened Collections
  import opened Descriptor
  import opened MessageBits
  import opened TimeoutQueue

  // ---------------------------------------------------------------- the state

  /** What has been sent to and received from Dart ports, oldest first. */
  datatype History = Start | Then(before: History, event: Occurrence)

  datatype Occurrence =
    | Registered(ref: nat, port: int)                  // a port joins a descriptor
    | DataPost(ref: nat, port: int, limit: int, events: set<Event>)   // one port is told, costing a token
    | Broadcast(ref: nat, ports: set<int>, events: set<Event>)        // every port is told, a token each
    | Returned(ref: nat, port: int, count: nat)        // tokens come back
    | DestroyedPost(port: int)
    | TimerSet(port: int, due: int)
    | TimerFired(port: int, now: int)

  /** An epoll registration: the descriptor it points at and the events it asks for
      (hang-up and error are reported unasked). */
  datatype Registration = Registration(ref: nat, interest: set<Event>, edgeTriggered: bool)

  datatype TimerSpec = TimerSpec(sec: int, nsec: int)

  datatype State = State(
    live: map<nat, Descriptor>,        // allocated DescriptorInfo objects
    nextRef: nat,                      // objects at or above this were never allocated
    socketMap: map<int, nat>,          // fd to object
    closedSockets: set<int>,           // sockets whose fd has been reset
    epoll: map<int, Registration>,     // the kernel's registration set, by fd
    addFailed: set<nat>,               // objects epoll has refused
    timeouts: seq<Pending>,
    timer: TimerSpec,
    shutdown: bool,
    history: History)

  const INITIAL := State(map[], 0, map[], {}, map[], {}, [], TimerSpec(0, 0), false, Start)

  // -------------------------------------------------------------- the inputs

  datatype Flag = EpollIn | EpollOut | EpollErr | EpollHup | EpollRdHup

  /** The tagged reading of `epoll_event.data`. `addOk` is the kernel's answer should
      this event make the handler add a descriptor to the epoll set. */
  datatype EpollEvent =
    | Interrupt
    | TimerReady(now: int)
    | SocketReady(ref: nat, flags: set<Flag>, addOk: bool)

  /** `closeSafe` is the listening socket registry's answer. */
  datatype Message =
    | TimerMessage(port: int, due: int)
    | ShutdownMessage
    | SocketMessage(socket: int, fd: int, port: int, data: Word, addOk: bool, closeSafe: bool)

  datatype Batch = Batch(events: seq<EpollEvent>, messages: seq<Message>)

  // ------------------------------------------------------------ the operations

  function PollEvents(mask: set<Event>): set<Event> {
    mask * {In, Out}
  }

  function Translate(flags: set<Flag>): (events: set<Event>) {
    if EpollErr in flags then if EpollIn in flags then {Error} else {}
    else
      (if EpollIn in flags then {In} else {}) +
      (if EpollOut in flags then {Out} else {}) +
      (if EpollHup in flags || EpollRdHup in flags then {Close} else {})
  }

  /** Changes one descriptor and records what that told or cost. */
  function Put(s: State, ref: nat, d: Descriptor, e: Occurrence): State {
    s.(live := s.live[ref := d], history := Then(s.history, e))
  }

  function RemoveFromEpoll(s: State, ref: nat): State
    requires ref in s.live
  {
    s.(epoll := s.epoll - {s.live[ref].fd})
  }

  ghost function AddToEpoll(s: State, ref: nat, addOk: bool): State
    requires ref in s.live && s.live[ref].Valid()
  {
    var d := s.live[ref];
    if addOk then
      s.(epoll := s.epoll[d.fd := Registration(ref, PollEvents(d.Mask()), !d.IsListeningSocket())])
    else
      Put(s, ref, d.NotifyAllDartPorts(), Broadcast(ref, d.Ports(), {Close})).(addFailed := s.addFailed + {ref})
  }

  ghost function UpdateEpoll(s: State, oldMask: set<Event>, ref: nat, addOk: bool): State
    requires ref in s.live && s.live[ref].Valid()
  {
    var newMask := s.live[ref].Mask();
    if oldMask != {} && newMask == {} then RemoveFromEpoll(s, ref)
    else if oldMask == {} && newMask != {} then AddToEpoll(s, ref, addOk)
    else if oldMask != {} && newMask != {} && oldMask != newMask then
      AddToEpoll(RemoveFromEpoll(s, ref), ref, addOk)
    else s
  }

  function NewDescriptor(fd: int, listening: bool): Descriptor {
    if listening then Multiple(fd, false, [], map[]) else Single(fd, false, 0, SINGLE_TOKENS, {})
  }

  function GetDescriptorInfo(s: State, fd: int, listening: bool): (r: (State, nat)) {
    if fd in s.socketMap then (s, s.socketMap[fd])
    else (s.(live := s.live[s.nextRef := NewDescriptor(fd, listening)], nextRef := s.nextRef + 1,
             socketMap := s.socketMap[fd := s.nextRef]), s.nextRef)
  }

  /** Deletes the object and closes its fd, which drops any registration of the fd. */
  function Delete(s: State, ref: nat, socket: int): State
    requires ref in s.live
  {
    var fd := s.live[ref].fd;
    s.(live := s.live - {ref}, socketMap := s.socketMap - {fd}, epoll := s.epoll - {fd},
       closedSockets := s.closedSockets + {socket})
  }

  function Arm(l: seq<Pending>): TimerSpec {
    if l == [] then TimerSpec(0, 0)
    else
      var millis := l[Soonest(l)].due;
      TimerSpec(millis / 1000, (millis % 1000) * 1000000)
  }

  function SetTimeouts(s: State, l: seq<Pending>, e: Occurrence): State {
    s.(timeouts := l, timer := Arm(l), history := Then(s.history, e))
  }

  ghost function Notified(s: State, ref: nat, events: set<Event>, addOk: bool): State
    requires ref in s.live && s.live[ref].Valid()
  {
    var d := s.live[ref];
    NotifyAllValid(d);
    UpdateEpoll(Put(s, ref, d.NotifyAllDartPorts(), Broadcast(ref, d.Ports(), events)), d.Mask(), ref, addOk)
  }

  ghost function NextNotified(s: State, ref: nat, events: set<Event>, addOk: bool): State
    requires ref in s.live && s.live[ref].Valid()
  {
    var d := s.live[ref];
    NextNotifyValid(d);
    var (d', port) := d.NextNotifyDartPort();
    UpdateEpoll(Put(s, ref, d', DataPost(ref, port, d.TokenCount(), events)), d.Mask(), ref, addOk)
  }

  ghost function OnSocketReady(s: State, ref: nat, flags: set<Flag>, addOk: bool): State
    requires ref in s.live && s.live[ref].Valid()
  {
    var events := Translate(flags);
    if Error in events then Notified(s, ref, events, addOk)
    else if events != {} then NextNotified(s, ref, events, addOk)
    else s
  }

  ghost function OnTimerReady(s: State, now: int): State
    requires WellFormed(s.timeouts)
  {
    if s.timeouts == [] then s.(timer := Arm(s.timeouts))
    else SetTimeouts(s, Fired(s.timeouts), TimerFired(s.timeouts[Soonest(s.timeouts)].port, now))
  }

  ghost function OnEvent(s: State, e: EpollEvent): State
    requires Inv(s) && EventOk(s, e)
  {
    match e
    case Interrupt => s
    case TimerReady(now) => OnTimerReady(s, now)
    case SocketReady(ref, flags, addOk) => OnSocketReady(s, ref, flags, addOk)
  }

  /** Drops a port of a descriptor that is being closed, if it has one. */
  ghost function Release(s: State, ref: nat, port: int, addOk: bool): (r: State)
    requires ref in s.live && s.live[ref].Valid()
    ensures ref in r.live
  {
    var d := s.live[ref];
    RemovePortValid(d, port);
    if port == 0 then s else UpdateEpoll(s.(live := s.live[ref := d.RemovePort(port)]), d.Mask(), ref, addOk)
  }

  /** A close message: the port leaves; the object goes with a connected socket, and
      with a listening one when the registry says nobody else uses it. */
  ghost function OnClose(s: State, ref: nat, m: Message): State
    requires m.SocketMessage? && ref in s.live && s.live[ref].Valid()
  {
    var s1 := Release(s, ref, m.port, m.addOk);
    var s2 := if !s.live[ref].IsListeningSocket() || m.closeSafe then Delete(s1, ref, m.socket) else s1;
    s2.(history := Then(s2.history, DestroyedPost(m.port)))
  }

  ghost function OnReturnTokens(s: State, ref: nat, port: int, count: nat, addOk: bool): State
    requires ref in s.live && s.live[ref].Valid() && port in s.live[ref].Ports()
  {
    var d := s.live[ref];
    ReturnTokensValid(d, port, count);
    UpdateEpoll(Put(s, ref, d.ReturnTokens(port, count), Returned(ref, port, count)), d.Mask(), ref, addOk)
  }

  ghost function OnSetMask(s: State, ref: nat, port: int, mask: set<Event>, addOk: bool): State
    requires ref in s.live && s.live[ref].Valid() && port != 0
  {
    var d := s.live[ref];
    SetPortAndMaskValid(d, port, mask);
    var d' := d.SetPortAndMask(port, mask);
    var s1 := if port in d.Ports() then s.(live := s.live[ref := d']) else Put(s, ref, d', Registered(ref, port));
    UpdateEpoll(s1, d.Mask(), ref, addOk)
  }

  ghost function OnMessage(s: State, m: Message): State
    requires Inv(s) && MessageOk(s, m)
  {
    match m
    case TimerMessage(port, due) =>
      SetTimeouts(s, Update(s.timeouts, port, due), TimerSet(port, due))
    case ShutdownMessage => s.(shutdown := true)
    case SocketMessage(socket, fd, port, data, addOk, closeSafe) =>
      if socket in s.closedSockets then s
      else
        GetDescriptorInfoInv(s, fd, IsListening(data));
        var (s1, ref) := GetDescriptorInfo(s, fd, IsListening(data));
        OnCommand(s1, ref, m)
  }

  ghost function OnCommand(s: State, ref: nat, m: Message): State
    requires m.SocketMessage? && CommandOk(s, ref, m) && s.live[ref].Valid()
  {
    match Decode(m.data)
    case Shut => OnClose(s, ref, m)
    case ReturnToken(count) => OnReturnTokens(s, ref, m.port, count as int, m.addOk)
    case SetEventMask(events) => OnSetMask(s, ref, m.port, events, m.addOk)
    case _ => s
  }

  // ------------------------------------- what the kernel and the client promise

  /** epoll reports what is registered; a timerfd is readable once it has expired. */
  ghost predicate EventOk(s: State, e: EpollEvent) {
    match e
    case Interrupt => true
    case TimerReady(now) =>
      s.timer != TimerSpec(0, 0) && now * 1000000 >= s.timer.sec * 1000000000 + s.timer.nsec
    case SocketReady(ref, _, _) => IsRegistered(s, ref)
  }

  ghost predicate IsRegistered(s: State, ref: nat) {
    ref in s.live && s.live[ref].fd in s.epoll && s.epoll[s.live[ref].fd].ref == ref
  }

  /** The client sends commands with real ports, one port per connected socket, shuts
      down connected sockets only and returns only tokens it holds. */
  ghost predicate MessageOk(s: State, m: Message) {
    m.SocketMessage? ==>
      && m.data & COMMAND_MASK != 0
      && (m.socket !in s.closedSockets ==>
            var (s1, ref) := GetDescriptorInfo(s, m.fd, IsListening(m.data));
            CommandOk(s1, ref, m))
  }

  ghost predicate CommandOk(s: State, ref: nat, m: Message)
    requires m.SocketMessage?
  {
    && ref in s.live
    && var d := s.live[ref];
    match Decode(m.data)
    case ReturnToken(count) =>
      m.port in d.Ports() && count as int <= Balance(s.history, ref, m.port)
    case SetEventMask(events) =>
      m.port != 0 && events <= {In, Out} && (d.Single? ==> d.port == 0 || d.port == m.port)
    case ShutdownRead => !d.IsListeningSocket()
    case ShutdownWrite => !d.IsListeningSocket()
    case Shut => true
    case Unreachable => false
  }

  // ------------------------------------------------------------- the invariant

  /** Tokens a port owes: notifications since it registered, less what it returned. */
  function Balance(h: History, ref: nat, port: int): int {
    match h
    case Start => 0
    case Then(b, e) =>
      match e
      case Registered(r, p) => if r == ref && p == port then 0 else Balance(b, ref, port)
      case DataPost(r, p, _, _) => Balance(b, ref, port) + if r == ref && p == port then 1 else 0
      case Broadcast(r, ps, _) => Balance(b, ref, port) + if r == ref && port in ps then 1 else 0
      case Returned(r, p, n) => Balance(b, ref, port) - if r == ref && p == port then n else 0
      case _ => Balance(b, ref, port)
  }

  /** The due time a port last asked for and has not been told about. */
  function LastSet(h: History, port: int): Option<int> {
    match h
    case Start => None
    case Then(b, e) =>
      match e
      case TimerSet(p, due) =>
        if p != port then LastSet(b, port) else if due < 0 then None else Some(due)
      case TimerFired(p, _) => if p == port then None else LastSet(b, port)
      case _ => LastSet(b, port)
  }

  /** No data event goes to a port without tokens or without a port; no timer posts
      before its time or twice for one setting. */
  ghost predicate Proper(h: History) {
    match h
    case Start => true
    case Then(b, e) =>
      && Proper(b)
      && (e.DataPost? ==> e.port != 0 && Balance(b, e.ref, e.port) < e.limit)
      && (e.Returned? ==> e.count <= Balance(b, e.ref, e.port))
      && (e.TimerFired? ==> LastSet(b, e.port).Some? && LastSet(b, e.port).value <= e.now)
  }

  /** Objects and fds are in one-to-one correspondence. */
  ghost predicate Linked(s: State) {
    && (forall fd :: fd in s.socketMap ==> s.socketMap[fd] in s.live && s.live[s.socketMap[fd]].fd == fd)
    && (forall r :: r in s.live ==>
          && s.live[r].fd in s.socketMap && s.socketMap[s.live[r].fd] == r
          && r < s.nextRef && s.live[r].Valid() && !s.live[r].disableTokens)
    && (forall r :: r in s.addFailed ==> r < s.nextRef)
  }

  /** Every registration points at a live object with a non-empty mask and asks for
      exactly that mask; conversely an object with a mask is registered unless epoll
      has refused it. The mask of `ref` is taken to be `mask`. */
  ghost predicate EpollAgrees(s: State, ref: nat, mask: set<Event>) {
    && (forall fd :: fd in s.epoll ==>
          var r := s.epoll[fd].ref;
          && r in s.live && s.live[r].fd == fd && MaskOf(s, r, ref, mask) != {}
          && s.epoll[fd] == Registration(r, PollEvents(MaskOf(s, r, ref, mask)), !s.live[r].IsListeningSocket()))
    && (forall r :: r in s.live && MaskOf(s, r, ref, mask) != {} && r !in s.addFailed ==> s.live[r].fd in s.epoll)
  }

  function MaskOf(s: State, r: nat, ref: nat, mask: set<Event>): set<Event>
    requires r in s.live
  {
    if r == ref then mask else s.live[r].Mask()
  }

  /** Tokens held and tokens owed always make up the full count. */
  ghost predicate TokensConserved(s: State) {
    forall r :: r in s.live ==> Conserved(s.live[r], s.history, r)
  }

  ghost predicate Conserved(d: Descriptor, h: History, r: nat) {
    && (forall p :: p in d.Ports() ==> d.Tokens(p) + Balance(h, r, p) == d.TokenCount())
    && (d.Single? && d.port == 0 ==> d.tokens == SINGLE_TOKENS)
  }

  /** The queue is what the history asks for, and the timerfd is armed for its minimum. */
  ghost predicate TimersAgree(s: State) {
    && WellFormed(s.timeouts) && s.timer == Arm(s.timeouts)
    && forall p :: Due(s.timeouts, p) == LastSet(s.history, p)
  }

  ghost predicate Inv(s: State) {
    Linked(s) && EpollAgrees(s, s.nextRef, {}) && TokensConserved(s) && TimersAgree(s) && Proper(s.history)
  }

  /** The invariant while the registration of `ref` still reflects `oldMask`. */
  ghost predicate Unsettled(s: State, ref: nat, oldMask: set<Event>) {
    && ref in s.live
    && Linked(s) && EpollAgrees(s, ref, oldMask) && TokensConserved(s) && TimersAgree(s) && Proper(s.history)
  }

  // ------------------------------------------------ every operation keeps it

  lemma NotifyAllConserved(d: Descriptor, h: History, r: nat, events: set<Event>)
    requires d.Valid() && !d.disableTokens && Conserved(d, h, r) && d.Mask() != {}
    ensures Conserved(d.NotifyAllDartPorts(), Then(h, Broadcast(r, d.Ports(), events)), r)
  {
    var d' := d.NotifyAllDartPorts();
    assert d'.Ports() == d.Ports();
  }

  lemma AddToEpollInv(s: State, ref: nat, addOk: bool)
    requires Unsettled(s, ref, {}) && s.live[ref].Mask() != {}
    ensures Inv(AddToEpoll(s, ref, addOk))
  {
    var d := s.live[ref];
    if addOk {
      AddedInv(s, ref);
    } else {
      NotifyAllValid(d);
      NotifyAllConserved(d, s.history, ref, {Close});
      PutInv(s, ref, d.NotifyAllDartPorts(), Broadcast(ref, d.Ports(), {Close}), {});
      RefusedInv(Put(s, ref, d.NotifyAllDartPorts(), Broadcast(ref, d.Ports(), {Close})), ref);
    }
  }

  lemma AddedInv(s: State, ref: nat)
    requires Unsettled(s, ref, {}) && s.live[ref].Mask() != {}
    ensures Inv(AddToEpoll(s, ref, true))
  {}

  lemma RefusedInv(s: State, ref: nat)
    requires Unsettled(s, ref, {})
    ensures Inv(s.(addFailed := s.addFailed + {ref}))
  {}

  lemma RemoveFromEpollInv(s: State, ref: nat, oldMask: set<Event>)
    requires Unsettled(s, ref, oldMask)
    ensures Unsettled(RemoveFromEpoll(s, ref), ref, {})
  {}

  lemma UpdateEpollInv(s: State, oldMask: set<Event>, ref: nat, addOk: bool)
    requires Unsettled(s, ref, oldMask)
    ensures Inv(UpdateEpoll(s, oldMask, ref, addOk))
  {
    var newMask := s.live[ref].Mask();
    if oldMask != {} && newMask == {} {
      RemoveFromEpollInv(s, ref, oldMask);
    } else if oldMask == {} && newMask != {} {
      AddToEpollInv(s, ref, addOk);
    } else if oldMask != {} && oldMask != newMask {
      RemoveFromEpollInv(s, ref, oldMask);
      AddToEpollInv(RemoveFromEpoll(s, ref), ref, addOk);
    }
  }

  lemma GetDescriptorInfoInv(s: State, fd: int, listening: bool)
    requires Inv(s)
    ensures var (s1, ref) := GetDescriptorInfo(s, fd, listening);
            Inv(s1) && ref in s1.live && s1.live[ref].fd == fd && s1.history == s.history
  {
    if fd !in s.socketMap {
      AllocateInv(s, fd, listening);
    }
  }

  lemma AllocateInv(s: State, fd: int, listening: bool)
    requires Inv(s) && fd !in s.socketMap
    ensures Inv(GetDescriptorInfo(s, fd, listening).0)
  {
    var s1 := GetDescriptorInfo(s, fd, listening).0;
    assert NewDescriptor(fd, listening).Ports() == {};
    assert EpollAgrees(s1, s1.nextRef, {}) by { AllocateEpoll(s, fd, listening); }
  }

  lemma AllocateEpoll(s: State, fd: int, listening: bool)
    requires Linked(s) && EpollAgrees(s, s.nextRef, {}) && fd !in s.socketMap
    ensures var s1 := GetDescriptorInfo(s, fd, listening).0; EpollAgrees(s1, s1.nextRef, {})
  {
    assert s.nextRef !in s.live && s.nextRef + 1 !in s.live;
  }

  /** Replacing a descriptor by one that kept its fd, while recording `e`. */
  lemma PutInv(s: State, ref: nat, d: Descriptor, e: Occurrence, mask: set<Event>)
    requires Unsettled(s, ref, mask)
    requires d.Valid() && !d.disableTokens && d.fd == s.live[ref].fd && d.Multiple? == s.live[ref].Multiple?
    requires !e.TimerSet? && !e.TimerFired? && Proper(Then(s.history, e))
    requires !e.DestroyedPost? && e.ref == ref && Conserved(d, Then(s.history, e), ref)
    ensures Unsettled(Put(s, ref, d, e), ref, mask)
  {
    var s1 := Put(s, ref, d, e);
    assert Linked(s1) by { ReplaceLinked(s, ref, d); }
    assert EpollAgrees(s1, ref, mask) by { PutEpoll(s, ref, d, mask); }
  }

  lemma PutEpoll(s: State, ref: nat, d: Descriptor, mask: set<Event>)
    requires ref in s.live && EpollAgrees(s, ref, mask) && d.fd == s.live[ref].fd && d.Multiple? == s.live[ref].Multiple?
    ensures EpollAgrees(s.(live := s.live[ref := d]), ref, mask)
  {}

  lemma OnSocketReadyInv(s: State, ref: nat, flags: set<Flag>, addOk: bool)
    requires Inv(s) && IsRegistered(s, ref)
    ensures Inv(OnSocketReady(s, ref, flags, addOk))
  {
    var d := s.live[ref];
    var events := Translate(flags);
    if Error in events {
      NotifyAllValid(d);
      NotifyAllConserved(d, s.history, ref, events);
      PutInv(s, ref, d.NotifyAllDartPorts(), Broadcast(ref, d.Ports(), events), d.Mask());
      UpdateEpollInv(Put(s, ref, d.NotifyAllDartPorts(), Broadcast(ref, d.Ports(), events)), d.Mask(), ref, addOk);
    } else if events != {} {
      NextNotifyValid(d);
      var (d', port) := d.NextNotifyDartPort();
      NextNotifyConserved(d, s.history, ref, events);
      PutInv(s, ref, d', DataPost(ref, port, d.TokenCount(), events), d.Mask());
      UpdateEpollInv(Put(s, ref, d', DataPost(ref, port, d.TokenCount(), events)), d.Mask(), ref, addOk);
    }
  }

  /** The port chosen for a data event is a real one and holds a token. */
  lemma NextNotifyConserved(d: Descriptor, h: History, r: nat, events: set<Event>)
    requires d.Valid() && !d.disableTokens && Conserved(d, h, r) && d.Mask() != {}
    ensures var (d', port) := d.NextNotifyDartPort();
            && port != 0 && port in d.Ports() && d.Tokens(port) > 0
            && Balance(h, r, port) < d.TokenCount()
            && Conserved(d', Then(h, DataPost(r, port, d.TokenCount(), events)), r)
  {
    NextNotifyValid(d);
    if d.Multiple? {
      var p := d.ring[0];
      assert p in d.ring;
      assert d.NextNotifyDartPort().0.Ports() == d.Ports();
    }
  }

  lemma OnTimerReadyInv(s: State, now: int)
    requires Inv(s) && EventOk(s, TimerReady(now))
    ensures Inv(OnTimerReady(s, now))
  {
    var l := s.timeouts;
    var k := Soonest(l);
    WellFormedAt(l, k);
    UpdateIsMapUpdate(l, l[k].port, -1);
    ArmedForMinimum(l);
  }

  /** A positive minimum is encoded exactly; a timerfd armed with zero is disarmed. */
  lemma ArmedForMinimum(l: seq<Pending>)
    requires WellFormed(l)
    ensures l != [] ==> Arm(l).sec * 1000000000 + Arm(l).nsec == l[Soonest(l)].due * 1000000
    ensures l != [] ==> 0 <= Arm(l).nsec < 1000000000
    ensures Arm(l) == TimerSpec(0, 0) <==> l == [] || l[Soonest(l)].due == 0
  {
    if l != [] {
      WellFormedAt(l, Soonest(l));
    }
  }

  lemma OnEventInv(s: State, e: EpollEvent)
    requires Inv(s) && EventOk(s, e)
    ensures Inv(OnEvent(s, e))
  {
    match e
    case Interrupt =>
    case TimerReady(now) => OnTimerReadyInv(s, now);
    case SocketReady(ref, flags, addOk) => OnSocketReadyInv(s, ref, flags, addOk);
  }

  lemma OnReturnTokensInv(s: State, ref: nat, port: int, count: nat, addOk: bool)
    requires Inv(s) && ref in s.live && port in s.live[ref].Ports()
    requires count <= Balance(s.history, ref, port)
    ensures Inv(OnReturnTokens(s, ref, port, count, addOk))
  {
    var d := s.live[ref];
    var d' := d.ReturnTokens(port, count);
    ReturnTokensValid(d, port, count);
    assert d'.Ports() == d.Ports();
    PutInv(s, ref, d', Returned(ref, port, count), d.Mask());
    UpdateEpollInv(Put(s, ref, d', Returned(ref, port, count)), d.Mask(), ref, addOk);
  }

  lemma ReplaceInv(s: State, ref: nat, d: Descriptor)
    requires Inv(s) && ref in s.live
    requires d.Valid() && !d.disableTokens && d.fd == s.live[ref].fd && d.Multiple? == s.live[ref].Multiple?
    requires Conserved(d, s.history, ref)
    ensures Unsettled(s.(live := s.live[ref := d]), ref, s.live[ref].Mask())
  {
    ReplaceLinked(s, ref, d);
    ReplaceEpoll(s, ref, d);
  }

  lemma ReplaceLinked(s: State, ref: nat, d: Descriptor)
    requires Linked(s) && ref in s.live && d.Valid() && !d.disableTokens && d.fd == s.live[ref].fd
    ensures Linked(s.(live := s.live[ref := d]))
  {}

  lemma ReplaceEpoll(s: State, ref: nat, d: Descriptor)
    requires EpollAgrees(s, s.nextRef, {}) && ref in s.live && s.nextRef !in s.live
    requires d.fd == s.live[ref].fd && d.Multiple? == s.live[ref].Multiple?
    ensures EpollAgrees(s.(live := s.live[ref := d]), ref, s.live[ref].Mask())
  {}

  lemma SetMaskConserved(d: Descriptor, h: History, r: nat, port: int, mask: set<Event>)
    requires d.Valid() && Conserved(d, h, r) && port != 0
    requires d.Single? ==> d.port == 0 || d.port == port
    ensures port in d.Ports() ==> Conserved(d.SetPortAndMask(port, mask), h, r)
    ensures port !in d.Ports() ==> Conserved(d.SetPortAndMask(port, mask), Then(h, Registered(r, port)), r)
  {
    assert d.SetPortAndMask(port, mask).Ports() == d.Ports() + {port};
  }

  lemma OnSetMaskInv(s: State, ref: nat, port: int, mask: set<Event>, addOk: bool)
    requires Inv(s) && ref in s.live && port != 0
    requires s.live[ref].Single? ==> s.live[ref].port == 0 || s.live[ref].port == port
    ensures Inv(OnSetMask(s, ref, port, mask, addOk))
  {
    var d := s.live[ref];
    var d' := d.SetPortAndMask(port, mask);
    SetPortAndMaskValid(d, port, mask);
    SetMaskConserved(d, s.history, ref, port, mask);
    if port in d.Ports() {
      ReplaceInv(s, ref, d');
      UpdateEpollInv(s.(live := s.live[ref := d']), d.Mask(), ref, addOk);
    } else {
      PutInv(s, ref, d', Registered(ref, port), d.Mask());
      UpdateEpollInv(Put(s, ref, d', Registered(ref, port)), d.Mask(), ref, addOk);
    }
  }

  lemma DeleteInv(s: State, ref: nat, socket: int)
    requires Inv(s) && ref in s.live
    ensures Inv(Delete(s, ref, socket))
  {}

  lemma DestroyedPostInv(s: State, port: int)
    requires Inv(s)
    ensures Inv(s.(history := Then(s.history, DestroyedPost(port))))
  {}

  /** For a connected socket, closing amounts to deleting. */
  lemma OnCloseSingle(s: State, ref: nat, m: Message)
    requires m.SocketMessage? && Inv(s) && ref in s.live && s.live[ref].Single?
    ensures var s2 := Delete(s, ref, m.socket);
            OnClose(s, ref, m) == s2.(history := Then(s2.history, DestroyedPost(m.port)))
  {
    var d := s.live[ref];
    RemovePortValid(d, m.port);
    if m.port != 0 {
      var s1 := UpdateEpoll(s.(live := s.live[ref := d.RemovePort(m.port)]), d.Mask(), ref, m.addOk);
      assert s1.live - {ref} == s.live - {ref} && s1.epoll - {d.fd} == s.epoll - {d.fd};
    }
  }

  lemma OnCloseInv(s: State, ref: nat, m: Message)
    requires m.SocketMessage? && Inv(s) && ref in s.live
    ensures Inv(OnClose(s, ref, m))
  {
    var d := s.live[ref];
    if d.Single? {
      OnCloseSingle(s, ref, m);
      DeleteInv(s, ref, m.socket);
      DestroyedPostInv(Delete(s, ref, m.socket), m.port);
    } else {
      OnCloseMultiple(s, ref, m);
    }
  }

  lemma ReleaseInv(s: State, ref: nat, port: int, addOk: bool)
    requires Inv(s) && ref in s.live && s.live[ref].Multiple?
    ensures Inv(Release(s, ref, port, addOk))
  {
    var d := s.live[ref];
    RemovePortValid(d, port);
    if port != 0 {
      var d' := d.RemovePort(port);
      assert d'.Ports() == d.Ports() - {port};
      ReplaceInv(s, ref, d');
      UpdateEpollInv(s.(live := s.live[ref := d']), d.Mask(), ref, addOk);
    }
  }

  lemma OnCloseMultiple(s: State, ref: nat, m: Message)
    requires m.SocketMessage? && Inv(s) && ref in s.live && s.live[ref].Multiple?
    ensures Inv(OnClose(s, ref, m))
  {
    var s1 := Release(s, ref, m.port, m.addOk);
    ReleaseInv(s, ref, m.port, m.addOk);
    if m.closeSafe {
      DeleteInv(s1, ref, m.socket);
      DestroyedPostInv(Delete(s1, ref, m.socket), m.port);
    } else {
      DestroyedPostInv(s1, m.port);
    }
  }

  lemma OnMessageInv(s: State, m: Message)
    requires Inv(s) && MessageOk(s, m)
    ensures Inv(OnMessage(s, m))
  {
    match m
    case TimerMessage(port, due) =>
      SetTimeoutsInv(s, port, due);
    case ShutdownMessage =>
    case SocketMessage(socket, fd, port, data, addOk, closeSafe) =>
      if socket !in s.closedSockets {
        GetDescriptorInfoInv(s, fd, IsListening(data));
        var (s1, ref) := GetDescriptorInfo(s, fd, IsListening(data));
        OnCommandInv(s1, ref, m);
      }
  }

  lemma SetTimeoutsInv(s: State, port: int, due: int)
    requires Inv(s)
    ensures Inv(SetTimeouts(s, Update(s.timeouts, port, due), TimerSet(port, due)))
  {
    UpdateIsMapUpdate(s.timeouts, port, due);
  }

  lemma OnCommandInv(s: State, ref: nat, m: Message)
    requires Inv(s) && m.SocketMessage? && CommandOk(s, ref, m)
    ensures Inv(OnCommand(s, ref, m))
  {
    match Decode(m.data)
    case Shut => OnCloseInv(s, ref, m);
    case ReturnToken(count) => OnReturnTokensInv(s, ref, m.port, count as int, m.addOk);
    case SetEventMask(events) => OnSetMaskInv(s, ref, m.port, events, m.addOk);
    case _ =>
  }
}
