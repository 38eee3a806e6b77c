/** The methods of `EventHandlerImplementation` (runtime/bin/eventhandler_linux.cc), on
    descriptor objects with their own rings and maps, proved to do to `Abstract()` what
    the state machine does. The source's assertions about the state appear as assertions
    or as preconditions of the descriptor's methods. Two fail in reachable states, on the
    events of a listening socket and on the mask of a closed one: they are answers whose
    contracts say exactly when they hold. Three that only say what messages the client
    sends are not asserted: that an fd is not negative, that a listening socket is asked
    for input or nothing, and that a connected socket is closed with its own port. */
module EventHandler {

  import opened Descriptor
  import opened MessageBits
  import opened TimeoutQueue
  import opened EventLoop
  import opened EventLoopRuns
  import opened DescriptorTable

  class EventHandlerImplementation {
    const table: Table
    var nextRef: nat
    var socketMap: map<int, nat>
    var closedSockets: set<int>
    var epoll: map<int, Registration>
    ghost var addFailed: set<nat>
    const timeoutQueue: TimeoutQueue
    var timer: TimerSpec
    var shutdown: bool
    ghost var history: History

    ghost function Abstract(): State
      reads this, table, timeoutQueue
    {
      State(table.Models, nextRef, socketMap, closedSockets, epoll, addFailed, timeoutQueue.Contents, timer, shutdown, history)
    }

    /** The descriptors share nothing with the handler. */
    ghost predicate Ready()
      reads table, table.Repr
    {
      table.Valid() && this !in table.Repr && timeoutQueue !in table.Repr
    }

    ghost predicate Valid()
      reads this, table, table.Repr, timeoutQueue, timeoutQueue.Repr
    {
      Ready() && timeoutQueue.Valid() && table.Repr !! timeoutQueue.Repr && Inv(Abstract())
    }

    constructor ()
      ensures Valid() && Abstract() == INITIAL
      ensures fresh(timeoutQueue) && timeoutQueue.Repr == {} && fresh(table) && table.Repr == {}
    {
      table := new Table();
      nextRef, socketMap, closedSockets, epoll, addFailed := 0, map[], {}, map[], {};
      timeoutQueue := new TimeoutQueue();
      timer, shutdown, history := TimerSpec(0, 0), false, Start;
      new;
      InitialInv();
    }

    method RemoveFromEpollInstance(ref: nat)
      requires Ready() && ref in table.Models
      modifies this`epoll
      ensures Ready() && Abstract() == RemoveFromEpoll(old(Abstract()), ref)
    {
      var fd := table.Fd(ref);
      epoll := epoll - {fd};
    }

    method AddToEpollInstance(ref: nat, addOk: bool)
      requires Ready() && ref in table.Models && table.Models[ref].Valid()
      modifies this, table, table.Repr
      ensures Ready() && fresh(table.Repr - old(table.Repr))
      ensures Abstract() == AddToEpoll(old(Abstract()), ref, addOk)
    {
      ghost var d := table.Models[ref];
      var fd := table.Fd(ref);
      var isListening := table.IsListeningSocket(ref);
      if addOk {
        var mask := table.Mask(ref);
        epoll := epoll[fd := Registration(ref, PollEvents(mask), !isListening)];
      } else {
        history := Then(history, Broadcast(ref, d.Ports(), {Close}));
        addFailed := addFailed + {ref};
        table.NotifyAllDartPorts(ref, {Close});
      }
    }

    method UpdateEpollInstance(oldMask: set<Event>, ref: nat, addOk: bool)
      requires Ready() && ref in table.Models && table.Models[ref].Valid()
      requires table.Models[ref].IsListeningSocket() ==> oldMask <= {In}
      modifies this, table, table.Repr
      ensures Ready() && fresh(table.Repr - old(table.Repr))
      ensures Abstract() == UpdateEpoll(old(Abstract()), oldMask, ref, addOk)
    {
      var newMask := table.Mask(ref);
      if oldMask != {} && newMask == {} {
        RemoveFromEpollInstance(ref);
      } else if oldMask == {} && newMask != {} {
        AddToEpollInstance(ref, addOk);
      } else if oldMask != {} && newMask != {} && oldMask != newMask {
        assert !table.Models[ref].IsListeningSocket();
        RemoveFromEpollInstance(ref);
        AddToEpollInstance(ref, addOk);
      }
    }

    method GetDescriptorInfo(fd: int, isListening: bool) returns (ref: nat)
      requires Valid()
      modifies this, table, table.Repr
      ensures Ready() && fresh(table.Repr - old(table.Repr))
      ensures (Abstract(), ref) == EventLoop.GetDescriptorInfo(old(Abstract()), fd, isListening)
    {
      ghost var s := Abstract();
      GetDescriptorInfoInv(s, fd, isListening);
      if fd in socketMap {
        ref := socketMap[fd];
      } else {
        ref := nextRef;
        nextRef := nextRef + 1;
        socketMap := socketMap[fd := ref];
        table.Create(ref, fd, isListening);
      }
      assert table.Models[ref].fd == fd;
    }

    method UpdateTimerFd()
      requires timeoutQueue.Valid()
      modifies this`timer
      ensures Abstract() == old(Abstract()).(timer := Arm(timeoutQueue.Contents))
    {
      var sec, nsec := 0, 0;
      if timeoutQueue.HasTimeout() {
        var millis := timeoutQueue.CurrentTimeout();
        sec, nsec := millis / 1000, (millis % 1000) * 1000000;
      }
      timer := TimerSpec(sec, nsec);
    }

    method NotifyAll(ref: nat, events: set<Event>, addOk: bool)
      requires Ready() && ref in table.Models && table.Models[ref].Valid() && IsBroadcast(events)
      modifies this, table, table.Repr
      ensures Ready() && fresh(table.Repr - old(table.Repr))
      ensures Abstract() == Notified(old(Abstract()), ref, events, addOk)
    {
      ghost var di := table.Models[ref];
      NotifyAllValid(di);
      var oldMask := table.Mask(ref);
      history := Then(history, Broadcast(ref, di.Ports(), events));
      table.NotifyAllDartPorts(ref, events);
      UpdateEpollInstance(oldMask, ref, addOk);
    }

    method NotifyNext(ref: nat, events: set<Event>, addOk: bool)
      requires Ready() && ref in table.Models && table.Models[ref].Valid() && table.Models[ref].Mask() != {}
      requires IsIoEvent(events)
      modifies this, table, table.Repr
      ensures Ready() && fresh(table.Repr - old(table.Repr))
      ensures Abstract() == NextNotified(old(Abstract()), ref, events, addOk)
    {
      ghost var di := table.Models[ref];
      NextNotifyValid(di);
      var oldMask := table.Mask(ref);
      var port := table.NextNotifyDartPort(ref, events);
      assert port != 0;
      history := Then(history, DataPost(ref, port, di.TokenCount(), events));
      UpdateEpollInstance(oldMask, ref, addOk);
    }

    /** The socket branch of the event loop. `expected` is what `NextNotifyDartPort` of a
        listening socket asserts: that nothing but a connection is reported to it. */
    method HandleSocketEvent(ref: nat, flags: set<Flag>, addOk: bool) returns (expected: bool)
      requires Ready() && ref in table.Models && table.Models[ref].Valid() && table.Models[ref].Mask() != {}
      modifies this, table, table.Repr
      ensures Ready() && fresh(table.Repr - old(table.Repr))
      ensures Abstract() == OnSocketReady(old(Abstract()), ref, flags, addOk)
      ensures expected <==> !old(table.Models)[ref].IsListeningSocket() || OnlyConnections(flags)
    {
      var isListening := table.IsListeningSocket(ref);
      var eventMask := Translate(flags);
      ConnectionsOrErrors(flags);
      if Error in eventMask {
        NotifyAll(ref, eventMask, addOk);
        expected := true;
      } else if eventMask != {} {
        expected := !isListening || IsEvent(eventMask, In);
        NotifyNext(ref, eventMask, addOk);
      } else {
        expected := true;
      }
    }

    /** The timer branch of the event loop. */
    method HandleTimerEvent(now: int)
      requires timeoutQueue.Valid()
      modifies this, timeoutQueue, timeoutQueue.Repr
      ensures timeoutQueue.Valid() && timeoutQueue.Repr == old(timeoutQueue.Repr)
      ensures Abstract() == OnTimerReady(old(Abstract()), now)
    {
      if timeoutQueue.HasTimeout() {
        var port := timeoutQueue.CurrentPort();
        history := Then(history, TimerFired(port, now));
        timeoutQueue.RemoveCurrent();
      }
      UpdateTimerFd();
    }

    method DeleteDescriptor(ref: nat, socket: int)
      requires Ready() && ref in table.Models
      modifies this, table
      ensures Ready() && table.Repr == old(table.Repr) && Abstract() == Delete(old(Abstract()), ref, socket)
    {
      var fd := table.Fd(ref);
      socketMap := socketMap - {fd};
      epoll := epoll - {fd};
      closedSockets := closedSockets + {socket};
      table.Delete(ref);
    }

    /** `newMask` is the mask after the port has left, which the source asserts to be
        empty when it deletes the descriptor. */
    method HandleClose(ref: nat, m: Message) returns (newMask: set<Event>)
      requires Ready() && ref in table.Models && table.Models[ref].Valid()
      requires m.SocketMessage? && table.Models[ref].fd == m.fd
      modifies this, table, table.Repr
      ensures Ready() && fresh(table.Repr - old(table.Repr))
      ensures Abstract() == OnClose(old(Abstract()), ref, m)
      ensures newMask == {} <==> LeavesNoMask(old(table.Models)[ref], m.port)
    {
      var isListening := table.IsListeningSocket(ref);
      newMask := ReleasePort(ref, m.port, m.addOk);
      var fd := table.Fd(ref);
      assert fd == m.fd;
      if !isListening || m.closeSafe {
        DeleteDescriptor(ref, m.socket);
      }
      history := Then(history, DestroyedPost(m.port));
    }

    method ReleasePort(ref: nat, port: int, addOk: bool) returns (newMask: set<Event>)
      requires Ready() && ref in table.Models && table.Models[ref].Valid()
      modifies this, table, table.Repr
      ensures Ready() && fresh(table.Repr - old(table.Repr))
      ensures Abstract() == Release(old(Abstract()), ref, port, addOk)
      ensures ref in table.Models && table.Models[ref].fd == old(table.Models)[ref].fd
      ensures newMask == {} <==> LeavesNoMask(old(table.Models)[ref], port)
    {
      ghost var di := table.Models[ref];
      var oldMask := table.Mask(ref);
      RemovePortValid(di, port);
      ReleasedMask(di, port);
      if port != 0 {
        table.RemovePort(ref, port);
      }
      newMask := table.Mask(ref);
      UpdateEpollInstance(oldMask, ref, addOk);
    }

    method HandleSetMask(ref: nat, port: int, events: set<Event>, addOk: bool)
      requires Ready() && ref in table.Models && table.Models[ref].Valid() && port != 0
      requires table.Models[ref].Single? ==> table.Models[ref].port == 0 || table.Models[ref].port == port
      modifies this, table, table.Repr
      ensures Ready() && fresh(table.Repr - old(table.Repr))
      ensures Abstract() == OnSetMask(old(Abstract()), ref, port, events, addOk)
    {
      ghost var di := table.Models[ref];
      SetPortAndMaskValid(di, port, events);
      var oldMask := table.Mask(ref);
      table.SetPortAndMask(ref, port, events);
      history := if port in di.Ports() then history else Then(history, Registered(ref, port));
      UpdateEpollInstance(oldMask, ref, addOk);
    }

    method HandleReturnTokens(ref: nat, port: int, count: nat, addOk: bool)
      requires Ready() && ref in table.Models && table.Models[ref].Valid() && port in table.Models[ref].Ports()
      requires table.Models[ref].Tokens(port) + count <= table.Models[ref].TokenCount()
      modifies this, table, table.Repr
      ensures Ready() && fresh(table.Repr - old(table.Repr))
      ensures Abstract() == OnReturnTokens(old(Abstract()), ref, port, count, addOk)
    {
      ghost var di := table.Models[ref];
      ReturnTokensValid(di, port, count);
      var oldMask := table.Mask(ref);
      table.ReturnTokens(ref, port, count);
      history := Then(history, Returned(ref, port, count));
      UpdateEpollInstance(oldMask, ref, addOk);
    }

    method HandleSocketMessage(m: Message)
      requires m.SocketMessage? && Valid() && MessageOk(Abstract(), m)
      modifies this, table, table.Repr
      ensures Ready() && fresh(table.Repr - old(table.Repr))
      ensures Abstract() == OnMessage(old(Abstract()), m)
    {
      assert m.data & COMMAND_MASK != 0;
      if m.socket in closedSockets {
        return;
      }
      GetDescriptorInfoInv(Abstract(), m.fd, IsListening(m.data));
      var ref := GetDescriptorInfo(m.fd, IsListening(m.data));
      HandleCommand(ref, m);
    }

    method HandleCommand(ref: nat, m: Message)
      requires m.SocketMessage? && Ready() && CommandOk(Abstract(), ref, m)
      requires table.Models[ref].Valid() && table.Models[ref].fd == m.fd && Conserved(table.Models[ref], history, ref)
      modifies this, table, table.Repr
      ensures Ready() && fresh(table.Repr - old(table.Repr))
      ensures Abstract() == OnCommand(old(Abstract()), ref, m)
    {
      match Decode(m.data) {
        case ShutdownRead =>
          var isListening := table.IsListeningSocket(ref);
          assert !isListening;
        case ShutdownWrite =>
          var isListening := table.IsListeningSocket(ref);
          assert !isListening;
        case Shut =>
          var _ := HandleClose(ref, m);
        case ReturnToken(count) => HandleReturnTokens(ref, m.port, count as int, m.addOk);
        case SetEventMask(events) =>
          assert events <= {In, Out};
          HandleSetMask(ref, m.port, events, m.addOk);
        case Unreachable => assert false;
      }
    }

    method HandleMessage(m: Message)
      requires Valid() && MessageOk(Abstract(), m)
      modifies this, table, table.Repr, timeoutQueue, timeoutQueue.Repr
      ensures Valid() && fresh(table.Repr - old(table.Repr)) && fresh(timeoutQueue.Repr - old(timeoutQueue.Repr))
      ensures Abstract() == OnMessage(old(Abstract()), m)
    {
      OnMessageInv(Abstract(), m);
      match m {
        case TimerMessage(port, due) => HandleTimerMessage(port, due);
        case ShutdownMessage => shutdown := true;
        case SocketMessage(_, _, _, _, _, _) => HandleSocketMessage(m);
      }
    }

    method HandleTimerMessage(port: int, due: int)
      requires timeoutQueue.Valid()
      modifies this, timeoutQueue, timeoutQueue.Repr
      ensures timeoutQueue.Valid() && fresh(timeoutQueue.Repr - old(timeoutQueue.Repr))
      ensures Abstract() == SetTimeouts(old(Abstract()), Update(old(timeoutQueue.Contents), port, due), TimerSet(port, due))
    {
      history := Then(history, TimerSet(port, due));
      timeoutQueue.UpdateTimeout(port, due);
      UpdateTimerFd();
    }

    method HandleInterruptFd(messages: seq<Message>)
      requires Valid() && MessagesOk(Abstract(), messages)
      modifies this, table, table.Repr, timeoutQueue, timeoutQueue.Repr
      ensures Valid() && fresh(table.Repr - old(table.Repr)) && fresh(timeoutQueue.Repr - old(timeoutQueue.Repr))
      ensures Abstract() == AfterMessages(old(Abstract()), messages)
    {
      ghost var goal := AfterMessages(Abstract(), messages);
      for i := 0 to |messages|
        invariant Valid() && fresh(table.Repr - old(table.Repr)) && fresh(timeoutQueue.Repr - old(timeoutQueue.Repr))
        invariant MessagesOk(Abstract(), messages[i..]) && AfterMessages(Abstract(), messages[i..]) == goal
      {
        assert messages[i..][1..] == messages[i + 1..];
        HandleMessage(messages[i]);
      }
    }

    method HandleEvent(event: EpollEvent)
      requires Valid() && EventOk(Abstract(), event)
      modifies this, table, table.Repr, timeoutQueue, timeoutQueue.Repr
      ensures Valid() && fresh(table.Repr - old(table.Repr)) && timeoutQueue.Repr == old(timeoutQueue.Repr)
      ensures Abstract() == OnEvent(old(Abstract()), event)
    {
      OnEventInv(Abstract(), event);
      match event {
        case Interrupt =>
        case TimerReady(now) => HandleTimerEvent(now);
        case SocketReady(ref, flags, addOk) =>
          RegisteredIsReady(Abstract(), ref);
          var _ := HandleSocketEvent(ref, flags, addOk);
      }
    }

    method HandleReports(events: seq<EpollEvent>) returns (interruptSeen: bool)
      requires Valid() && BatchOk(Abstract(), events)
      modifies this, table, table.Repr, timeoutQueue, timeoutQueue.Repr
      ensures Valid() && fresh(table.Repr - old(table.Repr)) && timeoutQueue.Repr == old(timeoutQueue.Repr)
      ensures Abstract() == AfterEvents(old(Abstract()), events) && (interruptSeen <==> Interrupt in events)
    {
      interruptSeen := false;
      ghost var goal := AfterEvents(Abstract(), events);
      for i := 0 to |events|
        invariant Valid() && fresh(table.Repr - old(table.Repr)) && timeoutQueue.Repr == old(timeoutQueue.Repr)
        invariant interruptSeen <==> Interrupt in events[..i]
        invariant BatchOk(Abstract(), events[i..]) && AfterEvents(Abstract(), events[i..]) == goal
      {
        assert events[i..][1..] == events[i + 1..];
        BatchStep(Abstract(), events[i..]);
        if events[i].Interrupt? {
          interruptSeen := true;
        }
        HandleEvent(events[i]);
      }
      assert events[..|events|] == events;
    }

    /** Events first, then the messages, so that no descriptor is closed before its own
        event has been handled. */
    method HandleEvents(b: Batch)
      requires Valid() && TurnOk(Abstract(), b)
      modifies this, table, table.Repr, timeoutQueue, timeoutQueue.Repr
      ensures Valid() && fresh(table.Repr - old(table.Repr)) && fresh(timeoutQueue.Repr - old(timeoutQueue.Repr))
      ensures Abstract() == Turn(old(Abstract()), b)
    {
      var interruptSeen := HandleReports(b.events);
      if interruptSeen {
        HandleInterruptFd(b.messages);
      }
    }

    method HandleTurn(batches: seq<Batch>, i: nat)
      requires Valid() && i < |batches| && RunOk(Abstract(), batches[i..]) && !shutdown
      modifies this, table, table.Repr, timeoutQueue, timeoutQueue.Repr
      ensures Valid() && fresh(table.Repr - old(table.Repr)) && fresh(timeoutQueue.Repr - old(timeoutQueue.Repr))
      ensures RunOk(Abstract(), batches[i + 1..])
        && EventLoopRuns.Poll(Abstract(), batches[i + 1..]) == EventLoopRuns.Poll(old(Abstract()), batches[i..])
    {
      PollStep(Abstract(), batches, i);
      HandleEvents(batches[i]);
    }

    method Poll(batches: seq<Batch>)
      requires Valid() && RunOk(Abstract(), batches)
      modifies this, table, table.Repr, timeoutQueue, timeoutQueue.Repr
      ensures Valid() && Abstract() == EventLoopRuns.Poll(old(Abstract()), batches)
    {
      var i := 0;
      while !shutdown && i < |batches|
        invariant 0 <= i <= |batches|
        invariant Valid() && fresh(table.Repr - old(table.Repr)) && fresh(timeoutQueue.Repr - old(timeoutQueue.Repr))
        invariant RunOk(Abstract(), batches[i..])
        invariant EventLoopRuns.Poll(Abstract(), batches[i..]) == EventLoopRuns.Poll(old(Abstract()), batches)
        decreases |batches| - i
      {
        HandleTurn(batches, i);
        i := i + 1;
      }
    }
  }
}
