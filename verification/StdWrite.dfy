/** Writing to stdout and stderr on Windows (class `StdHandle` of
    runtime/bin/eventhandler_win.cc): the caller hands a buffer to a write thread, is told
    zero, and learns how much was written when it presents the same bytes again. Every
    step runs under the handle's monitor, so a run is a sequence of steps. */
module StdWrite {

  import opened Collections

  type Byte = bv8

  const BUFFER_SIZE := 65536
  const INT_MAX := 0x7fff_ffff

  /** An allocated buffer; `id` is its identity. */
  datatype Buffer = Buffer(id: nat, bytes: seq<Byte>)

  /** `threadWrote` is what the thread has written and the caller has not been told;
      `notified` is a wake-up the thread has not acted on; `completions` are the buffers of
      the packets on the completion port; `disposed` are the buffers freed so far, of
      `made` in all. `device` is what came out. */
  datatype Handle = Handle(
    pending: Option<Buffer>, threadWrote: nat, notified: bool, completions: seq<nat>,
    made: nat, disposed: seq<nat>, device: seq<Byte>)

  const INITIAL := Handle(None, 0, false, [], 0, [], [])

  function Min(a: nat, b: nat): nat {
    if a < b then a else b
  }

  /** `StdHandle::Write`. */
  function AfterWrite(h: Handle, bytes: seq<Byte>): (r: (Handle, nat)) {
    if h.pending.Some? then (h, 0)
    else
      var n := Min(|bytes|, BUFFER_SIZE);
      if h.threadWrote > 0 then
        var n := Min(n, h.threadWrote);
        (h.(threadWrote := h.threadWrote - n), n)
      else
        var buffer := Buffer(h.made, bytes[..Min(n, INT_MAX)]);
        (h.(pending := Some(buffer), made := h.made + 1, notified := true), 0)
  }

  /** One turn of `RunWriteLoop`; the device takes `k` bytes, none if the call fails. */
  function Wake(h: Handle, k: nat): Handle
    requires h.pending.Some? ==> k <= |h.pending.value.bytes|
  {
    var h := h.(notified := false);
    if h.pending.None? then h
    else
      h.(device := h.device + h.pending.value.bytes[..k], threadWrote := h.threadWrote + k,
         completions := h.completions + [h.pending.value.id])
  }

  /** What `Handle::WriteComplete` asserts: the completed buffer is the pending one. */
  predicate CompletesPending(h: Handle) {
    h.completions != [] && h.pending.Some? && h.pending.value.id == h.completions[0]
  }

  /** `Handle::WriteComplete`. */
  function AfterComplete(h: Handle): Handle
    requires h.completions != []
  {
    h.(pending := None, completions := h.completions[1..], disposed := h.disposed + [h.completions[0]])
  }

  /** A handle with its caller, who adds up the answers it gets. */
  datatype Session = Session(handle: Handle, told: nat)

  const START := Session(INITIAL, 0)

  /** Steps of the three threads; the caller always presents what it has not been told
      was written, as much as it likes of it. */
  datatype Action = CallWrite(count: nat) | ThreadWakes(taken: nat) | Completes

  predicate Enabled(source: seq<Byte>, s: Session, a: Action) {
    match a
    case CallWrite(n) => s.told + n <= |source|
    case ThreadWakes(k) => s.handle.notified && (s.handle.pending.Some? ==> k <= |s.handle.pending.value.bytes|)
    case Completes => s.handle.completions != []
  }

  function Act(source: seq<Byte>, s: Session, a: Action): Session
    requires Enabled(source, s, a)
  {
    match a
    case CallWrite(n) =>
      var (h, answer) := AfterWrite(s.handle, source[s.told..s.told + n]);
      Session(h, s.told + answer)
    case ThreadWakes(k) => s.(handle := Wake(s.handle, k))
    case Completes => s.(handle := AfterComplete(s.handle))
  }

  /** A buffer waits for the thread or for its completion, never both, and is freed once:
      the freed ones and the pending one are all that were made. */
  ghost predicate HandedOver(h: Handle) {
    && NoDuplicates(h.disposed) && (forall i :: i in h.disposed ==> i < h.made)
    && match h.pending
       case None => !h.notified && h.completions == [] && |h.disposed| == h.made
       case Some(b) =>
         && b.id < h.made && b.id !in h.disposed && |h.disposed| + 1 == h.made
         && h.completions == if h.notified then [] else [b.id]
  }

  /** The device has exactly the bytes the caller knows about and those it will be told
      about next. */
  ghost predicate Inv(source: seq<Byte>, s: Session) {
    var h, told := s.handle, s.told;
    && HandedOver(h)
    && told + h.threadWrote <= |source| && h.device == source[..told + h.threadWrote]
    && (h.pending.Some? && h.notified ==>
          var b := h.pending.value.bytes;
          h.threadWrote == 0 && told + |b| <= |source| && b == source[told..told + |b|])
  }

  lemma ActInv(source: seq<Byte>, s: Session, a: Action)
    requires Inv(source, s) && Enabled(source, s, a)
    ensures Inv(source, Act(source, s, a))
  {
    match a
    case CallWrite(n) =>
    case ThreadWakes(k) =>
      var t := s.told;
      assert source[..t] + source[t..t + |s.handle.pending.value.bytes|][..k] == source[..t + k];
    case Completes =>
  }

  predicate Legal(source: seq<Byte>, s: Session, run: seq<Action>)
    decreases |run|
  {
    run == [] || (Enabled(source, s, run[0]) && Legal(source, Act(source, s, run[0]), run[1..]))
  }

  function Run(source: seq<Byte>, s: Session, run: seq<Action>): Session
    requires Legal(source, s, run)
    decreases |run|
  {
    if run == [] then s else Run(source, Act(source, s, run[0]), run[1..])
  }

  lemma {:induction false} RunInv(source: seq<Byte>, s: Session, run: seq<Action>)
    requires Inv(source, s) && Legal(source, s, run)
    ensures Inv(source, Run(source, s, run))
    decreases |run|
  {
    if run != [] {
      ActInv(source, s, run[0]);
      RunInv(source, Act(source, s, run[0]), run[1..]);
    }
  }

  /** Every byte is written exactly once and in order, after any interleaving: what came
      out is what the answers to the caller add up to and what it will be told next. A
      completion always finds its own buffer pending, and no buffer is freed twice. */
  lemma WritesExactlyOnce(source: seq<Byte>, run: seq<Action>)
    requires Legal(source, START, run)
    ensures var Session(h, told) := Run(source, START, run);
            && told + h.threadWrote <= |source|
            && h.device == source[..told] + source[told..told + h.threadWrote]
            && (h.completions != [] ==> CompletesPending(h))
            && NoDuplicates(h.disposed) && (forall i :: i in h.disposed ==> i < h.made)
            && h.made == |h.disposed| + if h.pending.Some? then 1 else 0
  {
    RunInv(source, START, run);
    var Session(h, told) := Run(source, START, run);
    assert source[..told + h.threadWrote] == source[..told] + source[told..told + h.threadWrote];
  }

  /** What is presented goes out whole: an idle handle takes up to 64 KB of it, and when
      the device has taken `k` bytes the caller is told `k` at its next call. */
  lemma WriteCycle(h: Handle, bytes: seq<Byte>, k: nat)
    requires HandedOver(h) && h.pending.None? && h.threadWrote == 0 && k <= Min(|bytes|, 65536)
    ensures var (h1, none) := AfterWrite(h, bytes);
            && none == 0 && h1.notified && h1.pending.Some? && h1.pending.value.bytes == bytes[..Min(|bytes|, 65536)]
            && var h2 := Wake(h1, k);
            && h2.device == h.device + bytes[..k] && CompletesPending(h2)
            && var (h3, answer) := AfterWrite(AfterComplete(h2), bytes);
            && answer == k && h3.device == h.device + bytes[..k]
            && (k > 0 ==> h3 == h.(device := h3.device, made := h3.made, disposed := h3.disposed))
  {
    var queued := bytes[..Min(|bytes|, 65536)];
    assert queued[..k] == bytes[..k];
  }

  /** A caller who is owed an answer gets one: all that was written, as far as it asks. */
  lemma WriteAnswers(h: Handle, bytes: seq<Byte>)
    requires h.pending.None? && h.threadWrote > 0
    ensures var (h', n) := AfterWrite(h, bytes);
            && n == Min(Min(|bytes|, 65536), h.threadWrote) && (bytes != [] ==> n > 0)
            && h'.threadWrote + n == h.threadWrote && h' == h.(threadWrote := h'.threadWrote)
  {}

  /** Waking the thread without a notification keeps the invariant if and only if nothing
      is pending; otherwise the buffer is completed twice, and the second completion does
      not find it. */
  lemma SpuriousWake(source: seq<Byte>, s: Session, k: nat)
    requires Inv(source, s) && !s.handle.notified && (s.handle.pending.Some? ==> k <= |s.handle.pending.value.bytes|)
    ensures Inv(source, s.(handle := Wake(s.handle, k))) <==> s.handle.pending.None?
    ensures s.handle.pending.Some? ==>
              var h := AfterComplete(Wake(s.handle, k)); h.completions != [] && !CompletesPending(h)
  {}

  /** One spurious wake-up and a byte comes out twice, and its buffer is freed twice. */
  lemma SpuriousWakeDuplicates()
    ensures var source := [1, 2];
            var run := [CallWrite(1), ThreadWakes(1)];
            && Legal(source, START, run)
            && var h := Wake(Run(source, START, run).handle, 1);
            h.device == [1, 1] && h.completions == [0, 0] && AfterComplete(AfterComplete(h)).disposed == [0, 0]
  {
    var source: seq<Byte> := [1, 2];
    var s1 := Act(source, START, CallWrite(1));
    assert source[0..1][..1] == [1];
    assert s1.handle.pending == Some(Buffer(0, [1]));
    var s2 := Act(source, s1, ThreadWakes(1));
    assert s2.handle.device == [1];
    assert [CallWrite(1), ThreadWakes(1)][1..] == [ThreadWakes(1)];
    assert [ThreadWakes(1)][1..] == [];
  }

  class StdHandle {
    var pendingWrite: Option<Buffer>
    var threadWrote: nat
    var notified: bool          // the monitor
    var completions: seq<nat>   // the completion port
    var made: nat               // the allocator
    ghost var disposed: seq<nat>
    ghost var device: seq<Byte>

    ghost function Abstract(): Handle
      reads this
    {
      Handle(pendingWrite, threadWrote, notified, completions, made, disposed, device)
    }

    ghost predicate Valid()
      reads this
    {
      HandedOver(Abstract())
    }

    constructor ()
      ensures Valid() && Abstract() == INITIAL
    {
      pendingWrite, threadWrote, notified, completions := None, 0, false, [];
      made, disposed, device := 0, [], [];
    }

    method Write(buffer: seq<Byte>) returns (n: nat)
      requires Valid()
      modifies this
      ensures Valid() && (Abstract(), n) == AfterWrite(old(Abstract()), buffer)
      ensures n + threadWrote == old(threadWrote) && n <= |buffer|
    {
      if pendingWrite.Some? {
        return 0;
      }
      var numBytes := |buffer|;
      if numBytes > BUFFER_SIZE {
        numBytes := BUFFER_SIZE;
      }
      if threadWrote > 0 {
        if numBytes > threadWrote {
          numBytes := threadWrote;
        }
        threadWrote := threadWrote - numBytes;
        return numBytes;
      }
      var truncatedBytes := Min(numBytes, INT_MAX);
      pendingWrite := Some(Buffer(made, buffer[..truncatedBytes]));
      made := made + 1;
      notified := true;
      return 0;
    }

    /** The write thread after it was notified; the device takes `k` bytes. */
    method RunWriteTurn(k: nat)
      requires Valid() && notified && (pendingWrite.Some? ==> k <= |pendingWrite.value.bytes|)
      modifies this
      ensures Valid() && Abstract() == Wake(old(Abstract()), k)
    {
      notified := false;
      if pendingWrite.Some? {
        WriteSyncCompleteAsync(k);
      }
    }

    method WriteSyncCompleteAsync(k: nat)
      requires pendingWrite.Some? && k <= |pendingWrite.value.bytes|
      modifies this`device, this`threadWrote, this`completions
      ensures device == old(device) + pendingWrite.value.bytes[..k]
      ensures threadWrote == old(threadWrote) + k && completions == old(completions) + [pendingWrite.value.id]
    {
      device := device + pendingWrite.value.bytes[..k];
      threadWrote := threadWrote + k;
      completions := completions + [pendingWrite.value.id];
    }

    /** The handler of the next packet on the completion port. */
    method WriteComplete()
      requires Valid() && completions != []
      modifies this
      ensures Valid() && Abstract() == AfterComplete(old(Abstract()))
    {
      var buffer := completions[0];
      completions := completions[1..];
      assert pendingWrite.Some? && pendingWrite.value.id == buffer;
      disposed := disposed + [buffer];
      pendingWrite := None;
    }
  }
  /** A caller that presents what its answers do not cover yet, on a handle, through any
      legal run: what the handle has written is what `WritesExactlyOnce` says. */
  method Drive(source: seq<Byte>, run: seq<Action>) returns (handle: StdHandle, told: nat)
    requires Legal(source, START, run)
    ensures handle.Valid() && Session(handle.Abstract(), told) == Run(source, START, run)
  {
    handle := new StdHandle();
    told := 0;
    for i := 0 to |run|
      invariant fresh(handle) && handle.Valid() && Legal(source, Session(handle.Abstract(), told), run[i..])
      invariant Run(source, Session(handle.Abstract(), told), run[i..]) == Run(source, START, run)
    {
      assert run[i..][1..] == run[i + 1..];
      match run[i] {
        case CallWrite(n) =>
          var answer := handle.Write(source[told..told + n]);
          told := told + answer;
        case ThreadWakes(k) => handle.RunWriteTurn(k);
        case Completes => handle.WriteComplete();
      }
    }
  }
}
