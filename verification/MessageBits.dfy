/** How a socket message packs a command, event bits or a token count and type flags
    into one word (the enum and macros at the top of runtime/bin/eventhandler.h). */
module MessageBits {

  import opened Descriptor

  type Word = bv64

  const CLOSE_COMMAND: Word := 1 << 8
  const SHUTDOWN_READ_COMMAND: Word := 1 << 9
  const SHUTDOWN_WRITE_COMMAND: Word := 1 << 10
  const RETURN_TOKEN_COMMAND: Word := 1 << 11
  const SET_EVENT_MASK_COMMAND: Word := 1 << 12
  const LISTENING_SOCKET: Word := 1 << 16

  const COMMAND_MASK: Word :=
    CLOSE_COMMAND | SHUTDOWN_READ_COMMAND | SHUTDOWN_WRITE_COMMAND | RETURN_TOKEN_COMMAND | SET_EVENT_MASK_COMMAND
  const TOKEN_MASK: Word := CLOSE_COMMAND - 1

  datatype Command =
    | Shut                                // kCloseCommand
    | ShutdownRead
    | ShutdownWrite
    | ReturnToken(count: Word)
    | SetEventMask(events: set<Event>)
    | Unreachable

  function EventBit(e: Event): Word {
    match e
    case In => 1
    case Out => 2
    case Error => 4
    case Close => 8
    case Destroyed => 16
  }

  function IfSet(data: Word, e: Event): set<Event> {
    if data & EventBit(e) != 0 then {e} else {}
  }

  /** The events whose bits are set. */
  function EventsOf(data: Word): (s: set<Event>)
    ensures forall e :: e in s <==> data & EventBit(e) != 0
  {
    IfSet(data, In) + IfSet(data, Out) + IfSet(data, Error) + IfSet(data, Close) + IfSet(data, Destroyed)
  }

  function Decode(data: Word): (c: Command) {
    var c := data & COMMAND_MASK;
    if c == SHUTDOWN_READ_COMMAND then ShutdownRead
    else if c == SHUTDOWN_WRITE_COMMAND then ShutdownWrite
    else if c == CLOSE_COMMAND then Shut
    else if c == RETURN_TOKEN_COMMAND then ReturnToken(data & TOKEN_MASK)
    else if c == SET_EVENT_MASK_COMMAND then SetEventMask(EventsOf(data))
    else Unreachable
  }

  predicate IsListening(data: Word) {
    data & LISTENING_SOCKET != 0
  }

  function BitsIf(b: bool, w: Word): Word {
    if b then w else 0
  }

  /** The word the Dart side sends for a command (runtime/bin/socket_patch.dart), with its
      own numbers; token counts fit below the commands. */
  function Encode(c: Command, listening: bool): Word {
    BitsIf(listening, 0x10000) |
    match c
    case Shut => 0x100
    case ShutdownRead => 0x200
    case ShutdownWrite => 0x400
    case ReturnToken(n) => 0x800 | n
    case SetEventMask(s) =>
      0x1000 | BitsIf(In in s, 1) | BitsIf(Out in s, 2) | BitsIf(Error in s, 4) |
      BitsIf(Close in s, 8) | BitsIf(Destroyed in s, 16)
    case Unreachable => 0
  }

  lemma MaskRoundTrip(s: set<Event>, listening: bool)
    ensures Decode(Encode(SetEventMask(s), listening)) == SetEventMask(s)
  {
    var w := Encode(SetEventMask(s), listening);
    assert w & COMMAND_MASK == SET_EVENT_MASK_COMMAND;
    assert (w & 1 != 0) == (In in s);
    assert (w & 2 != 0) == (Out in s);
    assert (w & 4 != 0) == (Error in s);
    assert (w & 8 != 0) == (Close in s);
    assert (w & 16 != 0) == (Destroyed in s);
    assert EventsOf(w) == s;
  }

  lemma TokenRoundTrip(n: Word, listening: bool)
    requires n <= TOKEN_MASK
    ensures Decode(Encode(ReturnToken(n), listening)) == ReturnToken(n)
  {
    var w := Encode(ReturnToken(n), listening);
    assert w & COMMAND_MASK == RETURN_TOKEN_COMMAND;
    assert w & TOKEN_MASK == n;
  }

  /** Nothing a sender packs into the word disturbs another part of it. */
  lemma DecodeEncode(c: Command, listening: bool)
    requires c.ReturnToken? ==> c.count <= TOKEN_MASK
    ensures Decode(Encode(c, listening)) == c
    ensures IsListening(Encode(c, listening)) == listening
  {
    match c
    case SetEventMask(s) => MaskRoundTrip(s, listening);
    case ReturnToken(n) => TokenRoundTrip(n, listening);
    case _ =>
  }
}
