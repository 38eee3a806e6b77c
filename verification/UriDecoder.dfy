/** Percent-decoding of file URIs (`UriDecoder` of runtime/bin/file.cc; section 2.1 of
    RFC 3986). */
module UriDecoder {

  import opened Collections

  type Byte = bv8

  const PERCENT: Byte := 0x25

  /** One character of `HexCharPairToByte`. */
  function HexValue(c: Byte): (v: Option<Byte>)
    ensures v.Some? ==> v.value < 16 && c != 0 && c != PERCENT
  {
    if 0x30 <= c && c <= 0x39 then Some(c - 0x30)
    else
      var d := c | 0x20;
      if 0x61 <= d && d <= 0x66 then Some(d - 0x57) else None
  }

  predicate IsHex(c: Byte) {
    HexValue(c).Some?
  }

  /** The 22 hexadecimal digits of section 2.1 of RFC 3986, and what they stand for. */
  lemma HexDigits(c: Byte)
    ensures HexValue(c) ==
            if 0x30 <= c && c <= 0x39 then Some(c - 0x30)
            else if 0x41 <= c && c <= 0x46 then Some(c - 0x41 + 10)
            else if 0x61 <= c && c <= 0x66 then Some(c - 0x61 + 10)
            else None
  {}

  predicate StartsWithEscape(s: seq<Byte>) {
    |s| >= 3 && s[0] == PERCENT && IsHex(s[1]) && IsHex(s[2])
  }

  function EscapedByte(s: seq<Byte>): Byte
    requires StartsWithEscape(s)
  {
    HexValue(s[1]).value * 16 + HexValue(s[2]).value
  }

  function Decode(s: seq<Byte>): (r: Option<seq<Byte>>) {
    if s == [] then Some([])
    else if s[0] != PERCENT then Prepend(s[0], Decode(s[1..]))
    else if StartsWithEscape(s) then Prepend(EscapedByte(s), Decode(s[3..]))
    else None
  }

  function Prepend(b: Byte, r: Option<seq<Byte>>): Option<seq<Byte>> {
    if r.Some? then Some([b] + r.value) else None
  }

  /** Decoding succeeds exactly when every percent sign, wherever it stands, is followed
      by two hexadecimal digits. */
  lemma {:induction false} DecodeSucceeds(s: seq<Byte>)
    ensures Decode(s).Some? <==>
            forall i :: 0 <= i < |s| && s[i] == PERCENT ==> i + 2 < |s| && IsHex(s[i + 1]) && IsHex(s[i + 2])
  {
    if s != [] {
      var n := if s[0] != PERCENT then 1 else 3;
      if n == 1 || StartsWithEscape(s) {
        var t := s[n..];
        DecodeSucceeds(t);
        assert forall i :: 0 <= i < |t| ==> t[i] == s[i + n];
        assert forall i :: n <= i < |s| ==> s[i] == t[i - n];
      }
    }
  }

  /** `e` is an encoding of `t`: every byte stands for itself, unless it is a percent
      sign, or is written as a percent sign and two hexadecimal digits. */
  ghost predicate Encodes(e: seq<Byte>, t: seq<Byte>)
    decreases |t|
  {
    if t == [] then e == []
    else
      || (e != [] && e[0] == t[0] && e[0] != PERCENT && Encodes(e[1..], t[1..]))
      || (StartsWithEscape(e) && EscapedByte(e) == t[0] && Encodes(e[3..], t[1..]))
  }

  /** Decoding inverts every encoding, and inverts nothing else. */
  lemma {:induction false} DecodeInvertsEncodings(e: seq<Byte>, t: seq<Byte>)
    ensures Encodes(e, t) <==> Decode(e) == Some(t)
    decreases |e|
  {
    if e != [] {
      if e[0] != PERCENT {
        if t != [] {
          DecodeInvertsEncodings(e[1..], t[1..]);
          assert t == [t[0]] + t[1..];
        }
      } else if StartsWithEscape(e) {
        if t != [] {
          DecodeInvertsEncodings(e[3..], t[1..]);
          assert t == [t[0]] + t[1..];
        }
      }
    }
  }

  /** Reading a C string, up to and including its terminator. */
  function At(s: seq<Byte>, i: nat): Byte
    requires i <= |s|
  {
    if i < |s| then s[i] else 0
  }

  /** The escape of a byte in section 2.1 of RFC 3986: high digit first, either case. */
  function Escape(b: Byte, upper: bool): seq<Byte> {
    [PERCENT, HexDigit(b >> 4, upper), HexDigit(b & 0xf, upper)]
  }

  function HexDigit(n: Byte, upper: bool): Byte
    requires n < 16
  {
    if n < 10 then 0x30 + n else if upper then 0x37 + n else 0x57 + n
  }

  lemma DigitRoundTrip(n: Byte, upper: bool)
    requires n < 16
    ensures HexValue(HexDigit(n, upper)) == Some(n)
  {}

  lemma EscapeRoundTrip(b: Byte, upper: bool)
    ensures StartsWithEscape(Escape(b, upper)) && EscapedByte(Escape(b, upper)) == b
  {
    DigitRoundTrip(b >> 4, upper);
    DigitRoundTrip(b & 0xf, upper);
    assert (b >> 4) * 16 + (b & 0xf) == b;
  }

  /** An encoder that leaves the bytes of `plain` as they are and escapes the others. */
  function PercentEncode(t: seq<Byte>, plain: set<Byte>, upper: bool): seq<Byte> {
    if t == [] then []
    else (if t[0] in plain then [t[0]] else Escape(t[0], upper)) + PercentEncode(t[1..], plain, upper)
  }

  /** Every encoder that escapes the percent sign is undone. */
  lemma {:induction false} DecodeUndoesPercentEncode(t: seq<Byte>, plain: set<Byte>, upper: bool)
    requires PERCENT !in plain
    ensures Decode(PercentEncode(t, plain, upper)) == Some(t)
  {
    if t != [] {
      var e := PercentEncode(t, plain, upper);
      var rest := PercentEncode(t[1..], plain, upper);
      DecodeUndoesPercentEncode(t[1..], plain, upper);
      EscapeRoundTrip(t[0], upper);
      if t[0] in plain {
        assert e[1..] == rest;
      } else {
        assert e[..3] == Escape(t[0], upper) && e[3..] == rest;
        assert e[1] == Escape(t[0], upper)[1] && e[2] == Escape(t[0], upper)[2];
      }
      assert t == [t[0]] + t[1..];
    }
  }

  /** `HexCharPairToByte`: does not look at the second character unless the first is a
      digit, so it never reads past the terminator. */
  method HexCharPairToByte(uri: seq<Byte>, pch: nat) returns (r: Option<Byte>)
    requires pch <= |uri|
    ensures r.Some? <==> pch + 1 < |uri| && IsHex(uri[pch]) && IsHex(uri[pch + 1])
    ensures r.Some? ==> r.value == HexValue(uri[pch]).value * 16 + HexValue(uri[pch + 1]).value
  {
    var byte: Byte := 0;
    for i := 0 to 2
      invariant pch + i <= |uri|
      invariant i > 0 ==> IsHex(uri[pch])
      invariant i > 1 ==> IsHex(uri[pch + 1])
      invariant byte == if i == 0 then 0 else if i == 1 then HexValue(uri[pch]).value
                        else HexValue(uri[pch]).value * 16 + HexValue(uri[pch + 1]).value
    {
      var v := HexValue(At(uri, pch + i));
      if v.None? {
        return None;
      }
      byte := byte * 16 + v.value;
    }
    return Some(byte);
  }

  function Concat(p: seq<Byte>, r: Option<seq<Byte>>): Option<seq<Byte>> {
    if r.Some? then Some(p + r.value) else None
  }

  lemma {:induction false} DecodePlain(p: seq<Byte>, q: seq<Byte>)
    requires PERCENT !in p
    ensures Decode(p + q) == Concat(p, Decode(q))
  {
    var r := Decode(q);
    if p == [] {
      assert p + q == q && (r.Some? ==> p + r.value == r.value);
    } else {
      assert p[0] in p;
      assert (p + q)[1..] == p[1..] + q;
      DecodePlain(p[1..], q);
      assert r.Some? ==> [p[0]] + (p[1..] + r.value) == p + r.value;
    }
  }

  /** What the decoder's pointers mean: `done` is written, `uri[ch..]` is to be read. */
  ghost predicate Decoding(uri: seq<Byte>, done: seq<Byte>, ch: nat) {
    ch <= |uri| && |done| <= ch && Decode(uri) == Concat(done, Decode(uri[ch..]))
  }

  lemma TakePlain(uri: seq<Byte>, done: seq<Byte>, ch: nat)
    requires Decoding(uri, done, ch) && ch < |uri| && uri[ch] != PERCENT
    ensures Decoding(uri, done + [uri[ch]], ch + 1)
  {
    var r := Decode(uri[ch + 1..]);
    assert uri[ch..][1..] == uri[ch + 1..];
    assert r.Some? ==> done + ([uri[ch]] + r.value) == done + [uri[ch]] + r.value;
  }

  lemma TakeEscape(uri: seq<Byte>, done: seq<Byte>, ch: nat)
    requires Decoding(uri, done, ch) && ch + 2 < |uri| && uri[ch] == PERCENT && IsHex(uri[ch + 1]) && IsHex(uri[ch + 2])
    ensures Decoding(uri, done + [HexValue(uri[ch + 1]).value * 16 + HexValue(uri[ch + 2]).value], ch + 3)
  {
    var b := HexValue(uri[ch + 1]).value * 16 + HexValue(uri[ch + 2]).value;
    var r := Decode(uri[ch + 3..]);
    assert uri[ch..][3..] == uri[ch + 3..];
    assert StartsWithEscape(uri[ch..]) && EscapedByte(uri[ch..]) == b;
    assert r.Some? ==> done + ([b] + r.value) == done + [b] + r.value;
  }

  /** What a reader of a C string sees of `t`. */
  function UpToNul(t: seq<Byte>): (r: seq<Byte>)
    ensures 0 !in r && r <= t && (r == t <==> 0 !in t)
  {
    if t == [] || t[0] == 0 then []
    else
      var rest := UpToNul(t[1..]);
      assert [t[0]] + t[1..] == t;
      [t[0]] + rest
  }

  ghost predicate HasNulEscape(s: seq<Byte>) {
    exists i :: 0 <= i && i + 2 < |s| && NulEscapeAt(s, i)
  }

  predicate NulEscapeAt(s: seq<Byte>, i: nat)
    requires i + 2 < |s|
  {
    s[i] == PERCENT && s[i + 1] == 0x30 && s[i + 2] == 0x30
  }

  /** The decoded text contains a NUL exactly when the URI escapes one. */
  lemma {:induction false} NulIsEscaped(s: seq<Byte>)
    requires 0 !in s && Decode(s).Some?
    ensures 0 in Decode(s).value <==> HasNulEscape(s)
  {
    if s != [] {
      var n := if s[0] != PERCENT then 1 else 3;
      var t := s[n..];
      NulIsEscaped(t);
      NulEscapeShifts(s, n);
    }
  }

  /** The first character or escape is a NUL, or one follows. */
  lemma NulEscapeShifts(s: seq<Byte>, n: nat)
    requires s != [] && n == (if s[0] != PERCENT then 1 else 3) && (n == 3 ==> StartsWithEscape(s))
    ensures HasNulEscape(s) <==> (n == 3 && EscapedByte(s) == 0) || HasNulEscape(s[n..])
  {
    var t := s[n..];
    if HasNulEscape(s) {
      var i :| 0 <= i && i + 2 < |s| && NulEscapeAt(s, i);
      assert i >= n ==> t[i - n] == s[i] && NulEscapeAt(t, i - n);
    }
    if HasNulEscape(t) {
      var i :| 0 <= i && i + 2 < |t| && NulEscapeAt(t, i);
      assert s[i + n] == t[i] && NulEscapeAt(s, i + n);
    }
    if n == 3 && EscapedByte(s) == 0 {
      assert s[0] == PERCENT && NulEscapeAt(s, 0);
    }
  }

  /** The constructor of `UriDecoder`; None stands for the null result. The bound it
      checks is that of the first percent sign only; further on, the terminator stops
      `HexCharPairToByte`. */
  method UriDecode(uri: seq<Byte>) returns (r: Option<seq<Byte>>)
    requires 0 !in uri
    ensures r == Decode(uri)
    ensures r.Some? ==> (UpToNul(r.value) == r.value <==> !HasNulEscape(uri))
  {
    if Decode(uri).Some? {
      NulIsEscaped(uri);
    }
    var ch: nat := 0;
    while At(uri, ch) != 0 && uri[ch] != PERCENT
      invariant ch <= |uri| && PERCENT !in uri[..ch]
      decreases |uri| - ch
    {
      assert uri[..ch + 1] == uri[..ch] + [uri[ch]];
      ch := ch + 1;
    }
    AtEnd(uri, ch);
    DecodePlain(uri[..ch], uri[ch..]);
    assert uri[..ch] + uri[ch..] == uri;
    if At(uri, ch) == 0 {
      assert uri[ch..] == [] && uri[..ch] + [] == uri;
      return Some(uri);
    }
    var len := |uri|;
    // The decoded string is never longer than the original.
    var dest := new Byte[len + 1];
    var i := ch;
    for j := 0 to i
      invariant dest[..j] == uri[..j]
    {
      dest[j] := uri[j];
    }
    var d;
    d := DecodeRest(uri, dest, ch);
    if d == -1 {
      return None;
    }
    dest[d] := 0;
    return Some(dest[..d]);
  }

  /** The main loop, from the first percent sign at `i`; -1 if an escape is malformed. */
  method DecodeRest(uri: seq<Byte>, dest: array<Byte>, i: nat) returns (d: int)
    requires 0 !in uri && dest.Length == |uri| + 1 && i < |uri| && uri[i] == PERCENT
    requires Decoding(uri, dest[..i], i)
    modifies dest
    ensures -1 <= d <= |uri|
    ensures Decode(uri) == if d == -1 then None else Some(dest[..d])
  {
    var ch: nat := i;
    d := i;
    while At(uri, ch) != 0
      invariant i <= ch && 0 <= d <= |uri| && Decoding(uri, dest[..d], ch)
      invariant ch > i ==> i + 3 <= |uri|
      decreases |uri| - ch
    {
      if uri[ch] != PERCENT {
        TakePlain(uri, dest[..d], ch);
        dest[d] := uri[ch];
        d, ch := d + 1, ch + 1;
      } else {
        if i + 3 > |uri| {
          return -1;
        }
        var b := HexCharPairToByte(uri, ch + 1);
        if b.None? {
          return -1;
        }
        TakeEscape(uri, dest[..d], ch);
        dest[d] := b.value;
        d, ch := d + 1, ch + 3;
      }
      assert dest[..d] == dest[..d - 1] + [dest[d - 1]];
    }
    AtEnd(uri, ch);
    assert uri[ch..] == [] && dest[..d] + [] == dest[..d];
  }

  lemma AtEnd(s: seq<Byte>, i: nat)
    requires 0 !in s && i <= |s|
    ensures At(s, i) == 0 <==> i == |s|
  {
    assert i < |s| ==> s[i] in s;
  }
}
