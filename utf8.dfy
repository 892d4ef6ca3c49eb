/**
 * UTF-8 as the `buffer` package (the `Buffer` the peripheral imports) uses
 * it: `Buffer.from(str)` encodes a string's code points, and
 * `buf.toString('utf8')` decodes bytes, replacing a byte that does not start
 * a well-formed sequence by U+FFFD and moving on by that one byte.
 * Strings are Dafny strings, i.e. sequences of Unicode scalar values.
 */
module Utf8 {
  newtype byte = x: int | 0 <= x < 256

  const Replacement: char := '�'

  predicate IsCont(b: byte) {
    0x80 <= b <= 0xBF
  }

  /** Length of the sequence a lead byte announces; 0 if it can start none. */
  function SeqLen(b0: byte): (n: nat)
    ensures n <= 4
  {
    if b0 < 0x80 then 1
    else if 0xC2 <= b0 <= 0xDF then 2
    else if 0xE0 <= b0 <= 0xEF then 3
    else if 0xF0 <= b0 <= 0xF4 then 4
    else 0
  }

  /** Allowed second byte after a multi-byte lead (Unicode Table 3-7). */
  predicate SecondOk(b0: byte, b1: byte) {
    if b0 == 0xE0 then 0xA0 <= b1 <= 0xBF
    else if b0 == 0xED then 0x80 <= b1 <= 0x9F
    else if b0 == 0xF0 then 0x90 <= b1 <= 0xBF
    else if b0 == 0xF4 then 0x80 <= b1 <= 0x8F
    else IsCont(b1)
  }

  /** `s` starts with a complete well-formed sequence (Unicode Table 3-7). */
  predicate StepComplete(s: seq<byte>)
    requires |s| > 0
  {
    var n := SeqLen(s[0]);
    0 < n <= |s|
    && (n >= 2 ==> SecondOk(s[0], s[1]))
    && (n >= 3 ==> IsCont(s[2]))
    && (n >= 4 ==> IsCont(s[3]))
  }

  /** Number of leading bytes of `s` the decoder consumes in one step: one unless a well-formed sequence starts there. */
  function StepLen(s: seq<byte>): (k: nat)
    requires |s| > 0
    ensures 1 <= k <= |s| && k <= 4
    ensures StepComplete(s) ==> k == SeqLen(s[0])
    ensures !StepComplete(s) ==> k == 1
  {
    if StepComplete(s) then SeqLen(s[0]) else 1
  }

  /**
   * The length `utf8Slice` in the `buffer` package expects from a lead byte:
   * four above 0xEF, three above 0xDF, two above 0xBF, one otherwise.
   */
  function SliceLen(b0: byte): nat {
    if b0 > 0xEF then 4 else if b0 > 0xDF then 3 else if b0 > 0xBF then 2 else 1
  }

  /**
   * The test `utf8Slice` applies: enough bytes, continuation bytes where
   * expected (`(b & 0xC0) === 0x80`), and the masked code point in range
   * (not overlong, not a surrogate, at most U+10FFFF).
   */
  predicate SliceAccepts(s: seq<byte>)
    requires |s| > 0
  {
    var n := SliceLen(s[0]);
    n <= |s| &&
    if n == 1 then s[0] < 0x80
    else if n == 2 then
      IsCont(s[1]) && (s[0] as int % 32) * 64 + (s[1] as int % 64) > 0x7F
    else if n == 3 then
      IsCont(s[1]) && IsCont(s[2]) &&
      var cp := (s[0] as int % 16) * 4096 + (s[1] as int % 64) * 64 + (s[2] as int % 64);
      cp > 0x7FF && (cp < 0xD800 || cp > 0xDFFF)
    else
      IsCont(s[1]) && IsCont(s[2]) && IsCont(s[3]) &&
      var cp := (s[0] as int % 16) * 262144 + (s[1] as int % 64) * 4096
                + (s[2] as int % 64) * 64 + (s[3] as int % 64);
      cp > 0xFFFF && cp < 0x110000
  }

  /** The package's range tests accept exactly the well-formed sequences, and consume as many bytes. */
  lemma SliceAgrees(s: seq<byte>)
    requires |s| > 0
    ensures SliceAccepts(s) <==> StepComplete(s)
    ensures SliceAccepts(s) ==> SliceLen(s[0]) == StepLen(s)
  {
  }

  /** The character one decoding step yields. */
  function StepChar(s: seq<byte>): (c: char)
    requires |s| > 0
    ensures !StepComplete(s) ==> c == Replacement
  {
    var k := StepLen(s);
    if !StepComplete(s) then Replacement
    else if k == 1 then s[0] as char
    else if k == 2 then ((s[0] as int - 0xC0) * 64 + (s[1] as int - 0x80)) as char
    else if k == 3 then
      ((s[0] as int - 0xE0) * 4096 + (s[1] as int - 0x80) * 64 + (s[2] as int - 0x80)) as char
    else
      ((s[0] as int - 0xF0) * 262144 + (s[1] as int - 0x80) * 4096
       + (s[2] as int - 0x80) * 64 + (s[3] as int - 0x80)) as char
  }

  /** `buf.toString('utf8')`. */
  function Decode(s: seq<byte>): (t: string)
    ensures |t| <= |s|
    decreases |s|
  {
    if s == [] then [] else [StepChar(s)] + Decode(s[StepLen(s)..])
  }

  /** A truncated three-byte sequence gives one U+FFFD per byte before the next character. */
  lemma TruncatedSequence()
    ensures Decode([0xE2, 0x82, 0x41]) == [Replacement, Replacement, 'A']
  {
    var s: seq<byte> := [0xE2, 0x82, 0x41];
    assert !StepComplete(s) && !StepComplete(s[1..]) && StepComplete(s[2..]);
  }

  /** Well-formed UTF-8: every decoding step consumes a complete sequence. */
  predicate Valid(s: seq<byte>)
    decreases |s|
  {
    s == [] || (StepComplete(s) && Valid(s[StepLen(s)..]))
  }

  /** The UTF-8 bytes of one scalar value. */
  function EncodeChar(c: char): (b: seq<byte>)
    ensures 1 <= |b| <= 4
  {
    var cp := c as int;
    if cp < 0x80 then [cp as byte]
    else if cp < 0x800 then [(0xC0 + cp / 64) as byte, (0x80 + cp % 64) as byte]
    else if cp < 0x10000 then
      [(0xE0 + cp / 4096) as byte, (0x80 + (cp / 64) % 64) as byte, (0x80 + cp % 64) as byte]
    else
      [(0xF0 + cp / 262144) as byte, (0x80 + (cp / 4096) % 64) as byte,
       (0x80 + (cp / 64) % 64) as byte, (0x80 + cp % 64) as byte]
  }

  /** `Buffer.from(str)`. */
  function Encode(t: string): (s: seq<byte>)
    ensures |t| <= |s|
  {
    if t == [] then [] else EncodeChar(t[0]) + Encode(t[1..])
  }

  lemma DivMod64(q: int, r: int)
    requires 0 <= r < 64
    ensures (q * 64 + r) / 64 == q && (q * 64 + r) % 64 == r
  {
  }

  lemma DivMod4096(q: int, r: int)
    requires 0 <= r < 4096
    ensures (q * 4096 + r) / 4096 == q
  {
  }

  lemma DivMod262144(q: int, r: int)
    requires 0 <= r < 262144
    ensures (q * 262144 + r) / 262144 == q
  {
  }

  /** One complete step re-encodes to exactly the bytes it consumed. */
  lemma StepRoundTrip(s: seq<byte>)
    requires |s| > 0 && StepComplete(s)
    ensures EncodeChar(StepChar(s)) == s[..StepLen(s)]
  {
    var k := StepLen(s);
    if k == 2 {
      StepRoundTrip2(s);
    } else if k == 3 {
      StepRoundTrip3(s);
    } else if k == 4 {
      StepRoundTrip4(s);
    }
  }

  lemma StepRoundTrip2(s: seq<byte>)
    requires |s| > 0 && StepComplete(s) && StepLen(s) == 2
    ensures EncodeChar(StepChar(s)) == s[..2]
  {
    var a, b := s[0] as int - 0xC0, s[1] as int - 0x80;
    DivMod64(a, b);
  }

  lemma StepRoundTrip3(s: seq<byte>)
    requires |s| > 0 && StepComplete(s) && StepLen(s) == 3
    ensures EncodeChar(StepChar(s)) == s[..3]
  {
    var a, b, c := s[0] as int - 0xE0, s[1] as int - 0x80, s[2] as int - 0x80;
    var cp := a * 4096 + b * 64 + c;
    assert StepChar(s) as int == cp;
    DivMod64(a * 64 + b, c);
    DivMod64(a, b);
    assert cp / 4096 == a by { DivMod4096(a, b * 64 + c); }
  }

  lemma StepRoundTrip4(s: seq<byte>)
    requires |s| > 0 && StepComplete(s) && StepLen(s) == 4
    ensures EncodeChar(StepChar(s)) == s[..4]
  {
    var a, b, c, d := s[0] as int - 0xF0, s[1] as int - 0x80, s[2] as int - 0x80, s[3] as int - 0x80;
    var cp := a * 262144 + b * 4096 + c * 64 + d;
    assert StepChar(s) as int == cp;
    DivMod64(a * 4096 + b * 64 + c, d);
    DivMod64(a * 64 + b, c);
    DivMod4096(a * 64 + b, c * 64 + d);
    DivMod64(a, b);
    assert cp / 262144 == a by { DivMod262144(a, b * 4096 + c * 64 + d); }
  }

  lemma EncodeCharStep2(c: char, rest: seq<byte>)
    requires 0x80 <= c as int < 0x800
    ensures var b := EncodeChar(c) + rest;
      StepComplete(b) && StepLen(b) == 2 && StepChar(b) == c
  {
    var cp := c as int;
    var b := EncodeChar(c) + rest;
    var x, y := cp / 64, cp % 64;
    assert b[0] as int == 0xC0 + x && b[1] as int == 0x80 + y;
  }

  lemma EncodeCharStep3(c: char, rest: seq<byte>)
    requires 0x800 <= c as int < 0x10000
    ensures var b := EncodeChar(c) + rest;
      StepComplete(b) && StepLen(b) == 3 && StepChar(b) == c
  {
    var cp := c as int;
    var b := EncodeChar(c) + rest;
    var x, y, z := cp / 4096, (cp / 64) % 64, cp % 64;
    assert cp == x * 4096 + y * 64 + z;
    assert b[0] as int == 0xE0 + x && b[1] as int == 0x80 + y && b[2] as int == 0x80 + z;
  }

  lemma EncodeCharStep4(c: char, rest: seq<byte>)
    requires 0x10000 <= c as int
    ensures var b := EncodeChar(c) + rest;
      StepComplete(b) && StepLen(b) == 4 && StepChar(b) == c
  {
    var cp := c as int;
    var b := EncodeChar(c) + rest;
    var w, x, y, z := Sextets4(cp);
    assert b[0] as int == 0xF0 + w && b[1] as int == 0x80 + x;
    assert b[2] as int == 0x80 + y && b[3] as int == 0x80 + z;
  }

  /** The four 6-bit groups (the first one 3 bits) of a supplementary code point. */
  lemma Sextets4(cp: int) returns (w: int, x: int, y: int, z: int)
    requires 0x10000 <= cp <= 0x10FFFF
    ensures w == cp / 262144 && x == (cp / 4096) % 64 && y == (cp / 64) % 64 && z == cp % 64
    ensures cp == w * 262144 + x * 4096 + y * 64 + z
    ensures 0 <= x < 64 && 0 <= y < 64 && 0 <= z < 64 && 0 <= w <= 4
    ensures w == 0 ==> x >= 16
    ensures w == 4 ==> x < 16
  {
    var q1 := cp / 64;
    var q2 := q1 / 64;
    z, y, x, w := cp % 64, q1 % 64, q2 % 64, q2 / 64;
    assert cp / 4096 == q2 by { DivMod4096(q2, y * 64 + z); }
    assert cp / 262144 == w by { DivMod262144(w, x * 4096 + y * 64 + z); }
  }

  /** Decoding the bytes of one character yields that character and consumes them all. */
  lemma EncodeCharStep(c: char, rest: seq<byte>)
    ensures var b := EncodeChar(c) + rest;
      StepComplete(b) && StepLen(b) == |EncodeChar(c)| && StepChar(b) == c
  {
    var cp := c as int;
    if cp < 0x80 {
    } else if cp < 0x800 {
      EncodeCharStep2(c, rest);
    } else if cp < 0x10000 {
      EncodeCharStep3(c, rest);
    } else {
      EncodeCharStep4(c, rest);
    }
  }

  /** Re-encoding what was decoded gives the bytes back exactly when they are well-formed. */
  lemma {:induction false} EncodeDecode(s: seq<byte>)
    requires Valid(s)
    ensures Encode(Decode(s)) == s
    decreases |s|
  {
    if s != [] {
      var k := StepLen(s);
      CompleteStep(s);
      EncodeDecode(s[k..]);
      SplitJoin(s, k);
    }
  }

  lemma SplitJoin(s: seq<byte>, k: nat)
    requires k <= |s|
    ensures s[..k] + s[k..] == s
  {
  }

  /** A complete first step re-encodes to the bytes it consumed. */
  lemma CompleteStep(s: seq<byte>)
    requires s != [] && StepComplete(s)
    ensures Encode(Decode(s)) == s[..StepLen(s)] + Encode(Decode(s[StepLen(s)..]))
  {
    EncodeDecodeStep(s);
    StepRoundTrip(s);
  }

  /** Re-encoding a decoded text, one step at a time. */
  lemma EncodeDecodeStep(s: seq<byte>)
    requires s != []
    ensures Encode(Decode(s)) == EncodeChar(StepChar(s)) + Encode(Decode(s[StepLen(s)..]))
  {
    var t := Decode(s);
    assert t == [StepChar(s)] + Decode(s[StepLen(s)..]);
    assert t[0] == StepChar(s) && t[1..] == Decode(s[StepLen(s)..]);
  }

  /** Decoding the encoding of any string gives the string back. */
  lemma {:induction false} DecodeEncode(t: string)
    ensures Decode(Encode(t)) == t && Valid(Encode(t))
  {
    if t != [] {
      var b := Encode(t);
      EncodeCharStep(t[0], Encode(t[1..]));
      assert b[|EncodeChar(t[0])|..] == Encode(t[1..]);
      DecodeEncode(t[1..]);
      assert t == [t[0]] + t[1..];
    }
  }

  /** The converse: bytes that survive a decode/encode round trip are well-formed. */
  lemma {:induction false} RoundTripOnlyIfValid(s: seq<byte>)
    requires Encode(Decode(s)) == s
    ensures Valid(s)
    decreases |s|
  {
    if s != [] {
      var k := StepLen(s);
      EncodeDecodeStep(s);
      if StepComplete(s) {
        CompleteStep(s);
        SplitJoin(s, k);
        assert Encode(Decode(s[k..])) == s[k..];
        RoundTripOnlyIfValid(s[k..]);
      } else {
        assert false;
      }
    }
  }

  lemma RoundTripIffValid(s: seq<byte>)
    ensures Encode(Decode(s)) == s <==> Valid(s)
  {
    if Valid(s) { EncodeDecode(s); }
    if Encode(Decode(s)) == s { RoundTripOnlyIfValid(s); }
  }
}
