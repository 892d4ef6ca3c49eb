/**
 * Base64 as the `buffer` package's `Buffer` uses it. `Encode` is the padded encoding
 * of section 4 of RFC 4648. `Decode` is `Buffer.from(s, 'base64')`, which is
 * lenient: it stops at the first '=', skips characters outside the alphabet,
 * also accepts the URL-safe '-' and '_', and decodes a trailing partial group
 * of 2 or 3 characters to 1 or 2 bytes (a single leftover character is dropped).
 */
module Base64 {
  import opened Wrappers
  import opened Utf8

  /** The character for a 6-bit value (Table 1 of RFC 4648). */
  function Alphabet(k: int): (c: char)
    requires 0 <= k < 64
    ensures c != '='
  {
    if k < 26 then ('A' as int + k) as char
    else if k < 52 then ('a' as int + (k - 26)) as char
    else if k < 62 then ('0' as int + (k - 52)) as char
    else if k == 62 then '+'
    else '/'
  }

  /** The 6-bit value of a character, if the decoder accepts it. */
  function SextetOf(c: char): (r: Option<int>)
    ensures r.Some? ==> 0 <= r.value < 64
  {
    if 'A' <= c <= 'Z' then Some(c as int - 'A' as int)
    else if 'a' <= c <= 'z' then Some(c as int - 'a' as int + 26)
    else if '0' <= c <= '9' then Some(c as int - '0' as int + 52)
    else if c == '+' || c == '-' then Some(62)
    else if c == '/' || c == '_' then Some(63)
    else None
  }

  lemma SextetOfAlphabet(k: int)
    requires 0 <= k < 64
    ensures SextetOf(Alphabet(k)) == Some(k)
  {
  }

  /** The characters for a sequence of 6-bit values. */
  function Chars(x: seq<int>): (s: string)
    requires forall i | 0 <= i < |x| :: 0 <= x[i] < 64
    ensures |s| == |x| && '=' !in s
  {
    if x == [] then "" else [Alphabet(x[0])] + Chars(x[1..])
  }

  /** The 6-bit values one group of at most three bytes is written as. */
  function GroupSextets(b: seq<byte>): (x: seq<int>)
    requires 1 <= |b| <= 3
    ensures |x| == |b| + 1
    ensures forall i | 0 <= i < |x| :: 0 <= x[i] < 64
  {
    if |b| == 1 then [b[0] as int / 4, b[0] as int % 4 * 16]
    else if |b| == 2 then [b[0] as int / 4, b[0] as int % 4 * 16 + b[1] as int / 16, b[1] as int % 16 * 4]
    else [b[0] as int / 4, b[0] as int % 4 * 16 + b[1] as int / 16,
          b[1] as int % 16 * 4 + b[2] as int / 64, b[2] as int % 64]
  }

  /** The padded encoding (RFC 4648 section 4). */
  function Encode(b: seq<byte>): (s: string)
    ensures |s| == 4 * ((|b| + 2) / 3)
  {
    if |b| == 0 then ""
    else if |b| == 1 then Chars(GroupSextets(b)) + "=="
    else if |b| == 2 then Chars(GroupSextets(b)) + "="
    else Chars(GroupSextets(b[..3])) + Encode(b[3..])
  }

  /** The 6-bit values the decoder reads: accepted characters before the first '='. */
  function Sextets(s: string): (r: seq<int>)
    ensures forall i | 0 <= i < |r| :: 0 <= r[i] < 64
    ensures |r| <= |s|
  {
    if s == [] || s[0] == '=' then []
    else match SextetOf(s[0])
      case Some(v) => [v] + Sextets(s[1..])
      case None => Sextets(s[1..])
  }

  /** Packs 6-bit values into bytes, four values to three bytes. */
  function Pack(x: seq<int>): seq<byte>
    requires forall i | 0 <= i < |x| :: 0 <= x[i] < 64
  {
    if |x| <= 1 then []
    else if |x| == 2 then [(x[0] * 4 + x[1] / 16) as byte]
    else if |x| == 3 then [(x[0] * 4 + x[1] / 16) as byte, (x[1] % 16 * 16 + x[2] / 4) as byte]
    else [(x[0] * 4 + x[1] / 16) as byte, (x[1] % 16 * 16 + x[2] / 4) as byte,
          (x[2] % 4 * 64 + x[3]) as byte] + Pack(x[4..])
  }

  /** `Buffer.from(s, 'base64')`. */
  function Decode(s: string): seq<byte> {
    Pack(Sextets(s))
  }

  /** Every full group of four characters packs into three bytes, a partial group into fewer. */
  lemma {:induction false} PackLength(x: seq<int>)
    requires forall i | 0 <= i < |x| :: 0 <= x[i] < 64
    ensures 4 * |Pack(x)| <= 3 * |x|
  {
    if |x| > 3 {
      PackLength(x[4..]);
    }
  }

  /** Decoding yields at most three bytes per four characters. */
  lemma DecodeLength(s: string)
    ensures 4 * |Decode(s)| <= 3 * |s|
  {
    PackLength(Sextets(s));
  }

  lemma SextetsCons(k: int, t: string)
    requires 0 <= k < 64
    ensures Sextets([Alphabet(k)] + t) == [k] + Sextets(t)
  {
    SextetOfAlphabet(k);
    assert ([Alphabet(k)] + t)[1..] == t;
  }

  lemma {:induction false} SextetsOfChars(x: seq<int>, rest: string)
    requires forall i | 0 <= i < |x| :: 0 <= x[i] < 64
    ensures Sextets(Chars(x) + rest) == x + Sextets(rest)
  {
    if x != [] {
      var c, d := Alphabet(x[0]), Chars(x[1..]);
      calc {
        Sextets(Chars(x) + rest);
        { assert Chars(x) == [c] + d; ConsTail(c, d, rest); }
        Sextets([c] + (d + rest));
        { SextetsCons(x[0], d + rest); }
        [x[0]] + Sextets(d + rest);
        { SextetsOfChars(x[1..], rest); }
        [x[0]] + (x[1..] + Sextets(rest));
        { ConsTail(x[0], x[1..], Sextets(rest)); SplitJoin(x, 1); }
        x + Sextets(rest);
      }
    } else {
      assert Chars(x) + rest == rest;
    }
  }

  lemma PackGroup1(b: seq<byte>)
    requires |b| == 1
    ensures Pack(GroupSextets(b)) == b
  {
    var a := b[0] as int;
    assert (a % 4 * 16) / 16 == a % 4;
  }

  lemma PackGroup2(b: seq<byte>)
    requires |b| == 2
    ensures Pack(GroupSextets(b)) == b
  {
    var a, c := b[0] as int, b[1] as int;
    assert (a % 4 * 16 + c / 16) / 16 == a % 4;
    assert (a % 4 * 16 + c / 16) % 16 == c / 16;
    assert (c % 16 * 4) / 4 == c % 16;
  }

  lemma ThreeBytes(a: int, c: int, d: int)
    requires 0 <= a < 256 && 0 <= c < 256 && 0 <= d < 256
    ensures a / 4 * 4 + (a % 4 * 16 + c / 16) / 16 == a
    ensures (a % 4 * 16 + c / 16) % 16 * 16 + (c % 16 * 4 + d / 64) / 4 == c
    ensures (c % 16 * 4 + d / 64) % 4 * 64 + d % 64 == d
  {
    assert (a % 4 * 16 + c / 16) / 16 == a % 4;
    assert (a % 4 * 16 + c / 16) % 16 == c / 16;
    assert (c % 16 * 4 + d / 64) / 4 == c % 16;
    assert (c % 16 * 4 + d / 64) % 4 == d / 64;
  }

  lemma PackGroup3(b: seq<byte>)
    requires |b| == 3
    ensures Pack(GroupSextets(b)) == b
  {
    var a, c, d := b[0] as int, b[1] as int, b[2] as int;
    var g := GroupSextets(b);
    assert g == [a / 4, a % 4 * 16 + c / 16, c % 16 * 4 + d / 64, d % 64];
    ThreeBytes(a, c, d);
    var p := Pack(g);
    assert p == [(g[0] * 4 + g[1] / 16) as byte, (g[1] % 16 * 16 + g[2] / 4) as byte, (g[2] % 4 * 64 + g[3]) as byte] + Pack(g[4..]);
    assert p[0] == b[0];
    assert p[1] == b[1];
    assert p[2] == b[2];
  }

  /** Packing works group by group. */
  lemma PackHead(g: seq<int>, more: seq<int>)
    requires |g| == 4
    requires forall i | 0 <= i < |g| :: 0 <= g[i] < 64
    requires forall i | 0 <= i < |more| :: 0 <= more[i] < 64
    ensures forall i | 0 <= i < |g + more| :: 0 <= (g + more)[i] < 64
    ensures Pack(g + more) == Pack(g) + Pack(more)
  {
    var x := g + more;
    assert x[4..] == more;
    assert g[4..] == [];
  }

  /** Decoding an encoding gives the bytes back (RFC 4648 round trip). */
  lemma {:induction false} DecodeEncode(b: seq<byte>)
    ensures Decode(Encode(b)) == b
    decreases |b|
  {
    if |b| == 1 {
      SextetsOfChars(GroupSextets(b), "==");
      PackGroup1(b);
    } else if |b| == 2 {
      SextetsOfChars(GroupSextets(b), "=");
      PackGroup2(b);
    } else if |b| >= 3 {
      DecodeEncode(b[3..]);
      DecodeEncodeGroup(b);
    }
  }

  /** The first group of three bytes decodes back, in front of whatever the rest decodes to. */
  lemma DecodeEncodeGroup(b: seq<byte>)
    requires |b| >= 3 && Decode(Encode(b[3..])) == b[3..]
    ensures Decode(Encode(b)) == b
  {
    var g, more := GroupSextets(b[..3]), Sextets(Encode(b[3..]));
    assert Encode(b) == Chars(g) + Encode(b[3..]);
    SextetsOfChars(g, Encode(b[3..]));
    PackHead(g, more);
    PackGroup3(b[..3]);
    assert Decode(Encode(b)) == b[..3] + b[3..];
    SplitJoin(b, 3);
  }

  /** Reading past the head of a concatenation. */
  lemma ConsTail<T>(c: T, d: seq<T>, rest: seq<T>)
    ensures ([c] + d + rest)[0] == c
    ensures ([c] + d + rest)[1..] == d + rest
    ensures [c] + d + rest == [c] + (d + rest)
  {
  }

  lemma SplitJoin<T>(s: seq<T>, k: nat)
    requires k <= |s|
    ensures s[..k] + s[k..] == s
  {
  }

  /** A string is canonical when it is the encoding of some bytes. */
  ghost predicate IsEncoding(s: string) {
    exists b :: Encode(b) == s
  }

  /** Re-encoding what was decoded gives the string back exactly for canonical strings. */
  lemma ReencodeIffCanonical(s: string)
    ensures Encode(Decode(s)) == s <==> IsEncoding(s)
  {
    if IsEncoding(s) {
      var b :| Encode(b) == s;
      DecodeEncode(b);
    }
  }
}
