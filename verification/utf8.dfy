/**
 * UTF-8 encoding of text, which `str::as_bytes` exposes: how a padding
 * string given on the command line becomes the bytes placed between files.
 */
module Utf8 {
  import opened Wrappers
  import opened Bytes

  /** Whether `b` is a continuation byte `10xxxxxx`. */
  predicate IsContinuation(b: byte) {
    0x80 <= b as int < 0xC0
  }

  /** The byte holding the value `n`. */
  function ByteOf(n: int): (b: byte)
    requires 0 <= n < 256
    ensures b as int == n
  {
    n as byte
  }

  /** A continuation byte carrying the six bits `n % 64`. */
  function Trail(n: int): (b: byte)
    requires 0 <= n
    ensures IsContinuation(b) && Low(b) == n % 64
  {
    ByteOf(0x80 + n % 64)
  }

  /** The one to four bytes of `c`'s encoding (section 3 of RFC 3629). */
  function EncodeChar(c: char): (bs: seq<byte>)
    ensures 1 <= |bs| <= 4
    ensures (|bs| == 1) == (c as int < 0x80)
    ensures |bs| == 1 ==> bs[0] as int == c as int
  {
    var n := c as int;
    var q1 := n / 64;
    var q2 := q1 / 64;
    if n < 0x80 then [ByteOf(n)]
    else if n < 0x800 then [ByteOf(0xC0 + q1), Trail(n)]
    else if n < 0x10000 then [ByteOf(0xE0 + q2), Trail(q1), Trail(n)]
    else [ByteOf(0xF0 + q2 / 64), Trail(q2), Trail(q1), Trail(n)]
  }

  /** `as_bytes`: the encodings of the characters, in order. */
  function Encode(s: string): (bs: seq<byte>)
    ensures |s| <= |bs| <= 4 * |s|
  {
    if |s| == 0 then [] else EncodeChar(s[0]) + Encode(s[1..])
  }

  /** The payload bits of a continuation byte. */
  function Low(b: byte): int {
    (b as int) % 64
  }

  /** A code point that a `char` may hold: not a surrogate, at most U+10FFFF. */
  predicate IsScalar(n: int) {
    (0 <= n < 0xD800) || (0xE000 <= n <= 0x10FFFF)
  }

  /** The code point of a two-byte form. */
  function Value2(b0: byte, b1: byte): int {
    (b0 as int - 0xC0) * 64 + Low(b1)
  }

  /** The code point of a three-byte form. */
  function Value3(b0: byte, b1: byte, b2: byte): int {
    ((b0 as int - 0xE0) * 64 + Low(b1)) * 64 + Low(b2)
  }

  /** The code point of a four-byte form. */
  function Value4(b0: byte, b1: byte, b2: byte, b3: byte): int {
    (((b0 as int - 0xF0) * 64 + Low(b1)) * 64 + Low(b2)) * 64 + Low(b3)
  }

  /** A two-byte form: lead `C2`..`DF` (so never overlong) and one continuation. */
  function DecodeTwo(bs: seq<byte>): Option<(char, nat)>
    requires 2 <= |bs|
  {
    if 0xC2 <= bs[0] as int < 0xE0 && IsContinuation(bs[1]) then
      var n := Value2(bs[0], bs[1]);
      assert n < 0x800;
      Some((n as char, 2))
    else None
  }

  /** A three-byte form: lead `E0`..`EF`, no overlong form, no surrogate. */
  function DecodeThree(bs: seq<byte>): Option<(char, nat)>
    requires 3 <= |bs|
  {
    if 0xE0 <= bs[0] as int < 0xF0 && IsContinuation(bs[1]) && IsContinuation(bs[2]) then
      var n := Value3(bs[0], bs[1], bs[2]);
      if 0x800 <= n && IsScalar(n) then Some((n as char, 3)) else None
    else None
  }

  /** A four-byte form: lead `F0`..`F4`, no overlong form, at most U+10FFFF. */
  function DecodeFour(bs: seq<byte>): Option<(char, nat)>
    requires 4 <= |bs|
  {
    if 0xF0 <= bs[0] as int < 0xF5 && IsContinuation(bs[1]) && IsContinuation(bs[2])
       && IsContinuation(bs[3]) then
      var n := Value4(bs[0], bs[1], bs[2], bs[3]);
      if 0x10000 <= n <= 0x10FFFF then Some((n as char, 4)) else None
    else None
  }

  /**
   * Decodes the first character of `bs` and says how many bytes it used;
   * `None` for a bad lead byte, a missing or malformed continuation byte, an
   * overlong form, a surrogate or a value above U+10FFFF.
   */
  function DecodeFirst(bs: seq<byte>): (r: Option<(char, nat)>)
    ensures r.Some? ==> 1 <= r.value.1 <= |bs| && r.value.1 <= 4
  {
    if |bs| == 0 then None
    else if bs[0] as int < 0x80 then Some((bs[0] as int as char, 1))
    else if bs[0] as int < 0xE0 then (if 2 <= |bs| then DecodeTwo(bs) else None)
    else if bs[0] as int < 0xF0 then (if 3 <= |bs| then DecodeThree(bs) else None)
    else if 4 <= |bs| then DecodeFour(bs) else None
  }

  /** Decodes a whole byte sequence; `None` unless it is well-formed UTF-8. */
  function Decode(bs: seq<byte>): Option<string>
    decreases |bs|
  {
    if |bs| == 0 then Some("")
    else match DecodeFirst(bs)
      case None => None
      case Some((c, k)) =>
        match Decode(bs[k..])
        case None => None
        case Some(rest) => Some([c] + rest)
  }

  /** A value below 2^18 is its base-64 digits put back together. */
  lemma Digits(n: nat)
    requires n < 0x40000
    ensures ((n / 64 / 64) * 64 + n / 64 % 64) * 64 + n % 64 == n
  {
    var q1 := n / 64;
    assert n == q1 * 64 + n % 64;
    assert q1 == q1 / 64 * 64 + q1 % 64;
  }

  /** The same for values up to U+10FFFF, with one more digit. */
  lemma Digits4(n: nat)
    requires n <= 0x10FFFF
    ensures (((n / 64 / 64 / 64) * 64 + n / 64 / 64 % 64) * 64 + n / 64 % 64) * 64 + n % 64 == n
    ensures n / 64 / 64 / 64 < 5
  {
    var q1 := n / 64;
    var q2 := q1 / 64;
    assert n == q1 * 64 + n % 64;
    assert q1 == q2 * 64 + q1 % 64;
    assert q2 == q2 / 64 * 64 + q2 % 64;
  }

  lemma TwoBytes(c: char, rest: seq<byte>)
    requires 0x80 <= c as int < 0x800
    ensures DecodeFirst(EncodeChar(c) + rest) == Some((c, 2))
  {
    var n := c as int;
    var bs := EncodeChar(c) + rest;
    assert bs[0] as int == 0xC0 + n / 64 && Low(bs[1]) == n % 64;
    assert Value2(bs[0], bs[1]) == n;
  }

  lemma ThreeBytes(c: char, rest: seq<byte>)
    requires 0x800 <= c as int < 0x10000
    ensures DecodeFirst(EncodeChar(c) + rest) == Some((c, 3))
  {
    var n := c as int;
    var bs := EncodeChar(c) + rest;
    Digits(n);
    assert bs[0] as int == 0xE0 + n / 64 / 64;
    assert Low(bs[1]) == n / 64 % 64 && Low(bs[2]) == n % 64;
    assert Value3(bs[0], bs[1], bs[2]) == n;
  }

  lemma FourBytes(c: char, rest: seq<byte>)
    requires 0x10000 <= c as int
    ensures DecodeFirst(EncodeChar(c) + rest) == Some((c, 4))
  {
    var n := c as int;
    var bs := EncodeChar(c) + rest;
    Digits4(n);
    assert bs[0] as int == 0xF0 + n / 64 / 64 / 64;
    assert Low(bs[1]) == n / 64 / 64 % 64;
    assert Low(bs[2]) == n / 64 % 64 && Low(bs[3]) == n % 64;
    assert Value4(bs[0], bs[1], bs[2], bs[3]) == n;
  }

  /** The decoder reads back exactly one encoded character, whatever follows. */
  lemma DecodeEncodedChar(c: char, rest: seq<byte>)
    ensures DecodeFirst(EncodeChar(c) + rest) == Some((c, |EncodeChar(c)|))
  {
    var n := c as int;
    if n < 0x80 {
    } else if n < 0x800 {
      TwoBytes(c, rest);
    } else if n < 0x10000 {
      ThreeBytes(c, rest);
    } else {
      FourBytes(c, rest);
    }
  }

  /** Decoding undoes encoding. */
  lemma {:induction false} DecodeEncode(s: string)
    ensures Decode(Encode(s)) == Some(s)
  {
    if |s| > 0 {
      var head := EncodeChar(s[0]);
      var tail := Encode(s[1..]);
      var bs := Encode(s);
      assert bs == head + tail;
      DecodeEncodedChar(s[0], tail);
      assert bs[|head|..] == tail;
      DecodeEncode(s[1..]);
      assert Decode(bs) == Some([s[0]] + s[1..]);
      assert s == [s[0]] + s[1..];
    }
  }

  /** Encoding distributes over concatenation. */
  lemma {:induction false} EncodeAppend(a: string, b: string)
    ensures Encode(a + b) == Encode(a) + Encode(b)
  {
    if |a| == 0 {
      assert a + b == b;
    } else {
      assert (a + b)[1..] == a[1..] + b;
      EncodeAppend(a[1..], b);
    }
  }

  /** Text of ASCII characters encodes one byte per character, unchanged. */
  lemma {:induction false} EncodeAscii(s: string)
    requires forall i :: 0 <= i < |s| ==> s[i] as int < 0x80
    ensures |Encode(s)| == |s|
    ensures forall i :: 0 <= i < |s| ==> Encode(s)[i] as int == s[i] as int
  {
    if |s| > 0 {
      EncodeAscii(s[1..]);
    }
  }
}
