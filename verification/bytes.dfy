/** Raw bytes, the line-feed delimiter, and counting/flattening over byte strings. */
module Bytes {

  /** An octet, as Rust's `u8`. */
  newtype byte = x: int | 0 <= x < 256

  /** The only line delimiter the concatenation engine knows (`b'\n'`). */
  const LF: byte := 0x0A

  /** True iff `s` is non-empty and its last byte is a line feed. */
  predicate EndsWithLf(s: seq<byte>) {
    |s| > 0 && s[|s| - 1] == LF
  }

  /** Number of line feeds in `s`. */
  function NewlineCount(s: seq<byte>): nat {
    if |s| == 0 then 0
    else (if s[0] == LF then 1 else 0) + NewlineCount(s[1..])
  }

  lemma {:induction false} NewlineCountAppend(a: seq<byte>, b: seq<byte>)
    ensures NewlineCount(a + b) == NewlineCount(a) + NewlineCount(b)
  {
    if |a| == 0 {
      assert a + b == b;
    } else {
      assert (a + b)[1..] == a[1..] + b;
      NewlineCountAppend(a[1..], b);
    }
  }

  /** A byte string holds no line feed exactly when it counts none. */
  lemma {:induction false} NewlineCountZero(s: seq<byte>)
    ensures NewlineCount(s) == 0 <==> LF !in s
  {
    if |s| > 0 {
      NewlineCountZero(s[1..]);
      assert s == [s[0]] + s[1..];
    }
  }

  /** Concatenation of a sequence of byte strings, in order. */
  function Flatten(ss: seq<seq<byte>>): seq<byte> {
    if |ss| == 0 then [] else ss[0] + Flatten(ss[1..])
  }

  lemma {:induction false} FlattenAppend(a: seq<seq<byte>>, b: seq<seq<byte>>)
    ensures Flatten(a + b) == Flatten(a) + Flatten(b)
  {
    if |a| == 0 {
      assert a + b == b;
    } else {
      assert (a + b)[1..] == a[1..] + b;
      FlattenAppend(a[1..], b);
    }
  }

  lemma FlattenSingle(s: seq<byte>)
    ensures Flatten([s]) == s
  {
    assert [s][1..] == [];
  }

  /** Flattening ends with the last string. */
  lemma FlattenLast(ss: seq<seq<byte>>)
    requires |ss| > 0
    ensures Flatten(ss) == Flatten(ss[..|ss| - 1]) + ss[|ss| - 1]
  {
    var init, last := ss[..|ss| - 1], ss[|ss| - 1];
    assert ss == init + [last];
    calc {
      Flatten(ss);
      Flatten(init + [last]);
      { FlattenAppend(init, [last]); }
      Flatten(init) + Flatten([last]);
      { FlattenSingle(last); }
      Flatten(init) + last;
    }
  }

  /** `s` ends with `p`. */
  predicate EndsWith(s: seq<byte>, p: seq<byte>) {
    |p| <= |s| && s[|s| - |p|..] == p
  }

  lemma EndsWithAppend(a: seq<byte>, b: seq<byte>, p: seq<byte>)
    requires EndsWith(b, p)
    ensures EndsWith(a + b, p)
  {
    assert (a + b)[|a + b| - |p|..] == b[|b| - |p|..];
  }

  lemma EndsWithTrans(s: seq<byte>, m: seq<byte>, p: seq<byte>)
    requires EndsWith(s, m) && EndsWith(m, p)
    ensures EndsWith(s, p)
  {
    assert s[|s| - |p|..] == m[|m| - |p|..];
  }
}
