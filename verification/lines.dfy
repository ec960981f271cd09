/**
 * Lines as `BufRead::read_until(b'\n', ..)` sees them: a line is every byte up
 * to and including the next line feed, or up to the end of the data when no
 * line feed is left. An unterminated final fragment is therefore a line too.
 */
module Lines {
  import opened Bytes

  /** Length of the first line of `s`, its line feed included. */
  function LineEnd(s: seq<byte>): (k: nat)
    ensures k <= |s|
    ensures forall i :: 0 <= i < k - 1 ==> s[i] != LF
    ensures (0 < k && s[k - 1] == LF) || (k == |s| && LF !in s)
  {
    if |s| == 0 then 0
    else if s[0] == LF then 1
    else 1 + LineEnd(s[1..])
  }

  /** The first line is the only prefix that ends at the first line feed, or at the end when there is none. */
  lemma LineEndUnique(s: seq<byte>, k: nat)
    requires k <= |s|
    requires forall i :: 0 <= i < k - 1 ==> s[i] != LF
    requires (0 < k && s[k - 1] == LF) || (k == |s| && LF !in s)
    ensures k == LineEnd(s)
  {
  }

  /** The first line of `s`: what one `read_until(b'\n', ..)` call yields. */
  function FirstLine(s: seq<byte>): seq<byte> {
    s[..LineEnd(s)]
  }

  /** Number of lines of `s`: one per line feed, plus one for an unterminated tail. */
  function LineCount(s: seq<byte>): nat {
    NewlineCount(s) + (if |s| > 0 && !EndsWithLf(s) then 1 else 0)
  }

  /**
   * Offset reached after `n` successive `read_until(b'\n', ..)` calls from the
   * start of `s`; a call at the end of the data consumes nothing.
   */
  function SkipOffset(s: seq<byte>, n: nat): (k: nat)
    ensures k <= |s|
    ensures k == 0 || k == |s| || s[k - 1] == LF
    decreases n
  {
    if n == 0 then 0
    else
      var j := SkipOffset(s, n - 1);
      j + LineEnd(s[j..])
  }

  /** One more `read_until` call moves past the next line. */
  lemma SkipOffsetNext(s: seq<byte>, n: nat)
    ensures SkipOffset(s, n + 1) == SkipOffset(s, n) + LineEnd(s[SkipOffset(s, n)..])
  {
  }

  /** What is left of `s` once its first `n` lines are skipped. */
  function SkipLines(s: seq<byte>, n: nat): seq<byte> {
    s[SkipOffset(s, n)..]
  }

  lemma FirstLineThenRest(s: seq<byte>)
    ensures FirstLine(s) + SkipLines(s, 1) == s
  {
    assert SkipOffset(s, 1) == LineEnd(s[0..]);
    assert s[0..] == s;
  }

  /** The first line holds exactly one line feed, as its last byte, or none at all. */
  lemma FirstLineShape(s: seq<byte>)
    ensures var h := FirstLine(s);
      h == s[..|h|]
      && (forall i :: 0 <= i < |h| - 1 ==> h[i] != LF)
      && (EndsWithLf(h) || (h == s && LF !in s))
  {
  }

  /** Splitting at a line boundary splits the line count. */
  lemma LineCountSplit(a: seq<byte>, b: seq<byte>)
    requires |a| == 0 || EndsWithLf(a)
    ensures LineCount(a + b) == NewlineCount(a) + LineCount(b)
  {
    NewlineCountAppend(a, b);
    if |b| == 0 {
      assert a + b == a;
    } else {
      assert (a + b)[|a + b| - 1] == b[|b| - 1];
    }
  }

  lemma LineCountZero(t: seq<byte>)
    ensures LineCount(t) == 0 <==> |t| == 0
  {
    if |t| > 0 && EndsWithLf(t) {
      assert LF in t;
      NewlineCountZero(t);
    }
  }

  /** A line holding no line feed but its last byte has exactly one line feed. */
  lemma NewlineCountOfLine(t: seq<byte>)
    requires |t| > 0 && t[|t| - 1] == LF
    requires forall i :: 0 <= i < |t| - 1 ==> t[i] != LF
    ensures NewlineCount(t) == 1
  {
    var init := t[..|t| - 1];
    assert t == init + [LF];
    NewlineCountAppend(init, [LF]);
    assert LF !in init;
    NewlineCountZero(init);
    assert [LF][1..] == [];
  }

  /** One `read_until` call removes exactly one line, or nothing from empty data. */
  lemma DropLineCount(t: seq<byte>)
    ensures LineCount(t[LineEnd(t)..]) == if |t| == 0 then 0 else LineCount(t) - 1
  {
    var e := LineEnd(t);
    if |t| > 0 {
      if t[e - 1] == LF {
        assert t == t[..e] + t[e..];
        NewlineCountOfLine(t[..e]);
        LineCountSplit(t[..e], t[e..]);
      } else {
        assert e == |t| && LF !in t;
        NewlineCountZero(t);
        assert t[e..] == [];
      }
    }
  }

  /** `SkipLines` advances by one `read_until` call per extra line. */
  lemma SkipLinesStep(s: seq<byte>, n: nat)
    requires n > 0
    ensures var t := SkipLines(s, n - 1); SkipLines(s, n) == t[LineEnd(t)..]
  {
  }

  /** Dropping one line from `t` leaves one line fewer. */
  lemma DropLine(t: seq<byte>)
    ensures LineCount(t[LineEnd(t)..]) == if LineCount(t) == 0 then 0 else LineCount(t) - 1
  {
    DropLineCount(t);
    LineCountZero(t);
  }

  /** One more skipped line leaves one line fewer, given the count for one line less. */
  lemma SkipOneMoreLine(s: seq<byte>, n: nat)
    requires n > 0
    requires LineCount(SkipLines(s, n - 1)) == if n - 1 >= LineCount(s) then 0 else LineCount(s) - (n - 1)
    ensures LineCount(SkipLines(s, n)) == if n >= LineCount(s) then 0 else LineCount(s) - n
  {
    var t := SkipLines(s, n - 1);
    SkipLinesStep(s, n);
    DropLine(t);
  }

  /** Skipping `n` lines leaves `n` lines fewer, and none once all are skipped. */
  lemma {:induction false} SkipLinesCountOnly(s: seq<byte>, n: nat)
    ensures LineCount(SkipLines(s, n)) == if n >= LineCount(s) then 0 else LineCount(s) - n
    decreases n
  {
    if n > 0 {
      SkipLinesCountOnly(s, n - 1);
      SkipOneMoreLine(s, n);
    }
  }

  /**
   * Skipping `n` lines leaves exactly `LineCount(s) - n` lines, and nothing
   * once `n` reaches the line count: over-skipping empties the data.
   */
  lemma SkipLinesCount(s: seq<byte>, n: nat)
    ensures LineCount(SkipLines(s, n)) == if n >= LineCount(s) then 0 else LineCount(s) - n
    ensures |SkipLines(s, n)| == 0 <==> n >= LineCount(s)
  {
    SkipLinesCountOnly(s, n);
    LineCountZero(SkipLines(s, n));
  }

  /** The skipped prefix is made of exactly `min(n, LineCount(s))` whole lines. */
  lemma SkippedPrefixLines(s: seq<byte>, n: nat)
    ensures var k := SkipOffset(s, n);
      LineCount(s[..k]) == if n >= LineCount(s) then LineCount(s) else n
  {
    var k := SkipOffset(s, n);
    SkipLinesCount(s, n);
    assert s == s[..k] + s[k..];
    if k == |s| {
      assert s[..k] == s;
    } else if k == 0 {
      assert s[..k] == [];
      assert SkipLines(s, n) == s;
    } else {
      assert EndsWithLf(s[..k]);
      LineCountSplit(s[..k], s[k..]);
    }
  }
}
