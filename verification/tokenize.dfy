/**
 * Splitting text at separator characters and trimming whitespace, as
 * `str::split`, `str::trim` and an "empty piece" filter do it: the rules
 * both command-line programs use to turn standard input into paths.
 */
module Tokenize {

  /** `char::is_whitespace`: the Unicode `White_Space` property. */
  predicate IsWhitespace(c: char) {
    var n := c as int;
    (0x09 <= n <= 0x0D) || n == 0x20 || n == 0x85 || n == 0xA0 || n == 0x1680
    || (0x2000 <= n <= 0x200A) || n == 0x2028 || n == 0x2029 || n == 0x202F
    || n == 0x205F || n == 0x3000
  }

  /** Every character of `s` is whitespace. */
  predicate AllWhitespace(s: string) {
    forall i :: 0 <= i < |s| ==> IsWhitespace(s[i])
  }

  /** `s` holds no separator. */
  predicate NoSeparator(s: string, seps: set<char>) {
    forall i :: 0 <= i < |s| ==> s[i] !in seps
  }

  // ---------------------------------------------------------------------
  // Trimming.
  // ---------------------------------------------------------------------

  /** Where the whitespace run of `s` starting at `i` ends. */
  function SkipWhitespace(s: string, i: nat): (k: nat)
    requires i <= |s|
    ensures i <= k <= |s|
    ensures forall j :: i <= j < k ==> IsWhitespace(s[j])
    ensures k == |s| || !IsWhitespace(s[k])
    decreases |s| - i
  {
    if i == |s| || !IsWhitespace(s[i]) then i else SkipWhitespace(s, i + 1)
  }

  /** Where the whitespace run of `s` ending at `e` starts, not going below `lo`. */
  function BackWhitespace(s: string, lo: nat, e: nat): (f: nat)
    requires lo <= e <= |s|
    ensures lo <= f <= e
    ensures forall j :: f <= j < e ==> IsWhitespace(s[j])
    ensures f == lo || !IsWhitespace(s[f - 1])
    decreases e
  {
    if e == lo || !IsWhitespace(s[e - 1]) then e else BackWhitespace(s, lo, e - 1)
  }

  /** How many leading characters `trim` drops. */
  function TrimOffset(s: string): nat {
    SkipWhitespace(s, 0)
  }

  /**
   * `trim`: the longest middle part of `s` that neither starts nor ends with
   * whitespace.
   */
  function Trim(s: string): (r: string)
    ensures TrimOffset(s) + |r| <= |s| && r == s[TrimOffset(s)..TrimOffset(s) + |r|]
    ensures |r| == 0 || (!IsWhitespace(r[0]) && !IsWhitespace(r[|r| - 1]))
  {
    var k := TrimOffset(s);
    var e := BackWhitespace(s, k, |s|);
    assert k < e ==> s[k..e][0] == s[k] && s[k..e][e - k - 1] == s[e - 1];
    s[k..e]
  }

  /** Text that neither starts nor ends with whitespace is its own trim. */
  lemma TrimKeepsNonBlankEnds(s: string)
    requires |s| > 0 && !IsWhitespace(s[0]) && !IsWhitespace(s[|s| - 1])
    ensures Trim(s) == s
  {
    assert TrimOffset(s) == 0;
    assert BackWhitespace(s, 0, |s|) == |s|;
    assert s[0..|s|] == s;
  }

  /** Everything `trim` cuts off, on either side, is whitespace. */
  lemma TrimCutsWhitespace(s: string)
    ensures forall i :: 0 <= i < TrimOffset(s) ==> IsWhitespace(s[i])
    ensures forall i :: TrimOffset(s) + |Trim(s)| <= i < |s| ==> IsWhitespace(s[i])
  {
    var k := TrimOffset(s);
    assert k + |Trim(s)| == BackWhitespace(s, k, |s|);
  }

  /** Trimming gives nothing exactly for all-whitespace text. */
  lemma TrimEmpty(s: string)
    ensures |Trim(s)| == 0 <==> AllWhitespace(s)
  {
    if |Trim(s)| == 0 {
      TrimCutsWhitespace(s);
      forall i | 0 <= i < |s|
        ensures IsWhitespace(s[i])
      {
        if i >= TrimOffset(s) {
          assert TrimOffset(s) + |Trim(s)| <= i;
        }
      }
    } else {
      var k := TrimOffset(s);
      assert s[k] == Trim(s)[0];
    }
  }

  /** Trimming twice is trimming once. */
  lemma TrimIdempotent(s: string)
    ensures Trim(Trim(s)) == Trim(s)
  {
    var r := Trim(s);
    assert TrimOffset(r) == 0;
    assert BackWhitespace(r, 0, |r|) == |r|;
    assert r[0..|r|] == r;
  }

  // ---------------------------------------------------------------------
  // Splitting.
  // ---------------------------------------------------------------------

  /** The separators of `s`, in order. */
  function Separators(s: string, seps: set<char>): (g: string)
    ensures forall i :: 0 <= i < |g| ==> g[i] in seps
  {
    if |s| == 0 then []
    else if s[0] in seps then [s[0]] + Separators(s[1..], seps)
    else Separators(s[1..], seps)
  }

  /** Puts `pieces` back together with `glue[i]` between piece `i` and piece `i + 1`. */
  function Rejoin(pieces: seq<string>, glue: string): string
    requires |pieces| == |glue| + 1
  {
    if |glue| == 0 then pieces[0]
    else pieces[0] + [glue[0]] + Rejoin(pieces[1..], glue[1..])
  }

  lemma RejoinPrepend(pieces: seq<string>, glue: string, c: char)
    requires |pieces| == |glue| + 1
    ensures Rejoin([[c] + pieces[0]] + pieces[1..], glue) == [c] + Rejoin(pieces, glue)
  {
    var q := [[c] + pieces[0]] + pieces[1..];
    if |glue| > 0 {
      assert q[1..] == pieces[1..];
    }
  }

  /**
   * `s.split(seps)`: the pieces between separators, in order, empty ones
   * included; there is always at least one piece, and none holds a separator.
   */
  function SplitOn(s: string, seps: set<char>): (pieces: seq<string>)
    ensures |pieces| >= 1
    ensures forall i :: 0 <= i < |pieces| ==> NoSeparator(pieces[i], seps)
  {
    if |s| == 0 then [""]
    else if s[0] in seps then [""] + SplitOn(s[1..], seps)
    else
      var rest := SplitOn(s[1..], seps);
      [[s[0]] + rest[0]] + rest[1..]
  }

  /**
   * The pieces put back together with the separators between them give the
   * text back, so nothing is lost: one piece more than there are separators.
   */
  lemma {:induction false} SplitRejoin(s: string, seps: set<char>)
    ensures |SplitOn(s, seps)| == |Separators(s, seps)| + 1
    ensures Rejoin(SplitOn(s, seps), Separators(s, seps)) == s
  {
    if |s| > 0 {
      var rest, glue := SplitOn(s[1..], seps), Separators(s[1..], seps);
      SplitRejoin(s[1..], seps);
      assert s == [s[0]] + s[1..];
      if s[0] in seps {
        assert ([""] + rest)[1..] == rest;
      } else {
        RejoinPrepend(rest, glue, s[0]);
      }
    }
  }

  /** Text without separators is one piece. */
  lemma {:induction false} SplitWithoutSeparator(s: string, seps: set<char>)
    requires NoSeparator(s, seps)
    ensures SplitOn(s, seps) == [s]
  {
    if |s| > 0 {
      SplitWithoutSeparator(s[1..], seps);
      assert s == [s[0]] + s[1..];
    }
  }

  /** A separator in front opens a new, empty first piece. */
  lemma SplitOnSepCons(x: char, rest: string, seps: set<char>)
    requires x in seps
    ensures SplitOn([x] + rest, seps) == [""] + SplitOn(rest, seps)
  {
    assert ([x] + rest)[0] == x && ([x] + rest)[1..] == rest;
  }

  /** Any other character in front joins the first piece. */
  lemma SplitOnJoinCons(x: char, rest: string, seps: set<char>)
    requires x !in seps
    ensures SplitOn([x] + rest, seps) == [[x] + SplitOn(rest, seps)[0]] + SplitOn(rest, seps)[1..]
  {
    assert ([x] + rest)[0] == x && ([x] + rest)[1..] == rest;
  }

  /** A piece list with a first piece extended by `x` in front, followed by more pieces. */
  lemma JoinFirstAppend(x: char, r: seq<string>, tail: seq<string>)
    requires |r| > 0
    ensures [[x] + (r + tail)[0]] + (r + tail)[1..] == ([[x] + r[0]] + r[1..]) + tail
  {
    assert (r + tail)[0] == r[0];
    assert (r + tail)[1..] == r[1..] + tail;
  }

  /** Putting `x` in front and appending `tail` can be done in either order. */
  lemma PrependAppend<T>(x: T, r: seq<T>, tail: seq<T>)
    ensures [x] + (r + tail) == ([x] + r) + tail
  {
  }

  /** The step of `SplitAppend` for a separator put in front: it opens a new empty piece. */
  lemma SplitAppendSepStep(x: char, rest: string, c: char, b: string, seps: set<char>)
    requires x in seps
    requires SplitOn(rest + [c] + b, seps) == SplitOn(rest, seps) + SplitOn(b, seps)
    ensures SplitOn([x] + (rest + [c] + b), seps) == SplitOn([x] + rest, seps) + SplitOn(b, seps)
  {
    var r, tail := SplitOn(rest, seps), SplitOn(b, seps);
    SplitOnSepCons(x, rest + [c] + b, seps);
    SplitOnSepCons(x, rest, seps);
    PrependAppend("", r, tail);
  }

  /** The step of `SplitAppend` for another character put in front: it joins the first piece. */
  lemma SplitAppendJoinStep(x: char, rest: string, c: char, b: string, seps: set<char>)
    requires x !in seps
    requires SplitOn(rest + [c] + b, seps) == SplitOn(rest, seps) + SplitOn(b, seps)
    ensures SplitOn([x] + (rest + [c] + b), seps) == SplitOn([x] + rest, seps) + SplitOn(b, seps)
  {
    var r, tail := SplitOn(rest, seps), SplitOn(b, seps);
    SplitOnJoinCons(x, rest + [c] + b, seps);
    SplitOnJoinCons(x, rest, seps);
    JoinFirstAppend(x, r, tail);
  }

  /** Splitting at a separator splits the piece list there. */
  lemma {:induction false} SplitAppend(a: string, c: char, b: string, seps: set<char>)
    requires c in seps
    ensures SplitOn(a + [c] + b, seps) == SplitOn(a, seps) + SplitOn(b, seps)
  {
    if |a| == 0 {
      assert a + [c] + b == [c] + b;
      SplitOnSepCons(c, b, seps);
    } else {
      var x, rest := a[0], a[1..];
      assert a == [x] + rest;
      assert a + [c] + b == [x] + (rest + [c] + b);
      SplitAppend(rest, c, b, seps);
      if x in seps {
        SplitAppendSepStep(x, rest, c, b, seps);
      } else {
        SplitAppendJoinStep(x, rest, c, b, seps);
      }
    }
  }

  /**
   * The split is the only way to cut `s` into separator-free pieces that
   * rejoin to `s` with its own separators.
   */
  lemma {:induction false} SplitUnique(s: string, seps: set<char>, pieces: seq<string>, glue: string)
    requires |pieces| == |glue| + 1
    requires forall i :: 0 <= i < |glue| ==> glue[i] in seps
    requires forall i :: 0 <= i < |pieces| ==> NoSeparator(pieces[i], seps)
    requires Rejoin(pieces, glue) == s
    ensures pieces == SplitOn(s, seps)
    decreases |glue|
  {
    if |glue| == 0 {
      SplitWithoutSeparator(s, seps);
    } else {
      var tail := Rejoin(pieces[1..], glue[1..]);
      SplitUnique(tail, seps, pieces[1..], glue[1..]);
      SplitAppend(pieces[0], glue[0], tail, seps);
      SplitWithoutSeparator(pieces[0], seps);
      assert pieces == [pieces[0]] + pieces[1..];
    }
  }

  // ---------------------------------------------------------------------
  // Tokens: split, drop empty pieces, trim what is left.
  // ---------------------------------------------------------------------

  /** `.filter(|v| v != &"")`. */
  function NonEmpty(pieces: seq<string>): (r: seq<string>)
    ensures |r| <= |pieces|
    ensures forall i :: 0 <= i < |r| ==> |r[i]| > 0
  {
    if |pieces| == 0 then []
    else if |pieces[0]| == 0 then NonEmpty(pieces[1..])
    else [pieces[0]] + NonEmpty(pieces[1..])
  }

  /** `.map(|v| v.trim())`. */
  function TrimAll(pieces: seq<string>): (r: seq<string>)
    ensures |r| == |pieces|
    ensures forall i :: 0 <= i < |r| ==> r[i] == Trim(pieces[i])
  {
    if |pieces| == 0 then [] else [Trim(pieces[0])] + TrimAll(pieces[1..])
  }

  lemma {:induction false} NonEmptyAppend(a: seq<string>, b: seq<string>)
    ensures NonEmpty(a + b) == NonEmpty(a) + NonEmpty(b)
  {
    if |a| == 0 {
      assert a + b == b;
    } else {
      assert (a + b)[1..] == a[1..] + b;
      NonEmptyAppend(a[1..], b);
    }
  }

  lemma {:induction false} TrimAllAppend(a: seq<string>, b: seq<string>)
    ensures TrimAll(a + b) == TrimAll(a) + TrimAll(b)
  {
    if |a| == 0 {
      assert a + b == b;
    } else {
      assert (a + b)[1..] == a[1..] + b;
      TrimAllAppend(a[1..], b);
    }
  }

  /**
   * Pieces between separators, empty ones dropped, the rest trimmed, in
   * order. No token holds a separator: trimming keeps a middle part of a
   * piece.
   */
  function Tokens(s: string, seps: set<char>): (r: seq<string>)
    ensures forall i :: 0 <= i < |r| ==> NoSeparator(r[i], seps)
  {
    var kept := NonEmpty(SplitOn(s, seps));
    assert forall i :: 0 <= i < |kept| ==> NoSeparator(Trim(kept[i]), seps) by {
      forall i | 0 <= i < |kept|
        ensures NoSeparator(Trim(kept[i]), seps)
      {
        KeptHaveNoSeparator(s, seps, i);
        TrimKeepsNoSeparator(kept[i], seps);
      }
    }
    TrimAll(kept)
  }

  /** Text cut at a separator yields the tokens of each side, in order. */
  lemma TokensAppend(a: string, c: char, b: string, seps: set<char>)
    requires c in seps
    ensures Tokens(a + [c] + b, seps) == Tokens(a, seps) + Tokens(b, seps)
  {
    SplitAppend(a, c, b, seps);
    NonEmptyAppend(SplitOn(a, seps), SplitOn(b, seps));
    TrimAllAppend(NonEmpty(SplitOn(a, seps)), NonEmpty(SplitOn(b, seps)));
  }

  /** Separator-free text is no token when empty, and one trimmed token otherwise. */
  lemma TokensOfPiece(s: string, seps: set<char>)
    requires NoSeparator(s, seps)
    ensures Tokens(s, seps) == if |s| == 0 then [] else [Trim(s)]
  {
    SplitWithoutSeparator(s, seps);
    assert [s][1..] == [];
  }

  /** Two non-empty separator-free pieces around one separator are two trimmed tokens. */
  lemma TokensOfTwoPieces(a: string, c: char, b: string, seps: set<char>)
    requires c in seps && NoSeparator(a, seps) && NoSeparator(b, seps)
    requires |a| > 0 && |b| > 0
    ensures Tokens(a + [c] + b, seps) == [Trim(a), Trim(b)]
  {
    TokensAppend(a, c, b, seps);
    TokensOfPiece(a, seps);
    TokensOfPiece(b, seps);
  }

  lemma {:induction false} NonEmptyMembers(pieces: seq<string>)
    ensures forall t :: t in NonEmpty(pieces) <==> t in pieces && |t| > 0
  {
    if |pieces| > 0 {
      NonEmptyMembers(pieces[1..]);
      assert pieces == [pieces[0]] + pieces[1..];
    }
  }

  lemma SliceNoSeparator(p: string, lo: nat, hi: nat, seps: set<char>)
    requires lo <= hi <= |p| && NoSeparator(p, seps)
    ensures NoSeparator(p[lo..hi], seps)
  {
    forall j | 0 <= j < hi - lo
      ensures p[lo..hi][j] !in seps
    {
      assert p[lo..hi][j] == p[lo + j];
    }
  }

  /** Trimming keeps a middle part, so it adds no separator. */
  lemma TrimKeepsNoSeparator(p: string, seps: set<char>)
    requires NoSeparator(p, seps)
    ensures NoSeparator(Trim(p), seps)
  {
    var t, k := Trim(p), TrimOffset(p);
    SliceNoSeparator(p, k, k + |t|, seps);
  }

  /** Every kept piece is a piece of the split, so it holds no separator. */
  lemma KeptHaveNoSeparator(s: string, seps: set<char>, i: nat)
    requires i < |NonEmpty(SplitOn(s, seps))|
    ensures NoSeparator(NonEmpty(SplitOn(s, seps))[i], seps)
  {
    var pieces := SplitOn(s, seps);
    NonEmptyMembers(pieces);
    assert NonEmpty(pieces)[i] in pieces;
  }

  /** No token holds a separator: trimming keeps a middle part of a piece. */
  lemma TokensHaveNoSeparator(s: string, seps: set<char>)
    ensures forall i :: 0 <= i < |Tokens(s, seps)| ==> NoSeparator(Tokens(s, seps)[i], seps)
  {
    var kept := NonEmpty(SplitOn(s, seps));
    forall i | 0 <= i < |kept|
      ensures NoSeparator(Trim(kept[i]), seps)
    {
      KeptHaveNoSeparator(s, seps, i);
      TrimKeepsNoSeparator(kept[i], seps);
    }
  }

  /** A piece survives the filter and trims to nothing exactly when it is blank. */
  predicate Blank(p: string) {
    |p| > 0 && AllWhitespace(p)
  }

  lemma {:induction false} EmptyTokenInKept(kept: seq<string>)
    requires forall i :: 0 <= i < |kept| ==> |kept[i]| > 0
    ensures "" in TrimAll(kept) <==> exists i :: 0 <= i < |kept| && Blank(kept[i])
  {
    if "" in TrimAll(kept) {
      var i :| 0 <= i < |kept| && TrimAll(kept)[i] == "";
      TrimEmpty(kept[i]);
      assert Blank(kept[i]);
    }
    if exists i :: 0 <= i < |kept| && Blank(kept[i]) {
      var i :| 0 <= i < |kept| && Blank(kept[i]);
      TrimEmpty(kept[i]);
      assert TrimAll(kept)[i] == "";
    }
  }

  /**
   * Empty pieces are dropped before trimming, so a token is empty exactly
   * when some piece was non-empty whitespace (a lone `\r`, say).
   */
  lemma EmptyTokenFromBlankPiece(s: string, seps: set<char>)
    ensures "" in Tokens(s, seps) <==> exists p :: p in SplitOn(s, seps) && Blank(p)
  {
    var pieces := SplitOn(s, seps);
    var kept := NonEmpty(pieces);
    NonEmptyMembers(pieces);
    EmptyTokenInKept(kept);
    if exists p :: p in pieces && Blank(p) {
      var p :| p in pieces && Blank(p);
      assert p in kept;
    }
  }
}
