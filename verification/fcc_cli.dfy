/**
 * The input paths of the older `fcc` binary built on `Concat`: the `-i`
 * values trimmed, or standard input split at spaces, falling back to
 * newlines when that gives fewer than two paths.
 */
module FccCli {
  import opened Wrappers
  import Errors
  import Tokenize

  type Path = string

  const SPACE: set<char> := {' '}
  const NEWLINE: set<char> := {'\n'}

  /**
   * Paths from standard input: the space-separated pieces when there are at
   * least two of them, otherwise the newline-separated ones; empty pieces
   * dropped and the rest trimmed either way.
   */
  function StdinPaths(buf: string): (paths: seq<Path>)
    ensures |Tokenize.Tokens(buf, SPACE)| >= 2 ==> paths == Tokenize.Tokens(buf, SPACE)
    ensures |Tokenize.Tokens(buf, SPACE)| < 2 ==> paths == Tokenize.Tokens(buf, NEWLINE)
  {
    var spaced := Tokenize.Tokens(buf, SPACE);
    if |spaced| >= 2 then spaced else Tokenize.Tokens(buf, NEWLINE)
  }

  /** The `-i` values, each trimmed, in order. */
  function TrimmedInputs(values: seq<string>): (paths: seq<Path>)
    ensures |paths| == |values|
    ensures forall i :: 0 <= i < |paths| ==> paths[i] == Tokenize.Trim(values[i])
  {
    Tokenize.TrimAll(values)
  }

  /** The input paths: `-i` values when given (standard input unread), else standard input. */
  function InputPaths(input: Option<seq<string>>, stdin: Result<string, Errors.IoError>): (r: Result<seq<Path>, Errors.IoError>)
    ensures input.Some? ==> r == Ok(TrimmedInputs(input.value))
    ensures input.None? ==> (r.Err? <==> stdin.Err?)
    ensures input.None? && stdin.Err? ==> r.error == stdin.error
    ensures input.None? && stdin.Ok? ==> r.Ok? && r.value == StdinPaths(stdin.value)
  {
    if input.Some? then Ok(TrimmedInputs(input.value))
    else if stdin.Err? then Err(stdin.error)
    else Ok(StdinPaths(stdin.value))
  }

  // ---------------------------------------------------------------------
  // Properties.
  // ---------------------------------------------------------------------

  /**
   * Two non-empty pieces without spaces, joined by one space, are two paths,
   * each trimmed; a newline inside a piece is no separator here, and trimming
   * only strips the ends.
   */
  lemma SpaceSplitKeepsInnerNewline(a: string, b: string)
    requires ' ' !in a && ' ' !in b && |a| > 0 && |b| > 0
    ensures StdinPaths(a + [' '] + b) == [Tokenize.Trim(a), Tokenize.Trim(b)]
  {
    TwoSpacedPieces(a, b);
  }

  lemma TwoSpacedPieces(a: string, b: string)
    requires ' ' !in a && ' ' !in b && |a| > 0 && |b| > 0
    ensures Tokenize.Tokens(a + [' '] + b, SPACE) == [Tokenize.Trim(a), Tokenize.Trim(b)]
  {
    assert Tokenize.NoSeparator(a, SPACE) && Tokenize.NoSeparator(b, SPACE);
    Tokenize.TokensOfTwoPieces(a, ' ', b, SPACE);
  }

  /** The concrete case `a b\nc`: two paths, the second holding a newline. */
  lemma EmbeddedNewline()
    ensures StdinPaths("a b\nc") == ["a", "b\nc"]
  {
    var a, b := "a", "b\nc";
    assert "a b\nc" == a + [' '] + b;
    Tokenize.TrimKeepsNonBlankEnds(a);
    Tokenize.TrimKeepsNonBlankEnds(b);
    SpaceSplitKeepsInnerNewline(a, b);
  }

  /** Text without spaces is split at newlines instead. */
  lemma NoSpaceFallsBackToNewlines(buf: string)
    requires ' ' !in buf
    ensures StdinPaths(buf) == Tokenize.Tokens(buf, NEWLINE)
  {
    Tokenize.TokensOfPiece(buf, SPACE);
  }

  /** A single space-separated path that holds newlines is re-split at them, in order. */
  lemma NewlineFallbackOrder(a: string, b: string)
    requires ' ' !in a && ' ' !in b
    ensures StdinPaths(a + ['\n'] + b) == Tokenize.Tokens(a, NEWLINE) + Tokenize.Tokens(b, NEWLINE)
  {
    NoSpaceFallsBackToNewlines(a + ['\n'] + b);
    Tokenize.TokensAppend(a, '\n', b, NEWLINE);
  }

  /** No path holds a space when the space split is used, nor a newline when the newline split is. */
  lemma PathsHaveNoSeparator(buf: string)
    ensures |Tokenize.Tokens(buf, SPACE)| >= 2 ==>
            forall i :: 0 <= i < |StdinPaths(buf)| ==> ' ' !in StdinPaths(buf)[i]
    ensures |Tokenize.Tokens(buf, SPACE)| < 2 ==>
            forall i :: 0 <= i < |StdinPaths(buf)| ==> '\n' !in StdinPaths(buf)[i]
  {
    Tokenize.TokensHaveNoSeparator(buf, SPACE);
    Tokenize.TokensHaveNoSeparator(buf, NEWLINE);
  }

  /** With `-i` given, standard input is never consulted. */
  lemma InputFlagIgnoresStdin(values: seq<string>, a: Result<string, Errors.IoError>, b: Result<string, Errors.IoError>)
    ensures InputPaths(Some(values), a) == InputPaths(Some(values), b)
  {
  }
}
