/**
 * The `run` function of the `fcc` command built on the merging library:
 * where the input paths come from, and which skip, newline and padding
 * settings each combination of flags asks the merger for. The merger itself
 * lives in another library; the model stops at the list of calls made on it.
 */
module MainCli {
  import opened Wrappers
  import Bytes
  import Errors
  import Tokenize
  import Utf8

  type Path = string

  /**
   * The parsed command line. Numbers are the `-s`, `-e`, `-S` and `-E`
   * values; the three strings are `--skip-mode`, `--pad-mode` and
   * `--newline-style` (defaults `lines`, `between`, `lf`).
   */
  datatype Opts = Opts(
    input: Option<seq<Path>>,
    skipHead: Option<nat>,
    skipTail: Option<nat>,
    skipHeadOnce: Option<nat>,
    skipTailOnce: Option<nat>,
    headOnce: bool,
    tailOnce: bool,
    skipMode: string,
    padding: Option<string>,
    padMode: string,
    newline: bool,
    newlineStyle: string)

  /** A command line that sets nothing but the input paths. */
  function Defaults(input: Option<seq<Path>>): (o: Opts)
    ensures o.input == input && o.skipMode == "lines" && o.padMode == "between"
    ensures o.newlineStyle == "lf" && !o.newline && o.padding.None?
  {
    Opts(input, None, None, None, None, false, false, "lines", None, "between", false, "lf")
  }

  /** What to skip: lines or bytes, from every source or from all but one. */
  datatype Skip = Lines(n: nat) | LinesOnce(n: nat) | Bytes(n: nat) | BytesOnce(n: nat)

  datatype Newline = Lf | Crlf

  /** Where padding goes; `Custom` sets the three places separately. */
  datatype Pad =
    | Before(bytes: seq<Bytes.byte>)
    | After(bytes: seq<Bytes.byte>)
    | Between(bytes: seq<Bytes.byte>)
    | Custom(before: Option<seq<Bytes.byte>>, between: Option<seq<Bytes.byte>>, after: Option<seq<Bytes.byte>>)

  /** One configuring call on the merger. */
  datatype Call =
    | SkipHead(skip: Skip)
    | SkipTail(skip: Skip)
    | ForceEndingNewline(style: Newline)
    | PadWith(pad: Pad)

  /** How `run` ends before the merge: a read error, a panic, or a configured merge. */
  datatype Outcome =
    | Failed(err: Errors.IoError)
    | Panicked(message: string)
    | Merge(paths: seq<Path>, calls: seq<Call>)

  const STDIN_SEPARATORS: set<char> := {' ', '\n'}

  /**
   * Paths read from standard input: pieces between spaces and newlines,
   * empty pieces dropped, the rest trimmed, in order. No path holds a space
   * or a newline.
   */
  function StdinPaths(buf: string): (paths: seq<Path>)
    ensures forall i :: 0 <= i < |paths| ==> ' ' !in paths[i] && '\n' !in paths[i]
  {
    Tokenize.Tokens(buf, STDIN_SEPARATORS)
  }

  /** No path read from standard input holds a space or a newline. */
  lemma StdinPathsHaveNoSeparator(buf: string)
    ensures forall i :: 0 <= i < |StdinPaths(buf)| ==> ' ' !in StdinPaths(buf)[i] && '\n' !in StdinPaths(buf)[i]
  {
    Tokenize.TokensHaveNoSeparator(buf, STDIN_SEPARATORS);
  }

  /**
   * The input paths: the `-i` values unchanged when given, whatever standard
   * input holds; otherwise standard input, whose read error ends the run.
   */
  function InputPaths(o: Opts, stdin: Result<string, Errors.IoError>): (r: Result<seq<Path>, Errors.IoError>)
    ensures o.input.Some? ==> r == Ok(o.input.value)
    ensures o.input.None? ==> (r.Err? <==> stdin.Err?)
    ensures o.input.None? && stdin.Err? ==> r.error == stdin.error
    ensures o.input.None? && stdin.Ok? ==> r.Ok? && r.value == StdinPaths(stdin.value)
  {
    match o.input
    case Some(paths) => Ok(paths)
    case None =>
      match stdin
      case Err(e) => Err(e)
      case Ok(buf) => Ok(StdinPaths(buf))
  }

  /** The text of a `panic!` about an unexpected option value. */
  function Unexpected(value: string, what: string): string {
    "unexpected `" + value + "` in " + what
  }

  /** One for a flag that is present, zero otherwise. */
  function Count(present: bool): nat {
    if present then 1 else 0
  }

  /** An optional call: none when the flag is absent. */
  function When(present: bool, call: Call): (r: seq<Call>)
    ensures r == if present then [call] else []
  {
    if present then [call] else []
  }

  /** A call for a flag that takes a number: none when the flag is absent. */
  function WithValue(n: Option<nat>, call: nat -> Call): (r: seq<Call>)
    ensures r == if n.Some? then [call(n.value)] else []
  {
    if n.Some? then [call(n.value)] else []
  }

  /** Lines mode: `-s`/`-e` skip from every source, `-S`/`-E` and `-H`/`-T` from all but one. */
  function LinesModeSkips(o: Opts): (r: seq<Call>)
    ensures forall c :: c in r ==> (c.SkipHead? || c.SkipTail?) && (c.skip.Lines? || c.skip.LinesOnce?)
    ensures |r| == Count(o.skipHead.Some?) + Count(o.skipHeadOnce.Some?) + Count(o.headOnce)
                   + Count(o.skipTail.Some?) + Count(o.skipTailOnce.Some?) + Count(o.tailOnce)
  {
    LinesHeadSkips(o) + LinesTailSkips(o)
  }

  /** The head skips of lines mode, from `-s`, `-S` and `-H` in that order. */
  function LinesHeadSkips(o: Opts): (r: seq<Call>)
    ensures forall c :: c in r ==> c.SkipHead? && (c.skip.Lines? || c.skip.LinesOnce?)
    ensures |r| == Count(o.skipHead.Some?) + Count(o.skipHeadOnce.Some?) + Count(o.headOnce)
  {
    WithValue(o.skipHead, (n: nat) => SkipHead(Lines(n)))
    + WithValue(o.skipHeadOnce, (n: nat) => SkipHead(LinesOnce(n)))
    + When(o.headOnce, SkipHead(LinesOnce(1)))
  }

  /** The tail skips of lines mode, from `-e`, `-E` and `-T` in that order. */
  function LinesTailSkips(o: Opts): (r: seq<Call>)
    ensures forall c :: c in r ==> c.SkipTail? && (c.skip.Lines? || c.skip.LinesOnce?)
    ensures |r| == Count(o.skipTail.Some?) + Count(o.skipTailOnce.Some?) + Count(o.tailOnce)
  {
    WithValue(o.skipTail, (n: nat) => SkipTail(Lines(n)))
    + WithValue(o.skipTailOnce, (n: nat) => SkipTail(LinesOnce(n)))
    + When(o.tailOnce, SkipTail(LinesOnce(1)))
  }

  /** Bytes mode: the same four numeric flags counted in bytes; `-H`/`-T` play no part. */
  function BytesModeSkips(o: Opts): (r: seq<Call>)
    ensures forall c :: c in r ==> (c.SkipHead? || c.SkipTail?) && (c.skip.Bytes? || c.skip.BytesOnce?)
    ensures |r| == Count(o.skipHead.Some?) + Count(o.skipHeadOnce.Some?)
                   + Count(o.skipTail.Some?) + Count(o.skipTailOnce.Some?)
  {
    WithValue(o.skipHead, (n: nat) => SkipHead(Bytes(n)))
    + WithValue(o.skipHeadOnce, (n: nat) => SkipHead(BytesOnce(n)))
    + WithValue(o.skipTail, (n: nat) => SkipTail(Bytes(n)))
    + WithValue(o.skipTailOnce, (n: nat) => SkipTail(BytesOnce(n)))
  }

  /** Head and tail skips by skip mode; any other mode panics. */
  function SkipCalls(o: Opts): (r: Result<seq<Call>, string>)
    ensures r.Err? <==> o.skipMode != "lines" && o.skipMode != "bytes"
    ensures r.Err? ==> r.error == Unexpected(o.skipMode, "skip-mode")
  {
    if o.skipMode == "lines" then Ok(LinesModeSkips(o))
    else if o.skipMode == "bytes" then Ok(BytesModeSkips(o))
    else Err(Unexpected(o.skipMode, "skip-mode"))
  }

  /** The forced newline: only with `-n`, yet the style is checked either way. */
  function NewlineCalls(o: Opts): (r: Result<seq<Call>, string>)
    ensures r.Err? <==> o.newlineStyle != "lf" && o.newlineStyle != "crlf"
    ensures r.Err? ==> r.error == Unexpected(o.newlineStyle, "newline-style")
    ensures r.Ok? ==> |r.value| == (if o.newline then 1 else 0)
    ensures r.Ok? && o.newline ==>
      r.value[0] == ForceEndingNewline(if o.newlineStyle == "lf" then Lf else Crlf)
  {
    if o.newlineStyle == "lf" then Ok(When(o.newline, ForceEndingNewline(Lf)))
    else if o.newlineStyle == "crlf" then Ok(When(o.newline, ForceEndingNewline(Crlf)))
    else Err(Unexpected(o.newlineStyle, "newline-style"))
  }

  /** The padding, in its UTF-8 bytes, placed as the pad mode says; the mode is checked either way. */
  function PadCalls(o: Opts): (r: Result<seq<Call>, string>)
    ensures r.Err? <==> o.padMode !in {"beforestart", "afterend", "between", "all"}
    ensures r.Err? ==> r.error == Unexpected(o.padMode, "pad-mode")
    ensures r.Ok? ==> |r.value| == (if o.padding.Some? then 1 else 0)
    ensures r.Ok? && o.padding.Some? ==> r.value[0].PadWith?
  {
    var bytes := if o.padding.Some? then Utf8.Encode(o.padding.value) else [];
    var call := match o.padMode
      case "beforestart" => Some(PadWith(Before(bytes)))
      case "afterend" => Some(PadWith(After(bytes)))
      case "between" => Some(PadWith(Between(bytes)))
      case "all" => Some(PadWith(Custom(Some(bytes), Some(bytes), Some(bytes))))
      case _ => None;
    if call.None? then Err(Unexpected(o.padMode, "pad-mode"))
    else Ok(When(o.padding.Some?, call.value))
  }

  /**
   * All configuring calls in the order `run` makes them: skips, then the
   * newline, then the padding; the first unexpected value panics.
   */
  function Configure(o: Opts): (r: Result<seq<Call>, string>)
    ensures r.Ok? <==> SkipCalls(o).Ok? && NewlineCalls(o).Ok? && PadCalls(o).Ok?
    ensures r.Ok? ==> r.value == SkipCalls(o).value + NewlineCalls(o).value + PadCalls(o).value
  {
    match SkipCalls(o)
    case Err(m) => Err(m)
    case Ok(skips) =>
      match NewlineCalls(o)
      case Err(m) => Err(m)
      case Ok(newline) =>
        match PadCalls(o)
        case Err(m) => Err(m)
        case Ok(pad) => Ok(skips + newline + pad)
  }

  /** `run` up to the merge: paths first (a read error ends it), then the configuration. */
  function Run(o: Opts, stdin: Result<string, Errors.IoError>): (out: Outcome)
    ensures InputPaths(o, stdin).Err? ==> out == Failed(InputPaths(o, stdin).error)
    ensures InputPaths(o, stdin).Ok? && Configure(o).Err? ==> out == Panicked(Configure(o).error)
    ensures out.Merge? <==> InputPaths(o, stdin).Ok? && Configure(o).Ok?
    ensures out.Merge? ==> out == Merge(InputPaths(o, stdin).value, Configure(o).value)
  {
    match InputPaths(o, stdin)
    case Err(e) => Failed(e)
    case Ok(paths) =>
      match Configure(o)
      case Err(m) => Panicked(m)
      case Ok(calls) => Merge(paths, calls)
  }

  // ---------------------------------------------------------------------
  // Properties.
  // ---------------------------------------------------------------------

  /** Cutting standard input at a space or newline cuts the path list there. */
  lemma StdinPathsAppend(a: string, c: char, b: string)
    requires c == ' ' || c == '\n'
    ensures StdinPaths(a + [c] + b) == StdinPaths(a) + StdinPaths(b)
  {
    Tokenize.TokensAppend(a, c, b, STDIN_SEPARATORS);
  }

  /** Text with no space or newline is one trimmed path, or none when empty. */
  lemma OnePiece(p: string)
    requires ' ' !in p && '\n' !in p
    ensures StdinPaths(p) == if |p| == 0 then [] else [Tokenize.Trim(p)]
  {
    Tokenize.TokensOfPiece(p, STDIN_SEPARATORS);
  }

  /** Spaces and newlines separate paths alike: paths of the three parts, in order. */
  lemma MixedSeparators(a: string, b: string, d: string)
    ensures StdinPaths(a + [' '] + b + ['\n'] + d) == StdinPaths(a) + StdinPaths(b) + StdinPaths(d)
  {
    assert a + [' '] + b + ['\n'] + d == a + [' '] + (b + ['\n'] + d);
    StdinPathsAppend(b, '\n', d);
    StdinPathsAppend(a, ' ', b + ['\n'] + d);
  }

  /**
   * A non-empty blank piece between two spaces (a lone `\r`, say) is not
   * dropped: it trims to an empty path.
   */
  lemma BlankPieceBecomesEmptyPath(a: string, p: string, b: string)
    requires |p| > 0 && Tokenize.AllWhitespace(p) && ' ' !in p && '\n' !in p
    ensures StdinPaths(a + [' '] + p + [' '] + b) == StdinPaths(a) + [""] + StdinPaths(b)
  {
    assert a + [' '] + p + [' '] + b == a + [' '] + (p + [' '] + b);
    StdinPathsAppend(p, ' ', b);
    StdinPathsAppend(a, ' ', p + [' '] + b);
    OnePiece(p);
    Tokenize.TrimEmpty(p);
  }

  /** The smallest case: a carriage return alone between two spaces. */
  lemma CarriageReturnBecomesEmptyPath(a: string, b: string)
    ensures StdinPaths(a + " \r " + b) == StdinPaths(a) + [""] + StdinPaths(b)
  {
    assert a + " \r " + b == a + [' '] + "\r" + [' '] + b;
    BlankPieceBecomesEmptyPath(a, "\r", b);
  }

  /** With `-i` given, what standard input would hold (or fail with) makes no difference. */
  lemma InputFlagIgnoresStdin(o: Opts, a: Result<string, Errors.IoError>, b: Result<string, Errors.IoError>)
    requires o.input.Some?
    ensures Run(o, a) == Run(o, b)
    ensures Run(o, a).Merge? ==> Run(o, a).paths == o.input.value
  {
  }

  /** Without `-i`, a failed read of standard input ends the run before any option is looked at. */
  lemma StdinErrorComesFirst(o: Opts, e: Errors.IoError)
    requires o.input.None?
    ensures Run(o, Err(e)) == Failed(e)
  {
  }

  /** No flags, no calls: the defaults configure nothing. */
  lemma DefaultsConfigureNothing(input: Option<seq<Path>>)
    ensures Configure(Defaults(input)) == Ok([])
  {
  }

  /** In lines mode `-H` asks for exactly what `-S 1` asks for. */
  lemma HeadOnceIsSkipHeadOnceOne(o: Opts)
    requires o.skipMode == "lines" && o.headOnce && o.skipHeadOnce.None?
    ensures Configure(o) == Configure(o.(headOnce := false, skipHeadOnce := Some(1)))
  {
    var o' := o.(headOnce := false, skipHeadOnce := Some(1));
    assert LinesHeadSkips(o) == LinesHeadSkips(o');
    assert LinesModeSkips(o) == LinesModeSkips(o');
    assert NewlineCalls(o) == NewlineCalls(o');
    assert PadCalls(o) == PadCalls(o');
  }

  /** In lines mode `-T` asks for exactly what `-E 1` asks for. */
  lemma TailOnceIsSkipTailOnceOne(o: Opts)
    requires o.skipMode == "lines" && o.tailOnce && o.skipTailOnce.None?
    ensures Configure(o) == Configure(o.(tailOnce := false, skipTailOnce := Some(1)))
  {
    var o' := o.(tailOnce := false, skipTailOnce := Some(1));
    assert LinesTailSkips(o) == LinesTailSkips(o');
    assert LinesModeSkips(o) == LinesModeSkips(o');
    assert NewlineCalls(o) == NewlineCalls(o');
    assert PadCalls(o) == PadCalls(o');
  }

  /** In bytes mode `-H` and `-T` are ignored. */
  lemma BytesModeIgnoresHeadTailOnce(o: Opts)
    requires o.skipMode == "bytes"
    ensures Configure(o) == Configure(o.(headOnce := false, tailOnce := false))
  {
  }

  /** In bytes mode `-H` and `-S 1` differ: only the latter skips anything. */
  lemma BytesModeHeadOnceDiffers(o: Opts)
    requires o == Defaults(None).(skipMode := "bytes", headOnce := true)
    ensures Configure(o) == Ok([])
    ensures Configure(o.(headOnce := false, skipHeadOnce := Some(1))) == Ok([SkipHead(BytesOnce(1))])
  {
    var o' := o.(headOnce := false, skipHeadOnce := Some(1));
    assert SkipCalls(o').value == [] + [SkipHead(BytesOnce(1))] + [] + [];
    assert Configure(o').value == SkipCalls(o').value + [] + [];
    assert Configure(o').value == [SkipHead(BytesOnce(1))];
  }

  /** Every skip is counted in the unit the skip mode names. */
  lemma SkipUnitFollowsMode(o: Opts, i: nat)
    requires SkipCalls(o).Ok? && i < |SkipCalls(o).value|
    ensures o.skipMode == "lines" <==> SkipCalls(o).value[i].skip.Lines? || SkipCalls(o).value[i].skip.LinesOnce?
  {
  }

  /** In lines mode, a head skip is asked for exactly by `-s`, `-S` or `-H`. */
  lemma LinesModeHeadSkips(o: Opts, k: Skip)
    requires o.skipMode == "lines"
    ensures SkipHead(k) in SkipCalls(o).value <==>
            (o.skipHead.Some? && k == Lines(o.skipHead.value))
            || (o.skipHeadOnce.Some? && k == LinesOnce(o.skipHeadOnce.value))
            || (o.headOnce && k == LinesOnce(1))
  {
  }

  /** In lines mode, a tail skip is asked for exactly by `-e`, `-E` or `-T`. */
  lemma LinesModeTailSkips(o: Opts, k: Skip)
    requires o.skipMode == "lines"
    ensures SkipTail(k) in SkipCalls(o).value <==>
            (o.skipTail.Some? && k == Lines(o.skipTail.value))
            || (o.skipTailOnce.Some? && k == LinesOnce(o.skipTailOnce.value))
            || (o.tailOnce && k == LinesOnce(1))
  {
  }

  /** In bytes mode, a head skip is asked for exactly by `-s` or `-S`; `-H` asks for nothing. */
  lemma BytesModeHeadSkips(o: Opts, k: Skip)
    requires o.skipMode == "bytes"
    ensures SkipHead(k) in SkipCalls(o).value <==>
            (o.skipHead.Some? && k == Bytes(o.skipHead.value))
            || (o.skipHeadOnce.Some? && k == BytesOnce(o.skipHeadOnce.value))
  {
  }

  /** In bytes mode, a tail skip is asked for exactly by `-e` or `-E`; `-T` asks for nothing. */
  lemma BytesModeTailSkips(o: Opts, k: Skip)
    requires o.skipMode == "bytes"
    ensures SkipTail(k) in SkipCalls(o).value <==>
            (o.skipTail.Some? && k == Bytes(o.skipTail.value))
            || (o.skipTailOnce.Some? && k == BytesOnce(o.skipTailOnce.value))
  {
  }

  /** The skip part of the configuration holds skip calls only. */
  lemma SkipsAreSkips(o: Opts, c: Call)
    requires SkipCalls(o).Ok? && c in SkipCalls(o).value
    ensures c.SkipHead? || c.SkipTail?
  {
  }

  /** A newline is forced exactly with `-n`, in the style `-N` names. */
  lemma ForcedNewlineOnlyWithFlag(o: Opts, style: Newline)
    requires Configure(o).Ok?
    ensures ForceEndingNewline(style) in Configure(o).value <==>
            o.newline && style == (if o.newlineStyle == "lf" then Lf else Crlf)
  {
    var c := ForceEndingNewline(style);
    var skips, newline, pad := SkipCalls(o).value, NewlineCalls(o).value, PadCalls(o).value;
    assert Configure(o).value == skips + newline + pad;
    if c in skips {
      SkipsAreSkips(o, c);
    }
    assert c !in pad;
  }

  /** An unknown newline style panics even when `-n` is absent. */
  lemma BadNewlineStylePanics(o: Opts)
    requires SkipCalls(o).Ok? && o.newlineStyle != "lf" && o.newlineStyle != "crlf"
    ensures Configure(o) == Err(Unexpected(o.newlineStyle, "newline-style"))
  {
  }

  /** The skip mode is checked before anything else. */
  lemma SkipModeCheckedFirst(o: Opts)
    requires o.skipMode != "lines" && o.skipMode != "bytes"
    ensures Configure(o) == Err(Unexpected(o.skipMode, "skip-mode"))
  {
  }

  /** Padding is configured exactly when `-p` is given, whatever the pad mode. */
  lemma NoPaddingWithoutFlag(o: Opts, pad: Pad)
    requires Configure(o).Ok?
    ensures PadWith(pad) in Configure(o).value ==> o.padding.Some?
    ensures o.padding.Some? ==> Configure(o).value[|Configure(o).value| - 1].PadWith?
  {
    var c := PadWith(pad);
    var skips, newline, padding := SkipCalls(o).value, NewlineCalls(o).value, PadCalls(o).value;
    assert Configure(o).value == skips + newline + padding;
    if c in skips {
      SkipsAreSkips(o, c);
    }
    assert c !in newline;
  }

  /** Pad modes `beforestart`, `afterend` and `between` put the padding bytes in that one place. */
  lemma PadModeNamesPlace(o: Opts, p: string)
    requires o.padding == Some(p) && Configure(o).Ok?
    ensures var calls := Configure(o).value; var last := calls[|calls| - 1];
            (o.padMode == "beforestart" ==> last == PadWith(Before(Utf8.Encode(p))))
            && (o.padMode == "afterend" ==> last == PadWith(After(Utf8.Encode(p))))
            && (o.padMode == "between" ==> last == PadWith(Between(Utf8.Encode(p))))
  {
  }

  /** Pad mode `all` puts the same padding bytes in all three places. */
  lemma AllPadsEveryPlace(o: Opts, p: string)
    requires o.padding == Some(p) && o.padMode == "all" && Configure(o).Ok?
    ensures var calls := Configure(o).value;
            calls[|calls| - 1] == PadWith(Custom(Some(Utf8.Encode(p)), Some(Utf8.Encode(p)), Some(Utf8.Encode(p))))
  {
  }

  /**
   * The padding is the UTF-8 encoding of the `-p` text in every pad mode, so
   * decoding it gives that text back: the one place of `beforestart`,
   * `afterend` and `between`, and each of the three places of `all`.
   */
  lemma PaddingBytesDecode(o: Opts, p: string)
    requires o.padding == Some(p) && Configure(o).Ok?
    ensures var calls := Configure(o).value; var pad := calls[|calls| - 1].pad;
            !pad.Custom? ==> Utf8.Decode(pad.bytes) == Some(p)
    ensures var calls := Configure(o).value; var pad := calls[|calls| - 1].pad;
            pad.Custom? ==>
              && pad.before.Some? && Utf8.Decode(pad.before.value) == Some(p)
              && pad.between.Some? && Utf8.Decode(pad.between.value) == Some(p)
              && pad.after.Some? && Utf8.Decode(pad.after.value) == Some(p)
  {
    Utf8.DecodeEncode(p);
    PadModeNamesPlace(o, p);
    if o.padMode == "all" {
      AllPadsEveryPlace(o, p);
    }
  }
}
