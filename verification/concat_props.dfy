/**
 * What `Concat::write` promises about its output, stated over the contents
 * of the files rather than over the streaming loop.
 */
module ConcatProperties {
  import opened Wrappers
  import opened Bytes
  import opened Lines
  import opened Errors
  import opened Concatenate

  /** Every file's piece, in order, run together. */
  function Body(files: seq<seq<byte>>, o: Options): seq<byte> {
    if |files| == 0 then [] else Piece(files[0], o) + Body(files[1..], o)
  }

  /** Whether the last of `files` ends in a line feed (false when there is none). */
  predicate LastEndsWithLf(files: seq<seq<byte>>) {
    |files| > 0 && EndsWithLf(files[|files| - 1])
  }

  /** The header `write` emits first, given the files' contents. */
  function HeaderOf(files: seq<seq<byte>>, o: Options): seq<byte> {
    if o.header && |files| > 0 then FirstLine(files[0]) else []
  }

  /** `files` are the contents of the regular files at `paths`, in order. */
  predicate HoldContents(paths: seq<Path>, fs: FileSystem, files: seq<seq<byte>>) {
    |files| == |paths|
    && forall k :: 0 <= k < |paths| ==> paths[k] in fs && fs[paths[k]] == Regular(files[k])
  }

  lemma {:induction false} FilesOverContents(paths: seq<Path>, fs: FileSystem, files: seq<seq<byte>>,
                                             o: Options, acc: seq<byte>, hasEof: bool)
    requires HoldContents(paths, fs, files)
    ensures Files(paths, fs, o, acc, hasEof)
            == Written(acc + Body(files, o) + Trailer(o, if |paths| == 0 then hasEof else LastEndsWithLf(files)), Ok(()))
    decreases |paths|
  {
    if |paths| > 0 {
      var f0 := files[0];
      assert OpenFile(fs, paths[0]) == Ok(f0);
      assert HoldContents(paths[1..], fs, files[1..]);
      FilesOverContents(paths[1..], fs, files[1..], o, acc + Piece(f0, o), EndsWithLf(f0));
      assert (acc + Piece(f0, o)) + Body(files[1..], o) == acc + Body(files, o);
    }
  }

  /**
   * When every path is a regular file, `write` succeeds and emits the header,
   * then every file's piece in order, then the final line feed rule.
   */
  lemma WriteAllReadable(c: Concat, fs: FileSystem, files: seq<seq<byte>>)
    requires HoldContents(c.paths, fs, files)
    requires !c.options.header || |c.paths| > 0
    ensures Expected(c, fs)
            == Written(HeaderOf(files, c.options) + Body(files, c.options)
                       + Trailer(c.options, LastEndsWithLf(files)), Ok(()))
  {
    if c.options.header {
      assert OpenFile(fs, c.paths[0]) == Ok(files[0]);
    }
    FilesOverContents(c.paths, fs, files, c.options, HeaderOf(files, c.options), false);
  }

  /** What is left of each file once its first `n` lines are skipped, in order. */
  function Remainders(files: seq<seq<byte>>, n: nat): (rs: seq<seq<byte>>)
    ensures |rs| == |files|
  {
    if |files| == 0 then [] else [SkipLines(files[0], n)] + Remainders(files[1..], n)
  }

  /** Without newline mode and padding, a file's piece is what is left after skipping. */
  lemma {:induction false} BodyWithoutExtras(files: seq<seq<byte>>, o: Options)
    requires !o.newline && o.padding.None?
    ensures Body(files, o) == Flatten(Remainders(files, o.skip))
  {
    if |files| > 0 {
      BodyWithoutExtras(files[1..], o);
    }
  }

  /**
   * With no option set, the output is the files concatenated byte for byte,
   * plus one line feed when the last file does not end in one.
   */
  lemma PlainConcatenation(c: Concat, fs: FileSystem, files: seq<seq<byte>>)
    requires c.options == Concatenate.New().options
    requires HoldContents(c.paths, fs, files)
    ensures Expected(c, fs) == Written(Flatten(files) + (if LastEndsWithLf(files) then [] else [LF]), Ok(()))
  {
    WriteAllReadable(c, fs, files);
    BodyWithoutExtras(files, c.options);
    RemaindersOfZero(files);
  }

  lemma {:induction false} RemaindersOfZero(files: seq<seq<byte>>)
    ensures Remainders(files, 0) == files
  {
    if |files| > 0 {
      RemaindersOfZero(files[1..]);
      assert SkipOffset(files[0], 0) == 0;
    }
  }

  /**
   * Header mode (skip 1, no newline mode, no padding): the first file comes
   * out whole, every later file without its first line.
   */
  lemma HeaderModeKeepsFirstFileWhole(c: Concat, fs: FileSystem, files: seq<seq<byte>>)
    requires c.options == Options(1, true, false, None)
    requires HoldContents(c.paths, fs, files) && |c.paths| > 0
    ensures Expected(c, fs)
            == Written(files[0] + Flatten(Remainders(files[1..], 1))
                       + Trailer(c.options, LastEndsWithLf(files)), Ok(()))
  {
    WriteAllReadable(c, fs, files);
    HeaderModeBody(files, c.options);
  }

  /** In header mode the header line and the first file's remainder rebuild the first file. */
  lemma HeaderModeBody(files: seq<seq<byte>>, o: Options)
    requires o == Options(1, true, false, None) && |files| > 0
    ensures HeaderOf(files, o) + Body(files, o) == files[0] + Flatten(Remainders(files[1..], 1))
  {
    var rest := Flatten(Remainders(files[1..], 1));
    assert Piece(files[0], o) == SkipLines(files[0], 1);
    BodyWithoutExtras(files[1..], o);
    assert Body(files, o) == SkipLines(files[0], 1) + rest;
    FirstLineThenRest(files[0]);
  }

  /**
   * With no paths: header mode fails with `NothingPassed` before writing
   * anything; otherwise the output is a lone line feed, or nothing at all in
   * newline mode.
   */
  lemma NoPaths(c: Concat, fs: FileSystem)
    requires |c.paths| == 0
    ensures c.options.header ==> Expected(c, fs) == Written([], Err(Errors.New(NothingPassed)))
    ensures !c.options.header ==>
              Expected(c, fs) == Written(if c.options.newline then [] else [LF], Ok(()))
  {
  }

  /**
   * A path that does not exist fails the run before any file's bytes,
   * wherever it stands in the list: with not-found after the header, unless
   * in header mode the first path cannot be opened, when `get_header` fails
   * first with that path's own error.
   */
  lemma MissingPathWritesNoFile(c: Concat, fs: FileSystem, k: nat)
    requires k < |c.paths| && c.paths[k] !in fs
    ensures !c.options.header ==> Expected(c, fs) == Written([], Err(FromIo(NOT_FOUND)))
    ensures c.options.header && c.paths[0] in fs && fs[c.paths[0]].Regular? ==>
              Expected(c, fs) == Written(FirstLine(fs[c.paths[0]].data), Err(FromIo(NOT_FOUND)))
    ensures c.options.header && OpenFile(fs, c.paths[0]).Err? ==>
              Expected(c, fs) == Written([], Err(FromIo(OpenFile(fs, c.paths[0]).error)))
    ensures Expected(c, fs).status.Err?
  {
  }

  lemma {:induction false} FilesStopsAt(paths: seq<Path>, fs: FileSystem, files: seq<seq<byte>>,
                                        o: Options, acc: seq<byte>, hasEof: bool)
    requires |files| < |paths| && HoldContents(paths[..|files|], fs, files)
    requires paths[|files|] in fs && fs[paths[|files|]].Unopenable?
    ensures Files(paths, fs, o, acc, hasEof)
            == Written(acc + Body(files, o), Err(FromIo(fs[paths[|files|]].err)))
    decreases |files|
  {
    if |files| > 0 {
      assert paths[1..][..|files| - 1] == paths[..|files|][1..];
      assert HoldContents(paths[1..][..|files| - 1], fs, files[1..]);
      assert OpenFile(fs, paths[0]) == Ok(files[0]);
      FilesStopsAt(paths[1..], fs, files[1..], o, acc + Piece(files[0], o), EndsWithLf(files[0]));
      assert (acc + Piece(files[0], o)) + Body(files[1..], o) == acc + Body(files, o);
    }
  }

  /**
   * A file that exists but cannot be opened stops the run there: the header
   * (in header mode) and every earlier file's piece have been written,
   * nothing after it.
   */
  lemma UnopenableFileStopsRun(c: Concat, fs: FileSystem, files: seq<seq<byte>>)
    requires forall j :: 0 <= j < |c.paths| ==> c.paths[j] in fs
    requires |files| < |c.paths| && HoldContents(c.paths[..|files|], fs, files)
    requires fs[c.paths[|files|]].Unopenable?
    ensures Expected(c, fs)
            == Written(HeaderOf(files, c.options) + Body(files, c.options),
                       Err(FromIo(fs[c.paths[|files|]].err)))
  {
    if c.options.header && |files| > 0 {
      assert OpenFile(fs, c.paths[0]) == Ok(files[0]);
    }
    FilesStopsAt(c.paths, fs, files, c.options, HeaderOf(files, c.options), false);
  }

  /**
   * In newline mode every file's own bytes (before padding) end in a line
   * feed, and are empty only when the whole file ended in one and every line
   * was skipped. The decision looks at the whole file, before skipping.
   */
  lemma NewlineModeTerminatesEachFile(data: seq<byte>, o: Options)
    requires o.newline
    ensures var body := SkipLines(data, o.skip) + (if EndsWithLf(data) then [] else [LF]);
      Piece(data, o) == body + PadBytes(o)
      && (|body| == 0 || EndsWithLf(body))
      && (|body| == 0 <==> EndsWithLf(data) && o.skip >= LineCount(data))
  {
    SkipLinesCount(data, o.skip);
  }

  /**
   * An empty file, or an unterminated file whose lines were all skipped,
   * still contributes a line feed in newline mode.
   */
  lemma NewlineForExhaustedFile(data: seq<byte>, o: Options)
    requires o.newline && !EndsWithLf(data) && o.skip >= LineCount(data)
    ensures Piece(data, o) == [LF] + PadBytes(o)
  {
    SkipLinesCount(data, o.skip);
  }

  lemma {:induction false} BodyEndsWithLastPiece(files: seq<seq<byte>>, o: Options)
    requires |files| > 0
    ensures EndsWith(Body(files, o), Piece(files[|files| - 1], o))
  {
    var last := Piece(files[|files| - 1], o);
    if |files| == 1 {
      assert Body(files, o) == last;
    } else {
      BodyEndsWithLastPiece(files[1..], o);
      EndsWithAppend(Piece(files[0], o), Body(files[1..], o), last);
    }
  }

  lemma BodyEndsWithPadding(files: seq<seq<byte>>, o: Options, p: seq<byte>)
    requires |files| > 0 && o.padding == Some(p)
    ensures EndsWith(Body(files, o), p)
  {
    var last := Piece(files[|files| - 1], o);
    BodyEndsWithLastPiece(files, o);
    assert EndsWith(last, p);
    EndsWithTrans(Body(files, o), last, p);
  }

  /** In newline mode no final line feed follows the pieces. */
  lemma NewlineModeOutput(c: Concat, fs: FileSystem, files: seq<seq<byte>>)
    requires c.options.newline
    requires HoldContents(c.paths, fs, files) && |c.paths| > 0
    ensures Expected(c, fs).bytes == HeaderOf(files, c.options) + Body(files, c.options)
  {
    WriteAllReadable(c, fs, files);
    assert Trailer(c.options, LastEndsWithLf(files)) == [];
  }

  /** In newline mode the padding comes last in the output: it follows the last file too. */
  lemma PaddingFollowsLastFile(c: Concat, fs: FileSystem, files: seq<seq<byte>>, p: seq<byte>)
    requires c.options.newline && c.options.padding == Some(p)
    requires HoldContents(c.paths, fs, files) && |c.paths| > 0
    ensures EndsWith(Expected(c, fs).bytes, p)
  {
    NewlineModeOutput(c, fs, files);
    BodyEndsWithPadding(files, c.options, p);
    EndsWithAppend(HeaderOf(files, c.options), Body(files, c.options), p);
  }
}
