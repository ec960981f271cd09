/**
 * The `Concat` builder: options, paths, the header reader, the last-byte
 * helpers, and `write`, which streams every file (minus its skipped lines,
 * plus an optional line feed and padding) after an optional header line.
 */
module Concatenate {
  import opened Wrappers
  import opened Bytes
  import opened Lines
  import opened Errors
  import opened Devices
  import BufRead

  type Path = string

  /** What a path names: a regular file, or something that exists but cannot be opened. */
  datatype Entry = Regular(data: seq<byte>) | Unopenable(err: IoError)

  /** The file system the paths are resolved against. */
  type FileSystem = map<Path, Entry>

  /** `fs::metadata(path)`: fails only for a path that does not exist. */
  function Metadata(fs: FileSystem, p: Path): (r: Result<(), IoError>)
    ensures r.Ok? <==> p in fs
  {
    if p in fs then Ok(()) else Err(NOT_FOUND)
  }

  /** `File::open(path)` followed by reading the whole file. */
  function OpenFile(fs: FileSystem, p: Path): (r: Result<seq<byte>, IoError>)
    ensures r.Ok? <==> p in fs && fs[p].Regular?
    ensures r.Ok? ==> r.value == fs[p].data
    ensures p !in fs ==> r == Err(NOT_FOUND)
  {
    if p !in fs then Err(NOT_FOUND)
    else
      match fs[p]
      case Regular(data) => Ok(data)
      case Unopenable(err) => Err(err)
  }

  /** The configuration: lines to skip, header mode, newline mode, padding. */
  datatype Options = Options(skip: nat, header: bool, newline: bool, padding: Option<seq<byte>>)

  /** A configured concatenation of the files at `paths`. */
  datatype Concat = Concat(paths: seq<Path>, options: Options)

  /** `Concat::new()`: no paths, nothing skipped, every mode off, no padding. */
  function New(): (c: Concat)
    ensures |c.paths| == 0
    ensures c.options.skip == 0 && !c.options.header && !c.options.newline && c.options.padding.None?
  {
    Concat([], Options(0, false, false, None))
  }

  /** `open(paths)`: a new instance with these paths and the same options. */
  function Open(c: Concat, paths: seq<Path>): (r: Concat)
    ensures r.paths == paths && r.options == c.options
  {
    Concat(paths, c.options)
  }

  /** `newline(b)`: only the newline mode changes. */
  function WithNewline(c: Concat, b: bool): (r: Concat)
    ensures r.options.newline == b
    ensures r.paths == c.paths
    ensures r.options.skip == c.options.skip && r.options.header == c.options.header
    ensures r.options.padding == c.options.padding
  {
    c.(options := c.options.(newline := b))
  }

  /** `skip_line(n)`: only the skip count changes. */
  function SkipLine(c: Concat, n: nat): (r: Concat)
    ensures r.options.skip == n
    ensures r.paths == c.paths
    ensures r.options.header == c.options.header && r.options.newline == c.options.newline
    ensures r.options.padding == c.options.padding
  {
    c.(options := c.options.(skip := n))
  }

  /**
   * `header(b)`: sets the header mode and resets the skip count to 1, whatever
   * `b` is and whatever the count was.
   */
  function Header(c: Concat, b: bool): (r: Concat)
    ensures r.options.header == b && r.options.skip == 1
    ensures r.paths == c.paths
    ensures r.options.newline == c.options.newline && r.options.padding == c.options.padding
  {
    c.(options := c.options.(header := b, skip := 1))
  }

  /** `pad_with(p)`: only the padding changes. */
  function PadWith(c: Concat, padding: seq<byte>): (r: Concat)
    ensures r.options.padding == Some(padding)
    ensures r.paths == c.paths
    ensures r.options.skip == c.options.skip && r.options.header == c.options.header
    ensures r.options.newline == c.options.newline
  {
    c.(options := c.options.(padding := Some(padding)))
  }

  /** A later `skip_line(n)` overrides the skip count that `header(true)` set. */
  lemma SkipAfterHeaderWins(c: Concat, n: nat)
    ensures SkipLine(Header(c, true), n).options == c.options.(header := true, skip := n)
  {
  }

  /** An earlier `skip_line(n)` is lost once `header(..)` is called. */
  lemma HeaderAfterSkipResets(c: Concat, n: nat, b: bool)
    ensures Header(SkipLine(c, n), b).options == c.options.(header := b, skip := 1)
  {
  }

  // ---------------------------------------------------------------------
  // Last byte of a stream.
  // ---------------------------------------------------------------------

  /**
   * `get_last_byte`: seeks one byte before the end, reads that byte and
   * rewinds to the start. Any failure of the first seek (an empty stream in
   * particular) is reported as `Seek` and leaves the stream untouched; an
   * I/O error from the read or from the rewind is passed on as `Io`.
   */
  function GetLastByte(d: Device): (p: Probe<byte, Error>)
    ensures p.after.data == d.data
    ensures p.result.Ok? <==> |d.data| > 0 && Healthy(d)
    ensures p.result.Ok? ==> p.result.value == d.data[|d.data| - 1] && p.after == d.(pos := 0)
    ensures |d.data| == 0 || d.endSeekFault.Some? ==> p == Probe(Err(Errors.New(Seek)), d)
    ensures |d.data| > 0 && d.endSeekFault.None? && d.readFault.Some? ==>
              p == Probe(Err(FromIo(d.readFault.value)), d.(pos := |d.data| - 1))
    ensures |d.data| > 0 && d.endSeekFault.None? && d.readFault.None? && d.startSeekFault.Some? ==>
              p == Probe(Err(FromIo(d.startSeekFault.value)), d.(pos := |d.data|))
  {
    match SeekFromEnd(d, -1)
    case Err(_) => Probe(Err(Errors.New(Seek)), d)
    case Ok(atLast) =>
      match ReadOne(atLast)
      case Err(e) => Probe(Err(FromIo(e)), atLast)
      case Ok((b, afterRead)) =>
        match SeekFromStart(afterRead, 0)
        case Err(e) => Probe(Err(FromIo(e)), afterRead)
        case Ok(rewound) => Probe(Ok(b), rewound)
  }

  /**
   * `ends_with_newline`: whether the last byte is a line feed; an empty
   * stream (any `Seek` failure) answers `false`, other errors pass through.
   */
  function EndsWithNewline(d: Device): (p: Probe<bool, Error>)
    ensures p.after == GetLastByte(d).after
    ensures p.result == Ok(true) <==> Healthy(d) && EndsWithLf(d.data)
    ensures Healthy(d) ==> p.result == Ok(EndsWithLf(d.data))
    ensures |d.data| == 0 ==> p.result == Ok(false)
    ensures p.result.Err? ==>
              GetLastByte(d).result == Err(p.result.error) && p.result.error.Kind() != Seek
    ensures GetLastByte(d).result.Err? && GetLastByte(d).result.error.Kind() != Seek ==>
              p.result == Err(GetLastByte(d).result.error)
  {
    var probe := GetLastByte(d);
    match probe.result
    case Ok(v) => Probe(Ok(v == LF), probe.after)
    case Err(e) =>
      if e.Kind() == Seek then Probe(Ok(false), probe.after) else Probe(Err(e), probe.after)
  }

  // ---------------------------------------------------------------------
  // Header.
  // ---------------------------------------------------------------------

  /**
   * `get_header`: the first line of the first file, line feed included, or
   * the whole file when it has no line feed. No paths is `NothingPassed`.
   */
  function GetHeader(c: Concat, fs: FileSystem): (r: Result<seq<byte>, Error>)
    ensures r == Err(Errors.New(NothingPassed)) <==> |c.paths| == 0
    ensures |c.paths| > 0 && OpenFile(fs, c.paths[0]).Err? ==>
              r == Err(FromIo(OpenFile(fs, c.paths[0]).error))
    ensures |c.paths| > 0 && OpenFile(fs, c.paths[0]).Ok? ==> r.Ok?
    ensures r.Ok? ==>
              var data := fs[c.paths[0]].data;
              |c.paths| > 0 && OpenFile(fs, c.paths[0]).Ok?
              && |r.value| <= |data| && r.value == data[..|r.value|]
              && (forall i :: 0 <= i < |r.value| - 1 ==> r.value[i] != LF)
              && (EndsWithLf(r.value) || (r.value == data && LF !in data))
  {
    if |c.paths| == 0 then Err(Errors.New(NothingPassed))
    else
      match OpenFile(fs, c.paths[0])
      case Err(e) => Err(FromIo(e))
      case Ok(data) => FirstLineShape(data); Ok(FirstLine(data))
  }

  // ---------------------------------------------------------------------
  // What `write` produces.
  // ---------------------------------------------------------------------

  /** The bytes handed to the writer, and how `write` ended. */
  datatype Written = Written(bytes: seq<byte>, status: Result<(), Error>)

  /** The padding bytes, or nothing. */
  function PadBytes(o: Options): seq<byte> {
    match o.padding
    case Some(p) => p
    case None => []
  }

  /**
   * The contribution of one file of contents `data`: what is left after
   * skipping, a line feed when newline mode is on and the whole file did not
   * end in one, then the padding.
   */
  function Piece(data: seq<byte>, o: Options): seq<byte> {
    SkipLines(data, o.skip) + (if o.newline && !EndsWithLf(data) then [LF] else []) + PadBytes(o)
  }

  /** The line feed written after the loop when newline mode is off and the last file lacked one. */
  function Trailer(o: Options, hasEof: bool): seq<byte> {
    if !o.newline && !hasEof then [LF] else []
  }

  /**
   * The file loop, from the remaining `paths`, with `acc` already written and
   * `hasEof` telling whether the last file processed ended in a line feed.
   */
  function Files(paths: seq<Path>, fs: FileSystem, o: Options, acc: seq<byte>, hasEof: bool): Written
    decreases |paths|
  {
    if |paths| == 0 then Written(acc + Trailer(o, hasEof), Ok(()))
    else
      match OpenFile(fs, paths[0])
      case Err(e) => Written(acc, Err(FromIo(e)))
      case Ok(data) => Files(paths[1..], fs, o, acc + Piece(data, o), EndsWithLf(data))
  }

  /**
   * Reference semantics of `write`: the header (if asked for), then a check
   * that every path exists, then the file loop.
   */
  function Expected(c: Concat, fs: FileSystem): Written {
    var header := if c.options.header then GetHeader(c, fs) else Ok([]);
    if header.Err? then Written([], Err(header.error))
    else if exists k :: 0 <= k < |c.paths| && c.paths[k] !in fs then
      Written(header.value, Err(FromIo(NOT_FOUND)))
    else Files(c.paths, fs, c.options, header.value, false)
  }

  /** One `read_until` call on a reader that has skipped `counter` lines skips one more. */
  method SkipOneLine(data: seq<byte>, counter: nat, reader: BufRead.Reader) returns (next: BufRead.Reader)
    requires reader == BufRead.Reader(data, SkipOffset(data, counter))
    ensures next == BufRead.Reader(data, SkipOffset(data, counter + 1))
  {
    var line;
    next, line := BufRead.ReadUntilNewline(reader);
    SkipOffsetNext(data, counter);
  }

  /** Reads `n` lines off a fresh reader over `data`, one `read_until` call each. */
  method SkipLeadingLines(data: seq<byte>, n: nat) returns (reader: BufRead.Reader)
    ensures reader == BufRead.Reader(data, SkipOffset(data, n))
  {
    reader := BufRead.Reader(data, 0);
    var counter := 0;
    while counter < n
      invariant counter <= n
      invariant reader == BufRead.Reader(data, SkipOffset(data, counter))
    {
      reader := SkipOneLine(data, counter, reader);
      counter := counter + 1;
    }
  }

  /**
   * The body of the file loop for one opened file: probes whether the whole
   * file ends in a line feed, skips lines, copies the rest, then adds the
   * line feed and the padding as configured.
   */
  method EmitFile(data: seq<byte>, o: Options) returns (piece: seq<byte>, hasEof: bool)
    ensures piece == Piece(data, o)
    ensures hasEof == EndsWithLf(data)
  {
    var probe := EndsWithNewline(Fresh(data));
    hasEof := probe.result.value;
    // `get_last_byte` rewinds the file, so the buffered reader starts at offset 0.
    assert probe.after.pos == 0;
    var reader := SkipLeadingLines(data, o.skip);
    piece := BufRead.CopyToEnd(reader);
    if o.newline && !hasEof {
      piece := piece + [LF];
    }
    if o.padding.Some? {
      piece := piece + o.padding.value;
    }
  }

  /** Once the header is known and every path exists, `write` is the file loop. */
  lemma ExpectedIsFileLoop(c: Concat, fs: FileSystem, header: seq<byte>)
    requires (if c.options.header then GetHeader(c, fs) else Ok([])) == Ok(header)
    requires forall k :: 0 <= k < |c.paths| ==> c.paths[k] in fs
    ensures Expected(c, fs) == Files(c.paths, fs, c.options, header, false)
  {
  }

  /**
   * `write`: streams the concatenation to the writer: the header, a check
   * that every path exists, then every file in order, then the final line
   * feed when newline mode is off and the last file lacked one.
   */
  method Write(c: Concat, fs: FileSystem) returns (w: Written)
    ensures w == Expected(c, fs)
  {
    var o := c.options;
    var header: seq<byte> := [];
    if o.header {
      var h := GetHeader(c, fs);
      if h.Err? {
        return Written([], Err(h.error));
      }
      header := h.value;
    }
    var out := header;

    // Every path must exist before any file is read.
    var i := 0;
    while i < |c.paths|
      invariant i <= |c.paths|
      invariant forall k :: 0 <= k < i ==> c.paths[k] in fs
    {
      var m := Metadata(fs, c.paths[i]);
      if m.Err? {
        return Written(out, Err(FromIo(m.error)));
      }
      i := i + 1;
    }
    ExpectedIsFileLoop(c, fs, header);

    var hasEof := false;
    i := 0;
    while i < |c.paths|
      invariant i <= |c.paths|
      invariant Files(c.paths[i..], fs, o, out, hasEof) == Expected(c, fs)
    {
      assert c.paths[i..][1..] == c.paths[i + 1..];
      var f := OpenFile(fs, c.paths[i]);
      if f.Err? {
        return Written(out, Err(FromIo(f.error)));
      }
      var piece;
      piece, hasEof := EmitFile(f.value, o);
      out := out + piece;
      i := i + 1;
    }

    if !o.newline && !hasEof {
      out := out + [LF];
    }
    w := Written(out, Ok(()));
  }
}
