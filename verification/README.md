# fcc — a Dafny model of the file concatenation engine

`fcc` concatenates files. This project models its self-contained engine and
proves properties of that model. The engine is the `Concat` builder in
`src/concat.rs`:

- options for the number of lines skipped at the head of each file, a header
  mode, a newline mode and a padding;
- `write`, which streams every file after an optional header line.

The model also covers:

- the two last-byte helpers, in `src/concat.rs` and in the stand-alone
  copy `src/util.rs`;
- the crate's error type (`src/error.rs`);
- the pure parts of the two command-line front ends. These are how
  standard input is cut into paths, in both `src/main.rs` and
  `src/bin/fcc.rs`, and which skip, newline and padding settings each flag
  combination asks the merging library for (`src/main.rs`).

Files are immutable byte strings in a map from path to entry. An entry is
either a regular file or something that exists but fails to open with a
given I/O error. `write` is modelled twice:

- `Concatenate.Expected` is a pure reference function: the bytes handed to
  the writer and the final status.
- `Concatenate.Write` is a method that follows the source loop for loop:
  header, metadata pass, then `read_until` skipping, the
  `fill_buf`/`consume` copy, and the newline and padding writes.

`Write` is proved equal to `Expected`. `ConcatProperties` then restates
`Expected` over file contents: header, then each file's piece, then the
final line-feed rule. The streams behind `get_last_byte` are devices with
data, a cursor and optional faults, one each for a seek from the end, a
read and a seek to an absolute position, so that the rewind at the end of
`get_last_byte` can fail on its own. The buffered reader is
modelled with the standard library's 8192-byte buffer.

Modules, one per file: `Wrappers`, `Bytes` (`byte` as a newtype over
0..255), `Lines`, `BufRead`, `Errors`, `Devices`, `Util`, `Concatenate`,
`ConcatProperties`, `Tokenize`, `Utf8`, `MainCli`, `FccCli`.

Decisions:

- **The code wins over the doc comments of `get_last_byte`.** Both copies
  document an `Io` error for "other errors", yet the code turns *every*
  failure of the first seek into `Seek` (`src/concat.rs`) or `SeekNegative`
  (`src/util.rs`). The model follows the code, so `ends_with_newline`
  answers `Ok(false)` for a stream that refuses to seek from its end, not
  only for an empty one. A failed read or rewind after that first seek is
  passed on as `Io`.
- **`src/util.rs` gets its own error kind.** It reports `SeekNegative`,
  which the crate's `ErrorKind` does not have, so its model uses its own
  kind type (`Util.UtilErrorKind`). `Util.SameAsConcatCopy` proves the two
  copies agree, with `SeekNegative` standing for `Seek`.
- **`src/main.rs` reads standard input before it checks any mode string.**
  So in `MainCli.Run` a read error comes before a panic about an unexpected
  mode. `-i` paths are used unchanged there. The older binary
  (`src/bin/fcc.rs`) trims each `-i` value.
- **`Concat::write` is not the merging library.** The library used by
  `src/main.rs` places padding where `-P` says (between files by default)
  and adds no final line feed. `Concat::write` pads after every file, the last one included, and
  writes a final line feed when newline mode is off and the last file lacks
  one. The model follows `src/concat.rs`.
- **Where `src/main.rs` stops.** The merge itself is another library's
  code. `MainCli` therefore stops at the ordered list of calls `run` makes
  on the merger, or the panic message, or the read error.

## Model

| member | source | states |
|---|---|---|
| Errors.New | src/error.rs:17-24 | the error's `kind()` and `into_kind()` both give back the kind it was built from |
| Errors.FromIo | src/error.rs:66-70 | the `?` conversion of an I/O error has kind `Io` wrapping that same error |
| Errors.Display | src/error.rs:51-61 | `Io` shows the I/O error's own text, `NothingPassed` and `Seek` show their fixed sentences; displaying the hidden variant is excluded by precondition |
| Errors.DisplayOfIo | src/error.rs:54-68 | a converted I/O error displays exactly as the I/O error |
| Errors.DisplayTellsKindsApart | src/error.rs:55-58 | `NothingPassed` and `Seek` display different texts |
| Devices.SeekFromEnd | src/util.rs:31 | seeking relative to the end succeeds iff there is no fault on such seeks and the target is not negative, and then moves only the cursor |
| Devices.SeekFromStart | src/util.rs:35 | seeking to an absolute offset succeeds iff there is no fault on such seeks, and then moves only the cursor |
| Devices.ReadOne | src/util.rs:34 | a one-byte `read_exact` succeeds iff there is no read fault and a byte under the cursor, returning it and advancing by one |
| Util.GetLastByte | src/util.rs:29-38 | succeeds iff the stream is non-empty and fault-free, returning its last byte with the stream otherwise unchanged and the cursor rewound to 0; an empty stream or a failed first seek is `SeekNegative` with the stream untouched; otherwise a failed read is its `Io` error with the cursor on the last byte, and a failed rewind after a good read is the rewind's `Io` error with the cursor at the end |
| Util.RewindFailurePassesThrough | src/util.rs:34-35 | a rewind that fails after the last byte was read makes `get_last_byte` fail with the rewind's error, and `ends_with_newline` passes that error on |
| Util.EndsWithNewline | src/util.rs:72-84 | `Ok(true)` iff the stream is fault-free and ends in a line feed; a healthy stream answers whether it does; an empty one answers `Ok(false)`; every error from `get_last_byte` other than `SeekNegative` is returned unchanged, and only such errors are returned |
| Util.DocExample | src/util.rs:20-28 | the documented example `[1, 2, 3, b'\n']` has last byte `b'\n'` |
| Util.SameAsConcatCopy | src/util.rs:29-84 | the stand-alone copy and the one in `src/concat.rs` leave the same stream, return the same byte and the same I/O errors, `SeekNegative` where the other says `Seek`, and agree on `ends_with_newline` |
| Concatenate.Metadata | src/concat.rs:204-208 | the metadata pre-pass fails exactly for a path that does not exist |
| Concatenate.OpenFile | src/concat.rs:213 | opening succeeds exactly for a regular file and yields its contents; a missing path fails with not-found |
| Concatenate.New | src/concat.rs:63-68 | a new instance has no paths, skips nothing, has header and newline modes off and no padding |
| Concatenate.Open | src/concat.rs:86-91 | `open(paths)` replaces the paths and copies the options unchanged |
| Concatenate.WithNewline | src/concat.rs:108-111 | `newline(b)` sets the newline mode and changes nothing else |
| Concatenate.SkipLine | src/concat.rs:128-131 | `skip_line(n)` sets the skip count and changes nothing else |
| Concatenate.Header | src/concat.rs:155-159 | `header(b)` sets the header mode and resets the skip count to 1 whatever `b` is |
| Concatenate.PadWith | src/concat.rs:175-178 | `pad_with(p)` sets the padding to `p` and changes nothing else |
| Concatenate.SkipAfterHeaderWins | src/concat.rs:133-139 | a `skip_line(n)` after `header(true)` overrides the count of 1 |
| Concatenate.HeaderAfterSkipResets | src/concat.rs:155-159 | a `skip_line(n)` before `header(b)` is lost: the count becomes 1 |
| Concatenate.GetLastByte | src/concat.rs:303-312 | as `Util.GetLastByte`, with the crate's `Seek` kind for an empty stream or a failed first seek, and the read's or the rewind's I/O error as `Io` |
| Concatenate.EndsWithNewline | src/concat.rs:346-358 | `Ok(true)` iff fault-free and ending in a line feed; `Ok(false)` for an empty stream; every error from `get_last_byte` other than `Seek` is returned unchanged, and only such errors are returned |
| Concatenate.GetHeader | src/concat.rs:266-277 | no paths is `NothingPassed` (and only then); an unopenable first file is its I/O error; a first file that opens always succeeds, with the prefix of that file ending at its first line feed, or the whole file when it has none |
| Concatenate.SkipOneLine | src/concat.rs:220-223 | one more `read_until` call moves the reader from the `counter`-th line offset to the next one |
| Concatenate.SkipLeadingLines | src/concat.rs:217-224 | the skip loop leaves the reader at the offset reached after `n` `read_until` calls |
| Concatenate.EmitFile | src/concat.rs:213-242 | one file's output is what is left after skipping, a line feed when newline mode is on and the whole file did not end in one, then the padding; the line-feed flag is probed on the whole file |
| Concatenate.Write | src/concat.rs:194-251 | the streaming `write` produces exactly the reference bytes and status, including the partial output before an error |
| Lines.LineEnd | src/concat.rs:221 | the first line's length: no line feed before its end, and either its last byte is a line feed or it runs to the end of line-feed-free data |
| Lines.LineEndUnique | src/concat.rs:221 | any length with those properties is the first line's length |
| Lines.SkipOffset | src/concat.rs:217-224 | after any number of `read_until` calls the cursor is at the start, the end, or just after a line feed |
| Lines.FirstLineShape | src/concat.rs:271-276 | the header line is a prefix of the file with exactly one line feed, its last byte, or is the whole line-feed-free file |
| Lines.FirstLineThenRest | src/concat.rs:133-139 | the first line followed by the file minus one skipped line is the whole file |
| Lines.DropLineCount | src/concat.rs:221 | one `read_until` call removes exactly one line, and nothing from empty data |
| Lines.SkipLinesCount | src/concat.rs:217-224 | skipping `n` lines leaves `LineCount - n` lines, and none (empty data, no error) once `n` reaches the line count |
| Lines.SkippedPrefixLines | src/concat.rs:217-224 | the skipped prefix is exactly `min(n, LineCount)` whole lines |
| BufRead.FillBuf | src/concat.rs:227-228 | `fill_buf` yields at most one buffer of the next bytes, empty only at the end of the data |
| BufRead.Consume | src/concat.rs:233 | `consume(n)` moves the cursor exactly `n` bytes forward over the same data |
| BufRead.ReadUntilNewline | src/concat.rs:221 | the chunked `read_until` loop returns the first line after the cursor and moves the cursor past it |
| BufRead.CopyToEnd | src/concat.rs:226-234 | the `fill_buf`/`consume` loop copies exactly the bytes after the cursor |
| ConcatProperties.FilesOverContents | src/concat.rs:211-243 | over regular files, the file loop writes every piece in order and then the final line-feed rule for the last file |
| ConcatProperties.WriteAllReadable | src/concat.rs:194-251 | with every path a regular file, `write` succeeds with header, pieces in order, then a line feed iff newline mode is off and the last file lacked one |
| ConcatProperties.BodyWithoutExtras | src/concat.rs:226-242 | without newline mode and padding, each file contributes exactly what is left after skipping |
| ConcatProperties.RemaindersOfZero | src/concat.rs:217 | skipping zero lines leaves every file whole |
| ConcatProperties.PlainConcatenation | src/concat.rs:211-248 | with default options the output is the files byte for byte, plus one line feed when the last file lacks one |
| ConcatProperties.HeaderModeKeepsFirstFileWhole | src/concat.rs:194-224 | in header mode with skip 1, newline mode off and no padding (what `header(true)` alone sets), every path a regular file: the first file comes out whole, its header line first, and every later file without its first line, then the final line-feed rule |
| ConcatProperties.NoPaths | src/concat.rs:196-248 | with no paths, header mode fails with `NothingPassed` before writing anything; otherwise the output is a lone line feed, or nothing in newline mode |
| ConcatProperties.MissingPathWritesNoFile | src/concat.rs:196-208 | a missing path anywhere fails the run before any file's bytes; with header mode off it fails with not-found and writes nothing; in header mode with a regular first file it fails with not-found after that file's first line; in header mode with an unusable first file `get_header` fails first, with that file's own error |
| ConcatProperties.FilesStopsAt | src/concat.rs:212-213 | the file loop stops at the first unopenable file, after the pieces of the files before it |
| ConcatProperties.UnopenableFileStopsRun | src/concat.rs:196-213 | an existing but unopenable file ends `write` with its I/O error after exactly the header (in header mode) and the earlier files' pieces |
| ConcatProperties.NewlineModeTerminatesEachFile | src/concat.rs:214-238 | in newline mode each file's bytes before padding end in a line feed, and are empty iff the whole file ended in one and every line was skipped |
| ConcatProperties.NewlineForExhaustedFile | src/concat.rs:236-238 | an empty or fully skipped unterminated file still contributes a line feed in newline mode |
| ConcatProperties.PaddingFollowsLastFile | src/concat.rs:240-242 | in newline mode the output ends with the padding: it follows the last file too |
| Tokenize.Trim | src/main.rs:144 | the trimmed text is a middle slice of the input that neither starts nor ends with whitespace |
| Tokenize.TrimCutsWhitespace | src/main.rs:144 | everything trimming cuts off, on either side, is whitespace |
| Tokenize.TrimEmpty | src/main.rs:143-144 | trimming gives the empty string exactly for all-whitespace text |
| Tokenize.TrimIdempotent | src/main.rs:144 | trimming twice is trimming once |
| Tokenize.TrimKeepsNonBlankEnds | src/main.rs:144 | text that neither starts nor ends with whitespace is returned unchanged |
| Tokenize.SplitOn | src/main.rs:142 | splitting yields at least one piece and no piece holds a separator |
| Tokenize.SplitRejoin | src/main.rs:142 | there is one piece more than separators, and putting the separators back between the pieces gives the text back |
| Tokenize.SplitUnique | src/main.rs:142 | any separator-free cut of the text that rejoins to it is the split |
| Tokenize.SplitWithoutSeparator | src/main.rs:142 | separator-free text is a single piece |
| Tokenize.SplitAppend | src/main.rs:142 | splitting at a separator splits the piece list there |
| Tokenize.NonEmpty | src/main.rs:143 | the filter keeps only non-empty pieces and never adds any |
| Tokenize.NonEmptyMembers | src/main.rs:143 | a piece is kept exactly when it occurs and is non-empty |
| Tokenize.TrimAll | src/main.rs:144 | trimming each piece keeps the count and trims piece by piece, in order |
| Tokenize.TokensAppend | src/main.rs:141-146 | paths of text cut at a separator are the paths of each side, in order |
| Tokenize.TokensOfPiece | src/main.rs:141-146 | separator-free text is no path when empty and one trimmed path otherwise |
| Tokenize.TokensOfTwoPieces | src/bin/fcc.rs:99-103 | two non-empty separator-free pieces around a separator are two trimmed paths |
| Tokenize.TrimKeepsNoSeparator | src/main.rs:142-144 | trimming a separator-free piece adds no separator |
| Tokenize.Tokens | src/main.rs:141-146 | the split, filter and trim chain that both binaries use (`src/bin/fcc.rs` once per separator set); no resulting path holds a separator |
| Tokenize.EmptyTokenInKept | src/main.rs:143-144 | among kept pieces, trimming yields an empty path exactly for a blank one |
| Tokenize.EmptyTokenFromBlankPiece | src/main.rs:141-146 | an empty path appears exactly when some piece is non-empty whitespace, because the filter runs before the trim |
| Utf8.EncodeChar | src/main.rs:205 | a character takes one to four bytes, one exactly for ASCII, which encodes as itself |
| Utf8.Encode | src/main.rs:205 | the UTF-8 bytes of a string number between its length and four times it |
| Utf8.DecodeEncodedChar | src/main.rs:205 | decoding the bytes of one character gives it back and consumes exactly its bytes |
| Utf8.DecodeEncode | src/main.rs:205 | decoding the UTF-8 bytes of any string gives that string back |
| Utf8.EncodeAppend | src/main.rs:205 | the bytes of a concatenation are the concatenation of the bytes |
| Utf8.EncodeAscii | src/main.rs:205 | ASCII text encodes byte for character |
| MainCli.Defaults | src/main.rs:85-120 | without flags the modes are `lines`, `between` and `lf`, no newline and no padding |
| MainCli.StdinPaths | src/main.rs:141-146 | standard input cut at spaces and newlines, empty pieces dropped, the rest trimmed; no path holds a space or a newline |
| MainCli.LinesModeSkips | src/main.rs:154-172 | in lines mode every call is a head or tail skip counted in lines (`Lines` or `LinesOnce`), one call per flag present among `-s`, `-S`, `-H`, `-e`, `-E`, `-T` |
| MainCli.LinesHeadSkips | src/main.rs:155-163 | the head part: only `SkipHead` calls in lines, one per flag present among `-s`, `-S`, `-H` |
| MainCli.LinesTailSkips | src/main.rs:164-172 | the tail part: only `SkipTail` calls in lines, one per flag present among `-e`, `-E`, `-T` |
| MainCli.BytesModeSkips | src/main.rs:174-187 | in bytes mode every call is a head or tail skip counted in bytes (`Bytes` or `BytesOnce`), one call per flag present among `-s`, `-S`, `-e`, `-E`, so `-H` and `-T` play no part |
| MainCli.InputPaths | src/main.rs:135-150 | `-i` paths are used unchanged whatever standard input holds; otherwise a read error ends the run, and a successful read is tokenized |
| MainCli.SkipCalls | src/main.rs:153-189 | the skip mode is `lines` or `bytes`, and any other value panics with its message |
| MainCli.NewlineCalls | src/main.rs:191-201 | an unknown style panics whether or not `-n` is given; otherwise exactly one call with `-n`, in the named style, and none without |
| MainCli.PadCalls | src/main.rs:203-225 | an unknown pad mode panics whether or not `-p` is given; otherwise exactly one padding call with `-p` and none without |
| MainCli.Configure | src/main.rs:152-225 | succeeds iff all three parts do, and then lists skips, newline and padding in that order |
| MainCli.Run | src/main.rs:133-225 | a read error ends the run first, then an unexpected mode panics, and otherwise the merge gets exactly the input paths and the configuring calls |
| MainCli.StdinPathsAppend | src/main.rs:141-146 | cutting standard input at a space or a newline cuts the path list there |
| MainCli.OnePiece | src/main.rs:141-146 | text without spaces and newlines is one trimmed path, or none when empty |
| MainCli.MixedSeparators | src/main.rs:142 | spaces and newlines separate paths alike, in order |
| MainCli.BlankPieceBecomesEmptyPath | src/main.rs:142-144 | a non-empty blank piece between spaces is kept and trims to an empty path |
| MainCli.CarriageReturnBecomesEmptyPath | src/main.rs:142-144 | a lone `\r` between two spaces becomes an empty path |
| MainCli.InputFlagIgnoresStdin | src/main.rs:135-136 | with `-i`, standard input makes no difference and the merge gets the `-i` paths |
| MainCli.StdinErrorComesFirst | src/main.rs:137-139 | without `-i`, a failed read ends the run before any option is looked at |
| MainCli.DefaultsConfigureNothing | src/main.rs:152-225 | the defaults make no configuring call |
| MainCli.HeadOnceIsSkipHeadOnceOne | src/main.rs:158-163 | in lines mode `-H` asks for exactly what `-S 1` does |
| MainCli.TailOnceIsSkipTailOnceOne | src/main.rs:167-172 | in lines mode `-T` asks for exactly what `-E 1` does |
| MainCli.BytesModeIgnoresHeadTailOnce | src/main.rs:174-187 | in bytes mode `-H` and `-T` change nothing |
| MainCli.BytesModeHeadOnceDiffers | src/main.rs:174-187 | in bytes mode `-H` asks for nothing while `-S 1` asks for `BytesOnce(1)` |
| MainCli.SkipUnitFollowsMode | src/main.rs:153-189 | every skip is counted in lines exactly in lines mode |
| MainCli.LinesModeHeadSkips | src/main.rs:154-163 | in lines mode a head skip is asked for exactly by `-s` (`Lines`), `-S` (`LinesOnce`) or `-H` (`LinesOnce(1)`) |
| MainCli.LinesModeTailSkips | src/main.rs:164-172 | in lines mode a tail skip is asked for exactly by `-e`, `-E` or `-T` |
| MainCli.BytesModeHeadSkips | src/main.rs:175-180 | in bytes mode a head skip is asked for exactly by `-s` (`Bytes`) or `-S` (`BytesOnce`) |
| MainCli.BytesModeTailSkips | src/main.rs:181-186 | in bytes mode a tail skip is asked for exactly by `-e` or `-E` |
| MainCli.SkipsAreSkips | src/main.rs:153-189 | the skip part holds head and tail skips only |
| MainCli.ForcedNewlineOnlyWithFlag | src/main.rs:191-201 | a newline is forced exactly with `-n`, in the style `-N` names |
| MainCli.BadNewlineStylePanics | src/main.rs:198-200 | an unknown newline style panics even without `-n` |
| MainCli.SkipModeCheckedFirst | src/main.rs:188 | an unknown skip mode panics before anything else is checked |
| MainCli.NoPaddingWithoutFlag | src/main.rs:203-225 | padding is configured only with `-p`, and then as the last call |
| MainCli.PadModeNamesPlace | src/main.rs:204-212 | `beforestart`, `afterend` and `between` put the padding's bytes before, after or between |
| MainCli.AllPadsEveryPlace | src/main.rs:213-219 | `all` puts the same padding bytes in all three places |
| MainCli.PaddingBytesDecode | src/main.rs:204-212 | in every pad mode the padding bytes, in each place `all` fills, are the UTF-8 encoding of the `-p` text, decoding back to it |
| FccCli.StdinPaths | src/bin/fcc.rs:96-112 | the space-separated paths when there are at least two, otherwise the newline-separated ones |
| FccCli.TrimmedInputs | src/bin/fcc.rs:89-94 | every `-i` value, trimmed, in order |
| FccCli.InputPaths | src/bin/fcc.rs:89-113 | `-i` values take priority over standard input; a read error ends the run |
| FccCli.SpaceSplitKeepsInnerNewline | src/bin/fcc.rs:99-106 | two non-empty space-free pieces joined by a space are exactly those two pieces trimmed, so a newline inside a piece survives |
| FccCli.TwoSpacedPieces | src/bin/fcc.rs:99-103 | the space split of two non-empty pieces is the two trimmed pieces |
| FccCli.EmbeddedNewline | src/bin/fcc.rs:99-106 | `a b\nc` gives the paths `a` and `b\nc` |
| FccCli.NoSpaceFallsBackToNewlines | src/bin/fcc.rs:105-112 | text without spaces is split at newlines |
| FccCli.NewlineFallbackOrder | src/bin/fcc.rs:107-112 | in the fallback, paths keep their order across newlines |
| FccCli.PathsHaveNoSeparator | src/bin/fcc.rs:99-112 | no path holds a space when the space split is used, nor a newline when the newline split is |
| FccCli.InputFlagIgnoresStdin | src/bin/fcc.rs:89-95 | with `-i`, standard input is never consulted |

## Left out

- The merging library behind `src/main.rs` (`FileMerger` and the skipping, trimming and padding it performs) is not part of this model. `MainCli` ends at the calls made on it.
- Real I/O. Files are contents in a map, and reading standard input is a parameter that holds either the text or an I/O error. Operating-system error texts are abstract strings.
- Read failures of an opened file: reading an opened regular file never fails in the model, so the `?` exits of `ends_with_newline`, `read_until` and `fill_buf` in `write` and `get_header` (`src/concat.rs`:214, 221, 227, 274) are never taken there. The devices behind `get_last_byte` on their own keep their read and seek faults.
- Buffering: the buffered reader's refills are modelled with a fixed 8192-byte buffer. Other capacities behave the same and are not stated.
- Partial writes: `writer.write` may write only part of its buffer. The model assumes every write is complete, and a writer that never fails.
- Directories: `fs::metadata(..).is_file()` filters the paths into a list that is never used. The model keeps only the not-found failure of the metadata pass, and treats every existing path as a regular file or an unopenable one.
- Argument parsing: structopt/clap, `conflicts_with` and `parse::<usize>` failures are out. Numbers arrive as `nat`, and `usize` bounds are not modelled.
- The option wiring of `src/bin/fcc.rs` is out. It calls `skip_start`, `skip_end` and `use_crlf`, which `Concat` does not define, so only its path reading is modelled.
- Output plumbing: choosing standard output or a file, stderr messages and exit codes.
- `From<Error> for io::Error` only wraps the error for the caller's I/O stack, so it is out.
- The `Display` of the hidden `__Nonexhaustive` variant is unreachable and excluded by precondition.
- Errors.Display: an `Io` error's text is the stored message, not the operating system's formatting.
- MainCli.PadCalls: its contract states the count and kind of the call. Which pad mode gives which placement is stated by `MainCli.PadModeNamesPlace` and `MainCli.AllPadsEveryPlace`.
- Concrete strings: `a b\nc` in `FccCli.EmbeddedNewline` is the only fully concrete input. `MainCli.CarriageReturnBecomesEmptyPath` fixes the middle `" \r "` between arbitrary texts. Every other tokenizer property is stated over arbitrary text.
