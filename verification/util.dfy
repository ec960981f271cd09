/**
 * The stand-alone copy of the last-byte helpers. It reports an empty stream
 * with its own `SeekNegative` kind, which the crate's error enum lacks, so it
 * carries a kind type of its own here.
 */
module Util {
  import opened Wrappers
  import opened Bytes
  import opened Errors
  import opened Devices
  import Concatenate

  /** The kinds this copy can report. */
  datatype UtilErrorKind = UtilIo(err: IoError) | SeekNegative

  /**
   * `get_last_byte`: the final byte, with the cursor rewound to 0. Any
   * failure of the first seek, an empty stream in particular, is
   * `SeekNegative`, and nothing is read. After that, an I/O error from the
   * read or from the rewind is passed on, with the cursor left where the
   * failing step found it.
   */
  function GetLastByte(d: Device): (p: Probe<byte, UtilErrorKind>)
    ensures p.after.data == d.data
    ensures p.result.Ok? <==> |d.data| > 0 && Healthy(d)
    ensures p.result.Ok? ==> p.result.value == d.data[|d.data| - 1] && p.after == d.(pos := 0)
    ensures |d.data| == 0 || d.endSeekFault.Some? ==> p == Probe(Err(SeekNegative), d)
    ensures |d.data| > 0 && d.endSeekFault.None? && d.readFault.Some? ==>
              p == Probe(Err(UtilIo(d.readFault.value)), d.(pos := |d.data| - 1))
    ensures |d.data| > 0 && d.endSeekFault.None? && d.readFault.None? && d.startSeekFault.Some? ==>
              p == Probe(Err(UtilIo(d.startSeekFault.value)), d.(pos := |d.data|))
  {
    match SeekFromEnd(d, -1)
    case Err(_) => Probe(Err(SeekNegative), d)
    case Ok(atLast) =>
      match ReadOne(atLast)
      case Err(e) => Probe(Err(UtilIo(e)), atLast)
      case Ok((b, afterRead)) =>
        match SeekFromStart(afterRead, 0)
        case Err(e) => Probe(Err(UtilIo(e)), afterRead)
        case Ok(rewound) => Probe(Ok(b), rewound)
  }

  /**
   * `ends_with_newline`: `true` exactly for a readable non-empty stream whose
   * last byte is a line feed; `SeekNegative` becomes `false`; any other error
   * is passed on unchanged.
   */
  function EndsWithNewline(d: Device): (p: Probe<bool, UtilErrorKind>)
    ensures p.after == GetLastByte(d).after
    ensures p.result == Ok(true) <==> Healthy(d) && EndsWithLf(d.data)
    ensures Healthy(d) ==> p.result == Ok(EndsWithLf(d.data))
    ensures |d.data| == 0 ==> p.result == Ok(false)
    ensures p.result.Err? ==> GetLastByte(d).result == Err(p.result.error) && p.result.error != SeekNegative
    ensures GetLastByte(d).result.Err? && GetLastByte(d).result.error != SeekNegative ==>
              p.result == Err(GetLastByte(d).result.error)
  {
    var probe := GetLastByte(d);
    match probe.result
    case Ok(v) => Probe(Ok(v == LF), probe.after)
    case Err(e) => if e == SeekNegative then Probe(Ok(false), probe.after) else Probe(Err(e), probe.after)
  }

  /** The documented example: the last byte of `[1, 2, 3, b'\n']` is `b'\n'`. */
  lemma DocExample()
    ensures GetLastByte(Fresh([1, 2, 3, LF])).result == Ok(LF)
  {
  }

  /**
   * The rewind can fail after the byte has been read: the error is the
   * rewind's own, and `ends_with_newline` passes it on instead of answering.
   */
  lemma RewindFailurePassesThrough(data: seq<byte>, e: IoError)
    requires |data| > 0
    ensures var d := Device(data, 0, None, None, Some(e));
      GetLastByte(d) == Probe(Err(UtilIo(e)), d.(pos := |data|))
      && EndsWithNewline(d).result == Err(UtilIo(e))
  {
  }

  /** On success the cursor ends at 0 wherever it started. */
  lemma RewindsCursor(d: Device, start: nat)
    requires |d.data| > 0 && Healthy(d)
    ensures GetLastByte(d.(pos := start)).after == d.(pos := 0)
  {
  }

  /**
   * This copy behaves as the one beside `Concat`: same stream afterwards, the
   * same byte, `SeekNegative` where that one says `Seek`, the same I/O errors.
   */
  lemma SameAsConcatCopy(d: Device)
    ensures GetLastByte(d).after == Concatenate.GetLastByte(d).after
    ensures GetLastByte(d).result.Ok? <==> Concatenate.GetLastByte(d).result.Ok?
    ensures GetLastByte(d).result.Ok? ==>
              GetLastByte(d).result.value == Concatenate.GetLastByte(d).result.value
    ensures GetLastByte(d).result == Err(SeekNegative) <==>
              Concatenate.GetLastByte(d).result == Err(Errors.New(Seek))
    ensures forall e :: GetLastByte(d).result == Err(UtilIo(e)) <==>
              Concatenate.GetLastByte(d).result == Err(FromIo(e))
    ensures EndsWithNewline(d).result.Ok? <==> Concatenate.EndsWithNewline(d).result.Ok?
    ensures EndsWithNewline(d).result.Ok? ==>
              EndsWithNewline(d).result.value == Concatenate.EndsWithNewline(d).result.value
  {
  }
}
