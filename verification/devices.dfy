/**
 * A seekable, readable byte source: the data, a cursor, and optional faults,
 * one per kind of operation, that make every seek relative to the end, every
 * read, or every seek to an absolute position fail with a given I/O error.
 * The kinds fail independently, so a stream can be positioned at its last
 * byte and read and still refuse to rewind. A freshly opened regular file is
 * a fault-free device with its cursor at 0.
 */
module Devices {
  import opened Wrappers
  import opened Bytes
  import opened Errors

  datatype Device = Device(data: seq<byte>, pos: nat, endSeekFault: Option<IoError>,
                           readFault: Option<IoError>, startSeekFault: Option<IoError>)

  /** What a successful open of a regular file with these contents yields. */
  function Fresh(data: seq<byte>): Device {
    Device(data, 0, None, None, None)
  }

  /** A device whose operations cannot fail. */
  predicate Healthy(d: Device) {
    d.endSeekFault.None? && d.readFault.None? && d.startSeekFault.None?
  }

  const INVALID_SEEK: IoError := IoError("invalid seek to a negative or overflowing position")
  const UNEXPECTED_EOF: IoError := IoError("failed to fill whole buffer")

  /** `seek(SeekFrom::End(offset))`: fails when the target would be negative. */
  function SeekFromEnd(d: Device, offset: int): (r: Result<Device, IoError>)
    ensures r.Ok? <==> d.endSeekFault.None? && 0 <= |d.data| + offset
    ensures r.Ok? ==> r.value == d.(pos := |d.data| + offset)
  {
    if d.endSeekFault.Some? then Err(d.endSeekFault.value)
    else if |d.data| + offset < 0 then Err(INVALID_SEEK)
    else Ok(d.(pos := |d.data| + offset))
  }

  /** `seek(SeekFrom::Start(offset))`. */
  function SeekFromStart(d: Device, offset: nat): (r: Result<Device, IoError>)
    ensures r.Ok? <==> d.startSeekFault.None?
    ensures r.Ok? ==> r.value == d.(pos := offset)
  {
    if d.startSeekFault.Some? then Err(d.startSeekFault.value) else Ok(d.(pos := offset))
  }

  /** `read_exact` into a one-byte buffer: the byte under the cursor, which then advances. */
  function ReadOne(d: Device): (r: Result<(byte, Device), IoError>)
    ensures r.Ok? <==> d.readFault.None? && d.pos < |d.data|
    ensures r.Ok? ==> r.value == (d.data[d.pos], d.(pos := d.pos + 1))
  {
    if d.readFault.Some? then Err(d.readFault.value)
    else if |d.data| <= d.pos then Err(UNEXPECTED_EOF)
    else Ok((d.data[d.pos], d.(pos := d.pos + 1)))
  }

  /** The outcome of an operation on a device, together with the device after it. */
  datatype Probe<+T, +E> = Probe(result: Result<T, E>, after: Device)
}
