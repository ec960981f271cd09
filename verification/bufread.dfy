/**
 * The parts of a buffered reader the concatenation loop relies on: filling
 * the buffer from the cursor, consuming from it, reading up to the next line
 * feed, and draining what is left.
 */
module BufRead {
  import opened Wrappers
  import opened Bytes
  import opened Lines

  /** Bytes a buffered reader holds at most at once (the standard library's default). */
  const CAPACITY: nat := 8192

  /** A buffered reader over fully known data, with its read cursor. */
  datatype Reader = Reader(data: seq<byte>, pos: nat)

  predicate Valid(r: Reader) {
    r.pos <= |r.data|
  }

  /** `fill_buf`: the next bytes from the cursor, at most one buffer's worth; empty only at the end. */
  function FillBuf(r: Reader): (buf: seq<byte>)
    requires Valid(r)
    ensures |buf| <= CAPACITY
    ensures r.pos + |buf| <= |r.data| && buf == r.data[r.pos..r.pos + |buf|]
    ensures |buf| == 0 <==> r.pos == |r.data|
  {
    if |r.data| - r.pos <= CAPACITY then r.data[r.pos..] else r.data[r.pos..r.pos + CAPACITY]
  }

  /** `consume(amount)`: marks bytes of the buffer as read. */
  function Consume(r: Reader, amount: nat): (next: Reader)
    requires r.pos + amount <= |r.data|
    ensures Valid(next) && next.data == r.data
    ensures next.pos == r.pos + amount
  {
    Reader(r.data, r.pos + amount)
  }

  /** `memchr(b'\n', ..)`: the index of the first line feed, if any. */
  function FindLf(s: seq<byte>): (r: Option<nat>)
    ensures r.Some? ==> r.value < |s| && s[r.value] == LF
    ensures r.Some? ==> forall j :: 0 <= j < r.value ==> s[j] != LF
    ensures r.None? <==> LF !in s
  {
    if |s| == 0 then None
    else if s[0] == LF then Some(0)
    else
      match FindLf(s[1..])
      case None => None
      case Some(i) => Some(i + 1)
  }

  /** A buffer without a line feed extends the line-feed-free prefix by its length. */
  lemma NoLineYet(s: seq<byte>, m: nat, available: seq<byte>)
    requires m + |available| <= |s| && available == s[m..m + |available|]
    requires forall j :: 0 <= j < m ==> s[j] != LF
    requires LF !in available
    ensures forall j :: 0 <= j < m + |available| ==> s[j] != LF
  {
    forall j | m <= j < m + |available|
      ensures s[j] != LF
    {
      assert s[j] == available[j - m];
    }
  }

  /** A line feed found in the buffer after `m` line-feed-free bytes ends the first line. */
  lemma FoundLine(s: seq<byte>, m: nat, available: seq<byte>, i: nat)
    requires m + |available| <= |s| && available == s[m..m + |available|]
    requires forall j :: 0 <= j < m ==> s[j] != LF
    requires i < |available| && available[i] == LF
    requires forall j :: 0 <= j < i ==> available[j] != LF
    ensures m + i + 1 == LineEnd(s)
  {
    var before := available[..i];
    assert before == s[m..m + i];
    assert LF !in before;
    NoLineYet(s, m, before);
    assert s[m + i] == available[i];
    LineEndUnique(s, m + i + 1);
  }

  /** Data without any line feed is one line running to its end. */
  lemma WholeLine(s: seq<byte>)
    requires forall j :: 0 <= j < |s| ==> s[j] != LF
    ensures LineEnd(s) == |s|
  {
    LineEndUnique(s, |s|);
  }

  /**
   * `read_until(b'\n', ..)`: takes buffers until one holds a line feed, keeps
   * the bytes up to and including it, and stops early at the end of the data.
   */
  method ReadUntilNewline(r: Reader) returns (next: Reader, line: seq<byte>)
    requires Valid(r)
    ensures next == Reader(r.data, r.pos + LineEnd(r.data[r.pos..]))
    ensures line == FirstLine(r.data[r.pos..])
  {
    ghost var s := r.data[r.pos..];
    var cur := r;
    var done := false;
    while !done
      invariant Valid(cur) && cur.data == r.data && r.pos <= cur.pos
      invariant !done ==> forall j :: 0 <= j < cur.pos - r.pos ==> s[j] != LF
      invariant done ==> cur.pos == r.pos + LineEnd(s)
      decreases if done then 0 else 1, |r.data| - cur.pos
    {
      var available := FillBuf(cur);
      ghost var m := cur.pos - r.pos;
      assert available == s[m..m + |available|];
      match FindLf(available)
      case Some(i) =>
        FoundLine(s, m, available, i);
        cur := Consume(cur, i + 1);
        done := true;
      case None =>
        NoLineYet(s, m, available);
        cur := Consume(cur, |available|);
        done := |available| == 0;
        if done {
          WholeLine(s);
        }
    }
    next := cur;
    line := r.data[r.pos..cur.pos];
  }

  /** The `fill_buf`/`consume` loop that copies everything after the cursor. */
  method CopyToEnd(r: Reader) returns (out: seq<byte>)
    requires Valid(r)
    ensures out == r.data[r.pos..]
  {
    var cur := r;
    out := [];
    while true
      invariant Valid(cur) && cur.data == r.data && r.pos <= cur.pos
      invariant out == r.data[r.pos..cur.pos]
      decreases |r.data| - cur.pos
    {
      var buffer := FillBuf(cur);
      if |buffer| == 0 {
        break;
      }
      out := out + buffer;
      cur := Consume(cur, |buffer|);
    }
  }
}
