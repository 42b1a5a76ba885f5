/** Byte streams: .NET's `MemoryStream` (also standing for the upload stream
    of a form file) and the write semantics it shares with a file opened by
    `File.OpenWrite`: bytes written at a position replace what was there, and
    anything beyond the written range is kept. */
module Streams {
  import opened Numbers

  /** The contents after writing `bytes` at `pos` into `prev` without truncating. */
  function OverwriteAt(prev: seq<byte>, pos: nat, bytes: seq<byte>): (r: seq<byte>)
    requires pos <= |prev|
    ensures |r| == if pos + |bytes| < |prev| then |prev| else pos + |bytes|
    ensures r[..pos] == prev[..pos]
    ensures r[pos..pos + |bytes|] == bytes
    ensures forall i :: pos + |bytes| <= i < |prev| ==> r[i] == prev[i]
  {
    prev[..pos] + bytes + (if pos + |bytes| < |prev| then prev[pos + |bytes|..] else [])
  }

  /** Writing at the end appends. */
  lemma OverwriteAtEnd(prev: seq<byte>, bytes: seq<byte>)
    ensures OverwriteAt(prev, |prev|, bytes) == prev + bytes
  {
  }

  /** Writing from the start replaces the whole contents exactly when the new
      bytes are at least as long as the old ones; otherwise the old tail survives. */
  lemma OverwriteFromStart(prev: seq<byte>, bytes: seq<byte>)
    ensures OverwriteAt(prev, 0, bytes) == bytes <==> |prev| <= |bytes|
    ensures |bytes| < |prev| ==> OverwriteAt(prev, 0, bytes) == bytes + prev[|bytes|..]
  {
    if |bytes| < |prev| {
      assert |OverwriteAt(prev, 0, bytes)| == |prev| > |bytes|;
    }
  }

  /** Writing nothing changes nothing. */
  lemma OverwriteNothing(prev: seq<byte>, pos: nat)
    requires pos <= |prev|
    ensures OverwriteAt(prev, pos, []) == prev
  {
  }

  class MemoryStream {
    var data: seq<byte>
    var position: nat

    ghost predicate Valid()
      reads this
    {
      position <= |data|
    }

    /** A stream over the given bytes, positioned at the start (`new MemoryStream(bytes)`,
        or `IFormFile.OpenReadStream()` over an uploaded body). */
    constructor FromBytes(bytes: seq<byte>)
      ensures Valid() && data == bytes && position == 0
    {
      data := bytes;
      position := 0;
    }

    /** `new MemoryStream()`. */
    constructor Empty()
      ensures Valid() && data == [] && position == 0
    {
      data := [];
      position := 0;
    }

    /** `Write`: the bytes go at the current position, which moves past them. */
    method Write(bytes: seq<byte>)
      requires Valid()
      modifies this
      ensures Valid()
      ensures data == OverwriteAt(old(data), old(position), bytes)
      ensures position == old(position) + |bytes|
    {
      data := OverwriteAt(data, position, bytes);
      position := position + |bytes|;
    }

    /** `Seek(0, SeekOrigin.Begin)`. */
    method Rewind()
      requires Valid()
      modifies this
      ensures Valid() && data == old(data) && position == 0
    {
      position := 0;
    }

    /** `ReadAllRemainingBytesToArrayAsync`: everything from the position on; the stream ends up exhausted. */
    method ReadAllRemaining() returns (bytes: seq<byte>)
      requires Valid()
      modifies this
      ensures Valid() && data == old(data) && position == |data|
      ensures bytes == old(data)[old(position)..]
    {
      bytes := data[position..];
      position := |data|;
    }

    /** `ToArray`: the whole contents, whatever the position. */
    method ToArray() returns (bytes: seq<byte>)
      requires Valid()
      ensures bytes == data
    {
      bytes := data;
    }

    /** `CopyToAsync`: the remaining bytes of this stream are written into `dest` at its position. */
    method CopyTo(dest: MemoryStream)
      requires Valid() && dest.Valid() && dest != this
      modifies this, dest
      ensures Valid() && dest.Valid()
      ensures data == old(data) && position == |data|
      ensures dest.data == OverwriteAt(old(dest.data), old(dest.position), old(data)[old(position)..])
      ensures dest.position == old(dest.position) + |old(data)| - old(position)
    {
      var bytes := ReadAllRemaining();
      dest.Write(bytes);
    }
  }
}
