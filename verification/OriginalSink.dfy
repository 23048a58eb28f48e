/** Where the decompressed file goes on a device without file storage: one buffer of the declared size. */
module OriginalSinks {
  import opened Bytes
  import opened Inflates
  import opened OpfsStores
  import opened SegmentPlans

  class BoundedMemoryOriginalSink {
    const size: nat
    var buffer: array?<Byte>
    var written: nat

    ghost predicate Valid()
      reads this
    {
      buffer != null ==> buffer.Length == size
    }

    constructor (size: nat)
      ensures Valid() && buffer != null && fresh(buffer) && buffer[..] == Zeros(size) && written == 0
    {
      this.size := size;
      buffer := new Byte[size](_ => 0);
      written := 0;
    }

    method Write(offset: int, bytes: ByteString) returns (outcome: WriteOutcome)
      requires Valid()
      modifies this`written, buffer
      ensures Valid() && buffer == old(buffer)
      ensures outcome == if buffer == null then Failed
                         else if offset < 0 || offset + |bytes| > size then Invalid
                         else Ok
      ensures outcome == Ok ==>
                buffer[..] == Overwrite(old(buffer[..]), offset, bytes) && written == old(written) + |bytes|
      ensures outcome != Ok ==> written == old(written) && (buffer != null ==> buffer[..] == old(buffer[..]))
    {
      if buffer == null {
        return Failed;
      }
      if offset < 0 || offset + |bytes| > size {
        return Invalid;
      }
      forall k | 0 <= k < |bytes| {
        buffer[offset + k] := bytes[k];
      }
      written := written + |bytes|;
      assert forall k :: offset <= k < offset + |bytes| ==> buffer[k] == bytes[k - offset];
      return Ok;
    }

    method Read(offset: int, into: array<Byte>) returns (take: nat)
      requires Valid() && into != buffer
      modifies into
      ensures take == if buffer == null || offset < 0 || offset >= size then 0 else Least(into.Length, size - offset)
      ensures take > 0 ==> into[..take] == buffer[offset..offset + take]
      ensures into[take..] == old(into[take..])
    {
      take := 0;
      if buffer == null || offset < 0 || offset >= size {
        return;
      }
      take := Least(into.Length, size - offset);
      forall k | 0 <= k < take {
        into[k] := buffer[offset + k];
      }
    }

    /** The buffer is the caller's from here on. */
    method Seal() returns (bytes: ByteString)
      modifies this`buffer
      ensures bytes == (if old(buffer) == null then [] else old(buffer[..])) && buffer == null
    {
      bytes := if buffer == null then [] else buffer[..];
      buffer := null;
    }
  }

  /** A zeroed buffer after these pieces have been written into it in order. */
  function Rebuilt(pieces: seq<Piece>, size: nat): ByteString {
    if pieces == [] then Zeros(size)
    else
      var last := pieces[|pieces| - 1];
      Overwrite(Rebuilt(pieces[..|pieces| - 1], size), last.offset, last.bytes)
  }

  lemma {:induction false} RebuiltSoFar(pieces: seq<Piece>, file: ByteString, n: nat)
    requires Matches(pieces, file) && n <= |pieces|
    ensures |Rebuilt(pieces[..n], |file|)| == |file|
    ensures forall k: nat :: Covered(pieces[..n], k) ==> k < |file| && Rebuilt(pieces[..n], |file|)[k] == file[k]
  {
    if n > 0 {
      RebuiltSoFar(pieces, file, n - 1);
      assert pieces[..n][..n - 1] == pieces[..n - 1];
      var last := pieces[n - 1];
      assert WindowAt(file, last.offset, last.bytes);
      var before, after := Rebuilt(pieces[..n - 1], |file|), Rebuilt(pieces[..n], |file|);
      assert after == Overwrite(before, last.offset, last.bytes);
      forall k: nat | Covered(pieces[..n], k)
        ensures k < |file| && after[k] == file[k]
      {
        if !Covers(last, k) {
          var i :| 0 <= i < n && Covers(pieces[..n][i], k);
          assert pieces[..n - 1][i] == pieces[i];
        } else {
          assert after[last.offset + (k - last.offset)] == last.bytes[k - last.offset]
                   == file[last.offset..last.offset + |last.bytes|][k - last.offset];
        }
      }
    }
  }

  /** After a completed pass the sink holds the concatenated windows: every byte of the original file. */
  lemma CompletedPassRebuildsTheFile(stream: ByteString, p: WindowPlan, gunzip: Decompressor)
    requires Planned(p) && Expand(stream, p, gunzip, 0, 0).Whole?
    ensures var windows := Expand(stream, p, gunzip, 0, 0).windows;
            Rebuilt(Pieces(p, windows), p.transportSize) == Concat(windows)
  {
    hide Expand, Pieces, Concat;
    PiecesTileTheFile(stream, p, gunzip);
    var windows := Expand(stream, p, gunzip, 0, 0).windows;
    var pieces, file := Pieces(p, windows), Concat(windows);
    RebuiltSoFar(pieces, file, |pieces|);
    assert pieces[..|pieces|] == pieces;
    forall k: nat | k < |file|
      ensures Rebuilt(pieces, |file|)[k] == file[k]
    {
      assert Covered(pieces, k);
    }
  }
}
