/** The fountain encoder: padded source blocks first, then XOR repair frames without end. */
module FountainEncoders {
  import opened Bytes
  import opened Frames
  import opened Peeling

  const FRAME_PROTOCOL_VERSION: nat := 1
  const MAX_BLOCK_COUNT: nat := 65535

  function CeilDiv(n: nat, d: nat): nat
    requires d > 0
  {
    (n + d - 1) / d
  }

  lemma CeilDivCovers(n: nat, d: nat)
    requires d > 0
    ensures n <= CeilDiv(n, d) * d < n + d
    ensures CeilDiv(n, d) == 0 <==> n == 0
  {
    var q, r := (n + d - 1) / d, (n + d - 1) % d;
    assert n + d - 1 == q * d + r;
  }

  /** What the frame with this sequence number carries, for a whole payload. */
  function Encoded(code: Code, payload: ByteString, size: nat, sequence: nat): ByteString
    requires size > 0
  {
    var k := CeilDiv(|payload|, size);
    Sum(Split(payload, k, size), Neighbors(code, k, sequence), size)
  }

  class FountainEncoder {
    const code: Code
    const payload: ByteString
    const blockSize: nat
    const sessionId: nat
    var blockCount: nat
    var blocks: seq<ByteString>
    var sequenceCounter: nat

    ghost predicate Valid()
      reads this
    {
      && Lawful(code) && blockSize > 0
      && blockCount == CeilDiv(|payload|, blockSize) && 0 < blockCount <= MAX_BLOCK_COUNT
      && blocks == Split(payload, blockCount, blockSize)
    }

    /** The splitting constructor; a block count of zero or above 65535 is refused by `Create`. */
    constructor (code: Code, payload: ByteString, blockSize: nat, sessionId: nat)
      requires Lawful(code) && blockSize > 0 && 0 < CeilDiv(|payload|, blockSize) <= MAX_BLOCK_COUNT
      ensures Valid() && sequenceCounter == 0
      ensures this.code == code && this.payload == payload && this.blockSize == blockSize && this.sessionId == sessionId
    {
      this.code := code;
      this.payload := payload;
      this.blockSize := blockSize;
      this.sessionId := sessionId;
      sequenceCounter := 0;
      blockCount := CeilDiv(|payload|, blockSize);
      blocks := [];
      new;
      CeilDivCovers(|payload|, blockSize);
      var i := 0;
      while i < blockCount
        invariant 0 <= i <= blockCount == CeilDiv(|payload|, blockSize) <= MAX_BLOCK_COUNT
        invariant blocks == Split(payload, blockCount, blockSize)[..i]
        invariant sequenceCounter == 0
      {
        BlockInside(|payload|, blockSize, i);
        var start := i * blockSize;
        var end := if start + blockSize < |payload| then start + blockSize else |payload|;
        var slice := payload[start..end];
        var padded := slice + Zeros(blockSize - |slice|);
        assert padded == PaddedBlock(payload, i, blockSize);
        blocks := blocks + [padded];
        i := i + 1;
      }
    }

    static method Create(code: Code, payload: ByteString, blockSize: nat, sessionId: nat)
      returns (r: Option<FountainEncoder>)
      requires Lawful(code)
      ensures r.Some? <==> blockSize > 0 && 0 < CeilDiv(|payload|, blockSize) <= MAX_BLOCK_COUNT
      ensures r.Some? ==> fresh(r.value) && r.value.Valid() && r.value.sequenceCounter == 0
      ensures r.Some? ==>
                r.value.code == code && r.value.payload == payload && r.value.blockSize == blockSize
                && r.value.sessionId == sessionId
    {
      if blockSize == 0 || CeilDiv(|payload|, blockSize) == 0 || CeilDiv(|payload|, blockSize) > MAX_BLOCK_COUNT {
        return None;
      }
      var encoder := new FountainEncoder(code, payload, blockSize, sessionId);
      return Some(encoder);
    }

    method NextFrame() returns (frame: Frame)
      requires Valid()
      modifies this`sequenceCounter
      ensures Valid() && sequenceCounter == old(sequenceCounter) + 1
      ensures frame.header == FrameHeader(FRAME_PROTOCOL_VERSION, sessionId, 0, old(sequenceCounter), blockCount,
                                          blockSize, |payload|)
      ensures frame.payload == Encoded(code, payload, blockSize, old(sequenceCounter))
      ensures old(sequenceCounter) < blockCount ==>
                frame.payload == PaddedBlock(payload, old(sequenceCounter), blockSize)
    {
      var sequence := sequenceCounter;
      sequenceCounter := sequenceCounter + 1;
      var framePayload := Zeros(blockSize);
      if sequence < blockCount {
        framePayload := blocks[sequence];
        SumOfOne(blocks, sequence, blockSize);
      } else {
        var indices := code.repair(blockCount, sequence);
        var i := 0;
        while i < |indices|
          invariant 0 <= i <= |indices| && |framePayload| == blockSize && sequenceCounter == sequence + 1
          invariant framePayload == Sum(blocks, indices[..i], blockSize)
        {
          SumAppend(blocks, indices[..i], indices[i], blockSize);
          assert indices[..i + 1] == indices[..i] + [indices[i]];
          framePayload := Xor(framePayload, blocks[indices[i]]);
          i := i + 1;
        }
        assert indices[..i] == indices;
      }
      var header := FrameHeader(FRAME_PROTOCOL_VERSION, sessionId, 0, sequence, blockCount, blockSize, |payload|);
      return Frame(header, framePayload);
    }
  }

  lemma SumAppend(source: seq<ByteString>, indices: seq<nat>, b: nat, size: nat)
    ensures Sum(source, indices + [b], size) == Xor(Sum(source, indices, size), BlockAt(source, b, size))
  {
    var longer := indices + [b];
    SumWithout(source, longer, size, |indices|);
    assert longer[..|indices|] + longer[|indices| + 1..] == indices;
    XorCommutes(Sum(source, indices, size), BlockAt(source, b, size));
  }

  lemma BlockInside(n: nat, d: nat, i: nat)
    requires d > 0 && i < CeilDiv(n, d)
    ensures i * d < n
  {
    CeilDivCovers(n, d);
    assert (i + 1) * d <= CeilDiv(n, d) * d;
  }
}
