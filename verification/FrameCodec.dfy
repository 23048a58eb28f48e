/** The 20-byte frame header on the wire, and the receiver's parser for whole frames. */
module FrameCodec {
  import opened BigEndian
  import opened Bytes
  import opened Containers
  import opened FountainEncoders
  import opened Frames
  import opened Peeling

  const HEADER_SIZE: nat := 20
  const MAX_BLOCK_SIZE: nat := 2048

  function Checksum(bytes: ByteString): Byte {
    if bytes == [] then 0 else Checksum(bytes[..|bytes| - 1]) ^ bytes[|bytes| - 1]
  }

  method CalculateChecksum(buffer: array<Byte>, length: nat) returns (checksum: Byte)
    requires length <= buffer.Length
    ensures checksum == Checksum(buffer[..length])
  {
    checksum := 0;
    var i := 0;
    while i < length
      invariant 0 <= i <= length && checksum == Checksum(buffer[..i])
    {
      assert buffer[..i + 1][..i] == buffer[..i];
      checksum := checksum ^ buffer[i];
      i := i + 1;
    }
  }

  /** The checksum of a concatenation is the XOR of the parts' own. */
  lemma {:induction false} ChecksumJoins(a: ByteString, b: ByteString)
    ensures Checksum(a + b) == Checksum(a) ^ Checksum(b)
  {
    if b == [] {
      assert a + b == a;
      XorWithNothing(Checksum(a));
    } else {
      var last := |b| - 1;
      ChecksumJoins(a, b[..last]);
      assert (a + b)[..|a + b| - 1] == a + b[..last];
      Regrouped(Checksum(a), Checksum(b[..last]), b[last]);
    }
  }

  lemma ChecksumOfOne(x: Byte)
    ensures Checksum([x]) == x && Checksum([]) == 0
  {
    XorWithNothing(x);
  }

  lemma XorWithNothing(x: Byte)
    ensures x ^ 0 == x && 0 ^ x == x
  {
  }

  lemma Regrouped(x: Byte, y: Byte, z: Byte)
    ensures (x ^ y) ^ z == x ^ (y ^ z)
  {
  }

  lemma {:induction false} ChecksumAfterChange(a: ByteString, b: ByteString, at: nat)
    requires |a| == |b| && at < |a| && forall k :: 0 <= k < |a| && k != at ==> a[k] == b[k]
    ensures Checksum(a) ^ Checksum(b) == a[at] ^ b[at]
  {
    var last := |a| - 1;
    if at < last {
      ChecksumAfterChange(a[..last], b[..last], at);
      SameTerm(Checksum(a[..last]), Checksum(b[..last]), a[last]);
    } else {
      assert a[..last] == b[..last];
      SamePrefix(Checksum(a[..last]), a[last], b[last]);
    }
  }

  lemma SameTerm(x: Byte, y: Byte, t: Byte)
    ensures (x ^ t) ^ (y ^ t) == x ^ y
  {
  }

  lemma SamePrefix(x: Byte, s: Byte, t: Byte)
    ensures (x ^ s) ^ (x ^ t) == s ^ t
  {
  }

  // ---------------------------------------------------------------- writing

  predicate Writable(h: FrameHeader) {
    && h.protocolVersion == FRAME_PROTOCOL_VERSION && h.sessionId < 0x1_0000_0000 && h.segmentNumber < 0x1_0000
    && h.sequenceNumber < 0x1_0000_0000 && h.blockCount < 0x1_0000 && h.blockSize < 0x1_0000
    && h.totalPayloadLength < 0x1_0000_0000
  }

  function Fields(h: FrameHeader): (b: ByteString)
    requires Writable(h)
    ensures |b| == HEADER_SIZE - 1
  {
    [h.protocolVersion as bv8] + Put32(h.sessionId) + Put16(h.segmentNumber) + Put32(h.sequenceNumber)
    + Put16(h.blockCount) + Put16(h.blockSize) + Put32(h.totalPayloadLength)
  }

  function SerializedHeader(h: FrameHeader): (b: ByteString)
    requires Writable(h)
    ensures |b| == HEADER_SIZE
  {
    Fields(h) + [Checksum(Fields(h))]
  }

  function Serialized(frame: Frame): ByteString
    requires Writable(frame.header)
  {
    SerializedHeader(frame.header) + frame.payload
  }

  /** None stands for the error thrown on another version, or on a number too large for its field. */
  method SerializeFrameHeader(h: FrameHeader) returns (r: Option<ByteString>)
    ensures r == if Writable(h) then Some(SerializedHeader(h)) else None
  {
    hide Put16, Put32;
    if !Writable(h) {
      return None;
    }
    var buffer := new Byte[HEADER_SIZE];
    buffer[0] := h.protocolVersion as bv8;
    var offset := 1;
    assert buffer[..offset] == [h.protocolVersion as bv8];
    offset := Put(buffer, offset, Put32(h.sessionId));
    offset := Put(buffer, offset, Put16(h.segmentNumber));
    offset := Put(buffer, offset, Put32(h.sequenceNumber));
    offset := Put(buffer, offset, Put16(h.blockCount));
    offset := Put(buffer, offset, Put16(h.blockSize));
    offset := Put(buffer, offset, Put32(h.totalPayloadLength));
    var checksum := CalculateChecksum(buffer, HEADER_SIZE - 1);
    offset := Put(buffer, offset, [checksum]);
    assert buffer[..] == buffer[..offset];
    return Some(buffer[..]);
  }

  // ---------------------------------------------------------------- the receiver's parser

  function ReadHeader(raw: ByteString): FrameHeader
    requires |raw| >= HEADER_SIZE
  {
    FrameHeader(raw[0] as nat, U32(raw[1..5]), U16(raw[5..7]), U32(raw[7..11]), U16(raw[11..13]), U16(raw[13..15]),
                U32(raw[15..19]))
  }

  function ParseFrame(raw: ByteString): (r: Result<Frame, ErrorCode>) {
    if |raw| < HEADER_SIZE || |raw| > HEADER_SIZE + MAX_BLOCK_SIZE then Failure(InvalidFrame)
    else if Checksum(raw[..HEADER_SIZE - 1]) != raw[HEADER_SIZE - 1] then Failure(InvalidFrame)
    else
      var h := ReadHeader(raw);
      if h.protocolVersion != FRAME_PROTOCOL_VERSION then Failure(UnsupportedProtocol)
      else if h.segmentNumber != 0 then Failure(InvalidFrame)
      else if h.blockCount < 1 || h.blockCount > MAX_BLOCK_COUNT || h.blockSize < 1 || h.blockSize > MAX_BLOCK_SIZE then
        Failure(ResourceLimitExceeded)
      else
        var reassemblyBytes := h.blockCount * h.blockSize;
        if h.totalPayloadLength < 1 || h.totalPayloadLength > MAX_FILE_SIZE || reassemblyBytes < h.totalPayloadLength
           || reassemblyBytes > h.totalPayloadLength + h.blockSize - 1
        then Failure(ResourceLimitExceeded)
        else if |raw| != HEADER_SIZE + h.blockSize then Failure(InvalidFrame)
        else Success(Frame(h, raw[HEADER_SIZE..]))
  }

  lemma ParserKnowsNoSessions(raw: ByteString)
    ensures ParseFrame(raw) != Failure(SessionMismatch)
  {
    hide Checksum, ReadHeader;
  }

  /** What the receiver takes from any sender. */
  ghost predicate WithinLimits(frame: Frame) {
    var h := frame.header;
    && h.protocolVersion == FRAME_PROTOCOL_VERSION && h.segmentNumber == 0
    && h.sessionId < 0x1_0000_0000 && h.sequenceNumber < 0x1_0000_0000
    && 1 <= h.blockSize <= MAX_BLOCK_SIZE && 1 <= h.totalPayloadLength <= MAX_FILE_SIZE
    && 1 <= h.blockCount <= MAX_BLOCK_COUNT && h.blockCount == CeilDiv(h.totalPayloadLength, h.blockSize)
    && |frame.payload| == h.blockSize
  }

  /** The two-sided size test says exactly that the block count is the rounded-up quotient. */
  lemma SizeTest(count: nat, size: nat, total: nat)
    requires size > 0 && total > 0
    ensures total <= count * size <= total + size - 1 <==> count == CeilDiv(total, size)
  {
    CeilDivCovers(total, size);
    var q := CeilDiv(total, size);
    if count < q {
      assert (count + 1) * size <= q * size;
    } else if count > q {
      assert count * size >= (q + 1) * size;
    }
  }

  lemma HeaderReads(h: FrameHeader, payload: ByteString)
    requires Writable(h)
    ensures var raw := SerializedHeader(h) + payload;
            ReadHeader(raw) == h && raw[..HEADER_SIZE - 1] == Fields(h) && raw[HEADER_SIZE - 1] == Checksum(Fields(h))
            && raw[HEADER_SIZE..] == payload
  {
    hide U16, U32, Put16, Put32, Checksum;
    var raw := SerializedHeader(h) + payload;
    Put32Reads(h.sessionId);
    Put16Reads(h.segmentNumber);
    Put32Reads(h.sequenceNumber);
    Put16Reads(h.blockCount);
    Put16Reads(h.blockSize);
    Put32Reads(h.totalPayloadLength);
    assert raw[1..5] == Put32(h.sessionId);
    assert raw[5..7] == Put16(h.segmentNumber);
    assert raw[7..11] == Put32(h.sequenceNumber);
    assert raw[11..13] == Put16(h.blockCount);
    assert raw[13..15] == Put16(h.blockSize);
    assert raw[15..19] == Put32(h.totalPayloadLength);
  }

  /** A frame survives the wire exactly when it is within the receiver's limits. */
  lemma SurvivesIff(frame: Frame)
    requires Writable(frame.header)
    ensures ParseFrame(Serialized(frame)) == Success(frame) <==> WithinLimits(frame)
  {
    hide SerializedHeader, ReadHeader, Fields, Checksum;
    HeaderReads(frame.header, frame.payload);
    if frame.header.blockSize > 0 && frame.header.totalPayloadLength > 0 {
      SizeTest(frame.header.blockCount, frame.header.blockSize, frame.header.totalPayloadLength);
    }
  }

  /** The encoder's frame with this sequence number. */
  function EncoderFrame(code: Code, payload: ByteString, size: nat, sessionId: nat, sequence: nat): Frame
    requires size > 0
  {
    Frame(FrameHeader(FRAME_PROTOCOL_VERSION, sessionId, 0, sequence, CeilDiv(|payload|, size), size, |payload|),
          Encoded(code, payload, size, sequence))
  }

  /** Every frame of an encoder the receiver has room for arrives unchanged. */
  lemma EncoderFrameSurvives(code: Code, payload: ByteString, size: nat, sessionId: nat, sequence: nat)
    requires 0 < size <= 2048 && 0 < |payload| <= 64 * 1024 * 1024 && CeilDiv(|payload|, size) <= 65535
    requires sessionId < 0x1_0000_0000 && sequence < 0x1_0000_0000
    ensures var frame := EncoderFrame(code, payload, size, sessionId, sequence);
            Writable(frame.header) && ParseFrame(Serialized(frame)) == Success(frame)
  {
    hide ParseFrame, Serialized;
    CeilDivCovers(|payload|, size);
    SurvivesIff(EncoderFrame(code, payload, size, sessionId, sequence));
  }

  /** Where each field travels, most significant byte first: the layout both ends must keep to. */
  lemma HeaderLayout(h: FrameHeader)
    requires Writable(h)
    ensures var raw := SerializedHeader(h);
            && raw[0] == 1 && U32(raw[1..5]) == h.sessionId && U16(raw[5..7]) == h.segmentNumber
            && U32(raw[7..11]) == h.sequenceNumber && U16(raw[11..13]) == h.blockCount
            && U16(raw[13..15]) == h.blockSize && U32(raw[15..19]) == h.totalPayloadLength
            && Checksum(raw) == 0
  {
    hide U16, U32, Put16, Put32;
    HeaderReads(h, []);
    assert SerializedHeader(h) + [] == SerializedHeader(h);
    ChecksumJoins(Fields(h), [Checksum(Fields(h))]);
    ChecksumOfOne(Checksum(Fields(h)));
    XorItself(Checksum(Fields(h)));
  }

  lemma XorItself(x: Byte)
    ensures x ^ x == 0
  {
  }

  lemma ReadHeaderWrites(raw: ByteString)
    requires |raw| >= HEADER_SIZE && ReadHeader(raw).protocolVersion == FRAME_PROTOCOL_VERSION
    ensures Writable(ReadHeader(raw)) && Fields(ReadHeader(raw)) == raw[..HEADER_SIZE - 1]
  {
    hide U16, U32, Put16, Put32;
    Read32Puts(raw[1..5]);
    Read16Puts(raw[5..7]);
    Read32Puts(raw[7..11]);
    Read16Puts(raw[11..13]);
    Read16Puts(raw[13..15]);
    Read32Puts(raw[15..19]);
    VersionByte(raw[0]);
    SlicesJoin(raw);
  }

  lemma SlicesJoin(raw: ByteString)
    requires |raw| >= HEADER_SIZE
    ensures raw[..HEADER_SIZE - 1]
         == [raw[0]] + raw[1..5] + raw[5..7] + raw[7..11] + raw[11..13] + raw[13..15] + raw[15..19]
  {
    assert raw[..5] == [raw[0]] + raw[1..5];
    assert raw[..7] == raw[..5] + raw[5..7];
    assert raw[..11] == raw[..7] + raw[7..11];
    assert raw[..13] == raw[..11] + raw[11..13];
    assert raw[..15] == raw[..13] + raw[13..15];
    assert raw[..19] == raw[..15] + raw[15..19];
  }

  lemma VersionByte(b: Byte)
    requires b as nat == FRAME_PROTOCOL_VERSION
    ensures FRAME_PROTOCOL_VERSION as bv8 == b
  {
  }

  /** Whatever the receiver accepts is within its limits, and is exactly what serializing that frame gives. */
  lemma AcceptedIsSerialized(raw: ByteString)
    requires ParseFrame(raw).Success?
    ensures var frame := ParseFrame(raw).value;
            WithinLimits(frame) && Writable(frame.header) && Serialized(frame) == raw
  {
    hide ReadHeader, Fields, Checksum, Writable;
    var h := ParseFrame(raw).value.header;
    ReadHeaderWrites(raw);
    SizeTest(h.blockCount, h.blockSize, h.totalPayloadLength);
    HeaderFits(raw);
    assert raw == raw[..HEADER_SIZE - 1] + [raw[HEADER_SIZE - 1]] + raw[HEADER_SIZE..];
  }

  lemma HeaderFits(raw: ByteString)
    requires |raw| >= HEADER_SIZE
    ensures ReadHeader(raw).sessionId < 0x1_0000_0000 && ReadHeader(raw).sequenceNumber < 0x1_0000_0000
  {
    hide U16, U32;
    Read32Puts(raw[1..5]);
    Read32Puts(raw[7..11]);
  }

  /** Damage to any one byte of an accepted header is refused. */
  lemma OneBadHeaderByteIsRefused(raw: ByteString, bad: ByteString, at: nat)
    requires ParseFrame(raw).Success? && |bad| == |raw| && at < HEADER_SIZE && bad[at] != raw[at]
    requires forall k :: 0 <= k < |raw| && k != at ==> bad[k] == raw[k]
    ensures ParseFrame(bad) == Failure(InvalidFrame)
  {
    hide ReadHeader, Checksum;
    if at < HEADER_SIZE - 1 {
      ChecksumAfterChange(raw[..HEADER_SIZE - 1], bad[..HEADER_SIZE - 1], at);
      Differ(Checksum(raw[..HEADER_SIZE - 1]), Checksum(bad[..HEADER_SIZE - 1]), raw[at], bad[at]);
    } else {
      assert raw[..HEADER_SIZE - 1] == bad[..HEADER_SIZE - 1];
    }
  }

  lemma Differ(x: Byte, y: Byte, s: Byte, t: Byte)
    requires x ^ y == s ^ t && s != t
    ensures x != y
  {
  }
}
