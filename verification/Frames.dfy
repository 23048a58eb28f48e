/** The version 1 frame: a header and one block's worth of fountain-coded bytes. */
module Frames {
  import opened Bytes

  const MAX_FILE_SIZE: nat := 64 * 1024 * 1024

  datatype FrameHeader = FrameHeader(
    protocolVersion: nat, sessionId: nat, segmentNumber: nat, sequenceNumber: nat,
    blockCount: nat, blockSize: nat, totalPayloadLength: nat)

  datatype Frame = Frame(header: FrameHeader, payload: ByteString)
}
