/** The version 1 container: a file and what is declared about it, as the desktop writes it and the PWA reads it. */
module Containers {
  import opened BigEndian
  import opened Bytes
  import opened Frames

  const CONTAINER_VERSION: nat := 1
  const MIN_CONTAINER_BYTES: nat := 60
  const MAX_FILENAME_BYTES: nat := 1024
  const MAX_MIME_BYTES: nat := 1024
  const DIGEST_BYTES: nat := 32

  /** "DEQR". */
  const MAGIC: ByteString := [0x44, 0x45, 0x51, 0x52]

  datatype Container = Container(
    filename: ByteString, mimeType: ByteString, originalSize: nat, compressed: bool, encrypted: bool,
    timestamp: nat, sha256: ByteString, payload: ByteString)

  datatype ErrorCode =
    | InvalidFrame | InvalidMagic | UnsupportedProtocol | InvalidMetadata | ConflictingDuplicate | SessionMismatch
    | ResourceLimitExceeded | TransferIncomplete | SizeMismatch | HashMismatch | UnsupportedCompression
    | EncryptedContainer | FileTypeBlocked

  /** Which byte strings decode as UTF-8, and what the receiver makes of a decoded filename. */
  datatype Text = Text(valid: ByteString -> bool, sanitize: ByteString -> ByteString)

  function Flag(b: bool): Byte {
    if b then 1 else 0
  }

  // ---------------------------------------------------------------- writing

  predicate Writable(c: Container) {
    && |c.filename| < 0x1_0000 && |c.mimeType| < 0x1_0000 && c.originalSize <= MAX_FILE_SIZE
    && c.timestamp < 0x1_0000_0000_0000_0000 && |c.sha256| == DIGEST_BYTES
  }

  /** The fixed-size fields after the MIME type, and the payload. */
  function Tail(c: Container): (b: ByteString)
    requires Writable(c)
    ensures |b| == 18 + DIGEST_BYTES + |c.payload|
  {
    Put64(c.originalSize)
      + ([Flag(c.compressed)] + ([Flag(c.encrypted)] + (Put64(c.timestamp) + (c.sha256 + c.payload))))
  }

  function Serialized(c: Container): (b: ByteString)
    requires Writable(c)
    ensures |b| == MIN_CONTAINER_BYTES + |c.filename| + |c.mimeType| + |c.payload|
  {
    MAGIC + (Put16(CONTAINER_VERSION)
             + (Put16(|c.filename|) + (c.filename + (Put16(|c.mimeType|) + (c.mimeType + Tail(c))))))
  }

  /** Puts `part` at `offset` and moves past it. */
  method Put(buffer: array<Byte>, offset: nat, part: ByteString) returns (next: nat)
    requires offset + |part| <= buffer.Length
    modifies buffer
    ensures next == offset + |part|
    ensures buffer[..next] == old(buffer[..offset]) + part
  {
    forall k | 0 <= k < |part| {
      buffer[offset + k] := part[k];
    }
    next := offset + |part|;
    assert buffer[..next] == buffer[..offset] + buffer[offset..next];
  }

  /** None stands for the error thrown on a digest, a size, or a length that does not fit its field. */
  method SerializeContainer(c: Container) returns (r: Option<ByteString>)
    requires c.timestamp < 0x1_0000_0000_0000_0000
    ensures r == if Writable(c) then Some(Serialized(c)) else None
  {
    hide Put16, Put64, Tail, Serialized;
    if |c.sha256| != DIGEST_BYTES || c.originalSize > MAX_FILE_SIZE || |c.filename| >= 0x1_0000
       || |c.mimeType| >= 0x1_0000 {
      return None;
    }
    var buffer := new Byte[MIN_CONTAINER_BYTES + |c.filename| + |c.mimeType| + |c.payload|];
    var offset := PutHead(buffer, c);
    HeadAndTail(c);
    offset := PutTail(buffer, offset, c);
    assert buffer[..] == buffer[..offset];
    return Some(buffer[..]);
  }

  /** Everything up to the MIME type. */
  function Head(c: Container): ByteString
    requires Writable(c)
  {
    MAGIC + Put16(CONTAINER_VERSION) + Put16(|c.filename|) + c.filename + Put16(|c.mimeType|) + c.mimeType
  }

  lemma HeadAndTail(c: Container)
    requires Writable(c)
    ensures Serialized(c) == Head(c) + Tail(c)
  {
    hide Put16, Tail;
  }

  method PutHead(buffer: array<Byte>, c: Container) returns (offset: nat)
    requires Writable(c) && buffer.Length >= 10 + |c.filename| + |c.mimeType|
    modifies buffer
    ensures offset == 10 + |c.filename| + |c.mimeType| && buffer[..offset] == Head(c)
  {
    hide Put16;
    offset := Put(buffer, 0, MAGIC);
    offset := Put(buffer, offset, Put16(CONTAINER_VERSION));
    offset := Put(buffer, offset, Put16(|c.filename|));
    offset := Put(buffer, offset, c.filename);
    offset := Put(buffer, offset, Put16(|c.mimeType|));
    offset := Put(buffer, offset, c.mimeType);
  }

  /** The second half of the writing. */
  method PutTail(buffer: array<Byte>, start: nat, c: Container) returns (offset: nat)
    requires Writable(c) && start + 18 + DIGEST_BYTES + |c.payload| == buffer.Length
    modifies buffer
    ensures offset == buffer.Length && buffer[..offset] == old(buffer[..start]) + Tail(c)
  {
    hide Put16, Put64;
    offset := Put(buffer, start, Put64(c.originalSize));
    offset := Put(buffer, offset, [Flag(c.compressed)]);
    offset := Put(buffer, offset, [Flag(c.encrypted)]);
    offset := Put(buffer, offset, Put64(c.timestamp));
    offset := Put(buffer, offset, c.sha256);
    offset := Put(buffer, offset, c.payload);
  }

  // ---------------------------------------------------------------- reading

  /** The container these bytes spell out, if they spell one out at all. */
  function Raw(b: ByteString): Option<Container> {
    if |b| < 8 || b[..4] != MAGIC || U16(b[4..][..2]) != CONTAINER_VERSION then None
    else
      var rest := b[4..][2..];
      var named := U16(rest[..2]);
      if |rest[2..]| < named + 2 then None
      else RawTyped(rest[2..][..named], rest[2..][named..])
  }

  function RawTyped(filename: ByteString, b: ByteString): Option<Container>
    requires |b| >= 2
  {
    var typed := U16(b[..2]);
    if |b[2..]| < typed then None else RawTail(filename, b[2..][..typed], b[2..][typed..])
  }

  function RawTail(filename: ByteString, mimeType: ByteString, b: ByteString): (c: Option<Container>)
    ensures c.Some? ==> c.value.filename == filename && c.value.mimeType == mimeType
  {
    if |b| < 18 + DIGEST_BYTES || b[8] > 1 || b[9] > 1 then None
    else Some(Container(filename, mimeType, U64(b[..8]), b[8] == 1, b[9] == 1, U64(b[10..18]),
                        b[18..18 + DIGEST_BYTES], b[18 + DIGEST_BYTES..]))
  }

  lemma Front(part: ByteString, rest: ByteString)
    ensures (part + rest)[..|part|] == part && (part + rest)[|part|..] == rest
  {
  }

  lemma TailReads(c: Container)
    requires Writable(c)
    ensures RawTail(c.filename, c.mimeType, Tail(c)) == Some(c)
  {
    hide Put64, U64;
    var b := Tail(c);
    Put64Reads(c.originalSize);
    Put64Reads(c.timestamp);
    assert b[..8] == Put64(c.originalSize);
    assert b[10..18] == Put64(c.timestamp);
    assert b[18..18 + DIGEST_BYTES] == c.sha256;
    assert b[18 + DIGEST_BYTES..] == c.payload;
  }

  lemma SerializedReads(c: Container)
    requires Writable(c)
    ensures Raw(Serialized(c)) == Some(c)
  {
    hide Put16, U16, Tail, RawTail;
    Put16Reads(CONTAINER_VERSION);
    Put16Reads(|c.filename|);
    Put16Reads(|c.mimeType|);
    TailReads(c);
    var typed := Put16(|c.mimeType|) + (c.mimeType + Tail(c));
    var named := Put16(|c.filename|) + (c.filename + typed);
    Front(MAGIC, Put16(CONTAINER_VERSION) + named);
    Front(Put16(CONTAINER_VERSION), named);
    Front(Put16(|c.filename|), c.filename + typed);
    Front(c.filename, typed);
    Front(Put16(|c.mimeType|), c.mimeType + Tail(c));
    Front(c.mimeType, Tail(c));
  }

  lemma Rejoins(b: ByteString, n: nat)
    requires n <= |b|
    ensures b == b[..n] + b[n..]
  {
  }

  lemma RawTailSerializes(filename: ByteString, mimeType: ByteString, b: ByteString)
    requires RawTail(filename, mimeType, b).Some? && |filename| < 0x1_0000 && |mimeType| < 0x1_0000
    ensures var c := RawTail(filename, mimeType, b).value;
            c.originalSize <= MAX_FILE_SIZE ==> Writable(c) && Tail(c) == b
  {
    hide Put64, U64;
    Read64Puts(b[..8]);
    Read64Puts(b[10..18]);
  }

  /** Whatever is read was written: nothing else spells this container. */
  lemma RawSerializes(b: ByteString)
    requires Raw(b).Some? && Raw(b).value.originalSize <= MAX_FILE_SIZE
    ensures Writable(Raw(b).value) && Serialized(Raw(b).value) == b
  {
    hide Put16, U16, Tail, RawTail;
    var rest := b[4..][2..];
    Read16Puts(b[4..][..2]);
    Read16Puts(rest[..2]);
    var named := U16(rest[..2]);
    var t := rest[2..][named..];
    Read16Puts(t[..2]);
    var typed := U16(t[..2]);
    RawTailSerializes(rest[2..][..named], t[2..][..typed], t[2..][typed..]);
    Rejoins(b, 4);
    Rejoins(b[4..], 2);
    Rejoins(rest, 2);
    Rejoins(rest[2..], named);
    Rejoins(t, 2);
    Rejoins(t[2..], typed);
  }

  // ---------------------------------------------------------------- the receiver's parser

  /** What the receiver keeps of a container, with the filename sanitized. */
  datatype Parsed = Parsed(
    filename: ByteString, mimeType: ByteString, originalSize: nat, compressed: bool, encrypted: bool,
      sha256: ByteString, payload: ByteString)

  function Kept(c: Container, text: Text): Parsed {
    Parsed(text.sanitize(c.filename), c.mimeType, c.originalSize, c.compressed, c.encrypted, c.sha256, c.payload)
  }

  /** Within the receiver's limits, with decodable text and no stray payload bytes. */
  predicate Acceptable(c: Container, text: Text) {
    && |c.filename| <= MAX_FILENAME_BYTES && |c.mimeType| <= MAX_MIME_BYTES && c.originalSize <= MAX_FILE_SIZE
    && text.valid(c.filename) && text.valid(c.mimeType)
    && (!c.compressed ==> |c.payload| == c.originalSize)
  }

  lemma SliceOfRest(b: ByteString, i: nat, n: nat)
    requires i + n <= |b|
    ensures b[i..][..n] == b[i..i + n] && b[i..][n..] == b[i + n..]
  {
  }

  lemma NameKept(filename: ByteString, b: ByteString, text: Text)
    requires |b| >= 2
    ensures RawTyped(filename, b).Some? ==> RawTyped(filename, b).value.filename == filename
    ensures RawTyped(filename, b).Some? && Acceptable(RawTyped(filename, b).value, text) ==>
              text.valid(filename) && |filename| <= MAX_FILENAME_BYTES
  {
    hide U16, RawTail;
  }

  lemma RawIsLong(bytes: ByteString)
    ensures Raw(bytes).Some? ==> |bytes| >= MIN_CONTAINER_BYTES
  {
    hide U16, U64;
  }

  lemma LongFilename(bytes: ByteString, text: Text)
    requires |bytes| >= 8 && U16(bytes[6..8]) > MAX_FILENAME_BYTES && bytes[4..][2..][..2] == bytes[6..8]
    ensures Raw(bytes).Some? ==> !Acceptable(Raw(bytes).value, text)
  {
    hide U16, RawTyped, Acceptable;
    if Raw(bytes).Some? {
      var rest := bytes[4..][2..];
      var named := U16(rest[..2]);
      NameKept(rest[2..][..named], rest[2..][named..], text);
    }
  }

  /** What the parser makes of a byte string. */
  predicate Judged(bytes: ByteString, text: Text, r: Result<Parsed, ErrorCode>) {
    && (r.Success? <==>
          && |bytes| <= MAX_FILE_SIZE && text.valid(MAGIC)
          && Raw(bytes).Some? && Acceptable(Raw(bytes).value, text))
    && (r.Success? ==> r.value == Kept(Raw(bytes).value, text))
    && (|bytes| < MIN_CONTAINER_BYTES || |bytes| > MAX_FILE_SIZE ==> r == Failure(ResourceLimitExceeded))
    && (MIN_CONTAINER_BYTES <= |bytes| <= MAX_FILE_SIZE ==>
          (r == Failure(InvalidMagic) <==> text.valid(bytes[..4]) && bytes[..4] != MAGIC))
    && (r == Failure(SizeMismatch) ==>
          Raw(bytes).Some? && !Raw(bytes).value.compressed
          && |Raw(bytes).value.payload| != Raw(bytes).value.originalSize)
  }

  /** The parser, reading at an advancing offset. Reading past the end counts as bad metadata, as for its caller. */
  method ParseContainer(bytes: ByteString, text: Text) returns (r: Result<Parsed, ErrorCode>)
    ensures Judged(bytes, text, r)
  {
    hide U16, U64, RawTyped, Acceptable;
    if |bytes| < MIN_CONTAINER_BYTES || |bytes| > MAX_FILE_SIZE {
      RawIsLong(bytes);
      return Failure(ResourceLimitExceeded);
    }
    SliceOfRest(bytes, 4, 2);
    SliceOfRest(bytes, 6, 2);
    var offset := 0;
    var magic := bytes[offset..offset + 4];
    offset := offset + 4;
    if !text.valid(magic) {
      return Failure(InvalidMetadata);
    }
    if magic != MAGIC {
      return Failure(InvalidMagic);
    }
    var version := U16(bytes[offset..offset + 2]);
    offset := offset + 2;
    if version != CONTAINER_VERSION {
      return Failure(UnsupportedProtocol);
    }
    var filenameLength := U16(bytes[offset..offset + 2]);
    offset := offset + 2;
    if filenameLength > MAX_FILENAME_BYTES {
      LongFilename(bytes, text);
      return Failure(ResourceLimitExceeded);
    }
    if offset + filenameLength + 2 > |bytes| {
      return Failure(InvalidMetadata);
    }
    SliceOfRest(bytes, 8, filenameLength);
    var filename := bytes[offset..offset + filenameLength];
    offset := offset + filenameLength;
    if !text.valid(filename) {
      NameKept(filename, bytes[offset..], text);
      return Failure(InvalidMetadata);
    }
    r := ParseTyped(bytes[offset..], filename, text);
  }

  /** The parser from the MIME type on. */
  method ParseTyped(bytes: ByteString, filename: ByteString, text: Text) returns (r: Result<Parsed, ErrorCode>)
    requires |bytes| >= 2 && |filename| <= MAX_FILENAME_BYTES && text.valid(filename)
    ensures r.Success? <==> RawTyped(filename, bytes).Some? && Acceptable(RawTyped(filename, bytes).value, text)
    ensures r.Success? ==> r.value == Kept(RawTyped(filename, bytes).value, text)
    ensures r != Failure(InvalidMagic)
    ensures r == Failure(SizeMismatch) ==>
              RawTyped(filename, bytes).Some? && !RawTyped(filename, bytes).value.compressed
              && |RawTyped(filename, bytes).value.payload| != RawTyped(filename, bytes).value.originalSize
  {
    hide U16, U64;
    var mimeLength := U16(bytes[..2]);
    var offset := 2;
    if mimeLength > MAX_MIME_BYTES {
      return Failure(ResourceLimitExceeded);
    }
    if offset + mimeLength > |bytes| {
      return Failure(InvalidMetadata);
    }
    var mimeType := bytes[offset..offset + mimeLength];
    offset := offset + mimeLength;
    ghost var tail := bytes[2..][mimeLength..];
    assert bytes[2..][..mimeLength] == mimeType && tail == bytes[offset..];
    if !text.valid(mimeType) || offset + 18 + DIGEST_BYTES > |bytes| {
      return Failure(InvalidMetadata);
    }
    var originalSize := U64(bytes[offset..offset + 8]);
    assert tail[..8] == bytes[offset..offset + 8];
    if originalSize > MAX_FILE_SIZE {
      return Failure(ResourceLimitExceeded);
    }
    var compressedFlag, encryptedFlag := bytes[offset + 8], bytes[offset + 9];
    if compressedFlag > 1 || encryptedFlag > 1 {
      return Failure(InvalidMetadata);
    }
    offset := offset + 18;
    var sha256 := bytes[offset..offset + DIGEST_BYTES];
    offset := offset + DIGEST_BYTES;
    var payload := bytes[offset..];
    assert tail[18..18 + DIGEST_BYTES] == sha256 && tail[18 + DIGEST_BYTES..] == payload;
    if compressedFlag == 0 && |payload| != originalSize {
      return Failure(SizeMismatch);
    }
    return Success(Parsed(text.sanitize(filename), mimeType, originalSize, compressedFlag == 1, encryptedFlag == 1,
                          sha256, payload));
  }

  /** The receiver accepts a byte string exactly when it is the serialization of an acceptable container. */
  lemma AcceptedIffSerialized(bytes: ByteString, text: Text)
    ensures Raw(bytes).Some? && Acceptable(Raw(bytes).value, text) <==>
              exists c :: Writable(c) && Acceptable(c, text) && bytes == Serialized(c)
  {
    hide Serialized, Raw, Writable, Acceptable;
    if Raw(bytes).Some? && Acceptable(Raw(bytes).value, text) {
      assert Raw(bytes).value.originalSize <= MAX_FILE_SIZE by {
        AcceptableFits(Raw(bytes).value, text);
      }
      RawSerializes(bytes);
    }
    forall c | Writable(c) && Acceptable(c, text) && bytes == Serialized(c)
      ensures Raw(bytes) == Some(c)
    {
      SerializedReads(c);
    }
  }

  lemma AcceptableFits(c: Container, text: Text)
    requires Acceptable(c, text)
    ensures c.originalSize <= MAX_FILE_SIZE
  {
  }

  /** The receiver's limits in full: it takes every container of text it can decode, with a name and a type of at most
      1024 bytes and a file of at most 64 MiB. */
  lemma AcceptableIff(c: Container, text: Text)
    ensures Acceptable(c, text) <==>
              && |c.filename| <= 1024 && |c.mimeType| <= 1024 && c.originalSize <= 67_108_864
              && text.valid(c.filename) && text.valid(c.mimeType)
              && (c.compressed || |c.payload| == c.originalSize)
  {
  }

  /** How a container begins: "DEQR", then version 1. */
  lemma Signature(c: Container)
    requires Writable(c)
    ensures Serialized(c)[..6] == [0x44, 0x45, 0x51, 0x52, 0, 1]
  {
    hide Tail;
    NetworkOrder(1);
    OctetHolds(0);
    assert Put16(CONTAINER_VERSION) == [0, 1];
    var rest := Put16(|c.filename|) + (c.filename + (Put16(|c.mimeType|) + (c.mimeType + Tail(c))));
    assert Serialized(c) == [0x44, 0x45, 0x51, 0x52, 0, 1] + rest;
  }

  /** Round trip: what the desktop writes within the receiver's limits is read back field for field. */
  lemma ContainerRoundTrip(c: Container, text: Text)
    requires Writable(c) && Acceptable(c, text) && text.sanitize(c.filename) == c.filename
    ensures Raw(Serialized(c)).Some? && Acceptable(Raw(Serialized(c)).value, text)
    ensures Kept(Raw(Serialized(c)).value, text)
         == Parsed(c.filename, c.mimeType, c.originalSize, c.compressed, c.encrypted, c.sha256, c.payload)
  {
    SerializedReads(c);
  }
}
