# DEQR transfer: verified model

DEQR moves a file across a one-way, lossy optical link: a desktop shows QR frames, a phone films them. This project
models the parts of both ends that decide whether the right file comes out, and proves what they are for. It has
five parts.

- **Fountain code, version 1.** `Peeling` is the theory: XOR equations over source blocks, and the least set of
  blocks closed under peeling the frames heard. `DesktopDecoder` and `PwaDecoder` are the two decoders as classes
  over a mutable graph of nodes with a work queue, `FountainEncoders` the sender, `FountainCode` the end-to-end
  statements, `Sampling` the generator and the degree distribution, `FrameCodec` and `Containers` the formats, and
  `ReceiverSessions` the generation-fenced session built on the PWA decoder.
- **Resumable storage.** `SegmentPlans`, `Base64`, `Checkpoints`, `OpfsStores` and `MemoryStores` are the plan, the
  checkpoint and its gate, and the two stores; `CrashSafety` is the transition system of whole runs of open, write,
  checkpoint, crash and reopen.
- **Client and worker.** `ReceiverClients` and `ReceiveWorkers` are the two objects, `ClientWorker` every
  interleaving of them over two first-in-first-out channels, and `Verdicts` why each answer is given and that it
  arrives.
- **Streaming verification.** `StreamDigests`, `Inflates` and `OriginalSinks`.
- **Fast forms.** `Crc32`, `FrameDedupe` and `RateWindows` against the simple forms they stand for; `ReceivePipelines`
  and `Provisioning` follow every store the asynchronous provisioner hands back.

Classes carry a value view (`View()`) and each method ties its new view to a step function of the old one; what the
program promises is then proved of those functions over every run.

## Where the code does not meet a promise

Each of these is stated with a concrete case and with the exact condition under which the promise holds.

- *A store is never disposed of twice* (`mobile-web/src/receive-pipeline.ts:1138-1145`) fails:
  `Provisioning.RetainedThenDiscarded` is a transfer interrupted while it decompresses. Its data is retained, the
  overtaken decompression then reports CANCELLED, and `verifyV2` discards the same store, deleting what was kept.
  `Provisioning.SecondDisposalIff`: it happens exactly when the store was no longer attached.
- *A checkpoint never claims absent bytes* fails for an `open` that does not resume over a directory that already
  holds one (`mobile-web/src/opfs-segment-store.ts:322-330`): `CrashSafety.OpenOverLosesASegment`.
  `CrashSafety.OpenOverIsSafeIff`: it holds exactly when the checkpoint in place cannot be adopted or claims no
  segment. The transition system admits such opens under that condition, and every `resume` open without one.
- *The in-flight counter is the number of unanswered frames* fails after a session ends with slots claimed
  (`mobile-web/src/receiver-client.ts:231-238`): `ClientWorker.CounterCanTrail`. `ClientWorker.SlotsNeverLeak`: the
  two are equal exactly when every slot given up at a session end has been matched by a frame settled without
  freeing one; `ClientWorker.StaleAnswerTakesASlot` says how the present session's count moves.
- *The two stores are interchangeable* fails for segments the plan does not cut: `MemoryStores.OnlyTheFileStoreValidates`.
  `MemoryStores.SameAnswerIff`: their answers are equal exactly for a repeat, an offset out of range, or a plan-cut
  segment within the budget.
- *A rate window counts the events of its last buckets* fails when times go back:
  `RateWindows.LateEventLosesTheLatest`. `RateWindows.TrueCountIff`: the count is right exactly when no event of the
  window was overwritten by a later event of another bucket in its slot.

## Model

| member | source | states |
|---|---|---|
| Peeling.ClosureIsClosed | src/core/fountain-decoder.ts:143-196 | the blocks peeling can reach form a set closed under peeling: a frame with one neighbour outside it has none |
| Peeling.ClosureIsLeast | src/core/fountain-decoder.ts:143-196 | that set lies inside every closed set |
| Peeling.QuiescentIsClosure | src/core/fountain-decoder.ts:143-196 | a graph with no node of degree one left to process, every equation truthful, has solved exactly the closure of what was heard |
| Peeling.GoodRipple | src/core/fountain-decoder.ts:160-194 | solving a block from a degree-one node and XORing it out of every other node, in any order, keeps every equation the XOR of source blocks |
| Peeling.GoodInsert | src/core/fountain-decoder.ts:91-108 | eliminating known blocks from a new frame leaves an equation over exactly its unsolved neighbours |
| Peeling.JoinSplit | src/core/fountain-encoder.ts:23-58 | cutting a payload into padded blocks, joining them and trimming gives the payload back |
| DesktopDecoder.FountainDecoder.ReceiveFrame | src/core/fountain-decoder.ts:37-116 | accepts a frame exactly when its metadata agrees (or, first, is within bounds); afterwards the solved blocks are exactly the closure of all the sequence numbers that have arrived, before or after completion; a refused frame changes nothing |
| DesktopDecoder.FountainDecoder.ArrivalsDecide | src/core/fountain-decoder.ts:37-196 | what has arrived decides what is solved and whether decoding is complete, although a complete decoder takes nothing more in |
| DesktopDecoder.FountainDecoder.Enter | src/core/fountain-decoder.ts:42-69 | the first frame fixes the session within the memory bounds, a later one must agree with it |
| DesktopDecoder.FountainDecoder.Take | src/core/fountain-decoder.ts:71-115 | one accepted frame, buffered, spent or rippled, keeps the decoder invariant and extends the log by exactly that frame |
| DesktopDecoder.FountainDecoder.ProcessRipple | src/core/fountain-decoder.ts:143-196 | the ripple ends (measure: unsolved blocks, then queue length) and leaves no buffered node below degree two unless everything is solved |
| DesktopDecoder.FountainDecoder.RippleOnce | src/core/fountain-decoder.ts:146-195 | each turn either solves one more block or shortens the queue |
| DesktopDecoder.FountainDecoder.SolveAndSweep | src/core/fountain-decoder.ts:152-194 | the branch for a block that was already solved is never reached; the swept graph is the solved equation XORed out of every node |
| DesktopDecoder.FountainDecoder.ReconstructPayload | src/core/fountain-decoder.ts:202-211 | succeeds exactly when decoding is complete, with the joined blocks cut to the declared length; otherwise names how many are missing |
| DesktopDecoder.FountainDecoder.MemoryIsBounded | src/core/fountain-decoder.ts:42-58 | whatever headers arrive, the blocks of a session never take more than 64 MiB and one block |
| DecoderNodes.DecoderNode.Remove | src/core/fountain-decoder.ts:176-184 | one in-place XOR and splice turns the equation into the one with that neighbour removed |
| DecoderNodes.Eliminate | src/core/fountain-decoder.ts:121-137 | removes exactly the known neighbours and XORs exactly their blocks |
| PwaDecoder.FountainDecoder.Receive | mobile-web/src/protocol.ts:88-97 | the answer to every delivery is the one owed to it: a foreign session, changed metadata, a conflicting repeat and want of room are each refused exactly when they occur, a repeat is a duplicate, and a new frame completes the transfer exactly when peeling can reach every block with it; the solved blocks are exactly the closure of the frames taken in, and a refusal changes none of them |
| PwaDecoder.FountainDecoder.Record | mobile-web/src/protocol.ts:92-96 | duplicate, conflict and limit each exactly when they occur (a full buffer refuses only a frame that still needs a missing block), otherwise one more frame in the log |
| PwaDecoder.FountainDecoder.ArrivalsDecide | mobile-web/src/protocol.ts:86-106 | while no frame has been thrown away, the sequence numbers seen decide what is solved |
| PwaDecoder.FountainDecoder.MemoryIsBounded | mobile-web/src/protocol.ts:93-102 | one transfer never makes the decoder remember more than 131,072 numbers, nor buffer more than 16 MiB of waiting frames (or a single one) |
| PwaDecoder.FountainDecoder.RefusedOnlyForRoom | mobile-web/src/protocol.ts:93-102 | a frame is refused for want of room only if it is new, and the transfer has heard 1024 frames more than it has blocks or one more waiting frame would pass 16 MiB |
| PwaDecoder.FountainDecoder.SystematicFramesNeverWait | mobile-web/src/protocol.ts:94-95 | a decoder that has heard only source blocks' own frames buffers none |
| PwaDecoder.FountainDecoder.Ripple | mobile-web/src/protocol.ts:105 | the ripple without an early exit ends and leaves no buffered node below degree two |
| PwaDecoder.FountainDecoder.SolveAndSweep | mobile-web/src/protocol.ts:105 | its already-solved branch is never reached either |
| PwaDecoder.FountainDecoder.Reconstruct | mobile-web/src/protocol.ts:99 | available exactly when every block is solved |
| FountainEncoders.FountainEncoder.constructor | src/core/fountain-encoder.ts:23-58 | splits the payload into blocks, the last padded with zeros |
| FountainEncoders.FountainEncoder.Create | src/core/fountain-encoder.ts:23-45 | refuses a payload that needs no block or more than 65535 |
| FountainEncoders.FountainEncoder.NextFrame | src/core/fountain-encoder.ts:63-96 | frame s carries the XOR of the source blocks at its neighbours; the first K are the padded blocks themselves |
| FountainCode.TruthfulBlocks | src/core/fountain-decoder.ts:91-211 | a decoder fed only frames of one encoder holds that payload's own padded blocks, and when complete, the payload |
| FountainCode.DesktopDecodes | src/core/fountain-decoder.ts:37-211 | every lossy, reordered, repeated delivery decodes to source blocks; completion reconstructs the payload exactly |
| FountainCode.PwaDecodes | mobile-web/src/protocol.ts:86-106 | the same for the PWA decoder |
| FountainCode.OrderDoesNotMatter | src/core/fountain-decoder.ts:37-196 | two decoders at which the same sequence numbers arrived have solved the same blocks and agree on completion, whenever each stopped listening |
| FountainCode.MoreFramesSolveMore | src/core/fountain-decoder.ts:37-196 | more arrivals never solve less |
| FountainCode.DecodersAgree | mobile-web/src/protocol.ts:86-106 | on the same arrivals, while the PWA has thrown nothing away, the two decoders solve the same blocks with the same bytes |
| FountainCode.SystematicFramesComplete | src/core/fountain-decoder.ts:80-83 | the arrival of each block's own frame completes the decoder |
| FountainCode.DeliverToDesktop | src/core/fountain-decoder.ts:37-116 | a whole delivery, in any order, with losses, repeats and foreign frames, solves the closure of the session's sequence numbers in it |
| FountainCode.DeliverToPwa | mobile-web/src/protocol.ts:88-97 | the same for the PWA, as long as no frame is refused for want of room; and none is while the numbers delivered are at most 1024 above the block count and are all source blocks' own or fit in 16 MiB |
| FountainCode.RoomIsEnough | mobile-web/src/protocol.ts:93-102 | a decoder with room for one number more never refuses its frame for want of it |
| FountainCode.AnyOrderDecodes | mobile-web/src/protocol.ts:86-106 | three deliveries of the same frames in any orders, two to desktop decoders and one to the PWA, solve the same blocks and complete together |
| FountainCode.DesktopReceives | src/core/fountain-decoder.ts:37-211 | from frames to bytes: shown any frames of one sender among others, a fresh decoder reconstructs the sender's payload or nothing, and does so exactly when peeling reaches every block from the numbers shown |
| FountainCode.PwaReceives | mobile-web/src/protocol.ts:88-99 | the same for the PWA, which never gives other bytes; with room for all the numbers shown it reconstructs exactly when peeling reaches every block |
| FountainCode.Transfer | mobile-web/tests/desktop-to-pwa-composition.test.ts:68-108 | encoder to both receivers: of the first n frames sent, those caught, in any order and with repeats, give each receiver the payload or nothing; a receiver that catches each source block's own frame has the payload |
| Sampling.PRNG.Next | src/core/prng.ts:18-23 | a number in [0, 1) determined by the state, which advances by a constant |
| Sampling.PRNG.NextInt | src/core/prng.ts:28-30 | a draw in the half-open range |
| Sampling.FractionRises | src/core/prng.ts:18-23 | draws are in the order of the words behind them, one for each |
| Sampling.SeedsDiffer | src/core/prng.ts:10-13 | two sequence numbers seed the same generator only if they are 0 and its stand-in 0xdeadbeef; a repair frame's number is never 0 |
| Sampling.FirstDraws | src/core/prng.ts:18-23 | the first two numbers drawn from seed 1, bit for bit |
| Sampling.InitDistribution | src/core/prng.ts:79-93 | for any nonnegative weights with a positive sum the cumulative distribution never falls and ends at 1 |
| Sampling.SampleDegree | src/core/prng.ts:98-114 | binary search finds the first degree that reaches the sample, for every nondecreasing distribution |
| Sampling.Degree | mobile-web/src/protocol.ts:82 | the linear scan finds the same degree |
| Sampling.FirstIsLeast | mobile-web/src/protocol.ts:82 | that degree is the least one reaching the sample, or the last |
| Sampling.SelectDistinctIndices | src/core/fountain-encoder.ts:102-108 | rejection sampling from a generator state, with a bound on the draws |
| Sampling.DrawnAreTheFirst | src/core/fountain-encoder.ts:102-108 | rejection sampling takes the first distinct numbers drawn, and ends exactly when there are enough of them |
| Sampling.DrawnIsLawful | src/core/fountain-encoder.ts:102-108 | a finished selection is distinct, in range and as long as asked |
| Sampling.PatienceDoesNotMatter | src/core/fountain-encoder.ts:104-106 | a finished selection does not depend on how long one was prepared to wait |
| Sampling.DesktopEquation | src/core/fountain-encoder.ts:72-75 | the sender's equation of a sequence number |
| Sampling.PwaEquation | mobile-web/src/protocol.ts:103 | the receiver derives the same equation |
| Sampling.EquationIsLawful | src/core/fountain-decoder.ts:84-89 | every derived equation lists between 1 and K distinct blocks below K |
| Sampling.EquationIs | mobile-web/src/protocol.ts:103 | the equation is the first distinct blocks drawn after the degree, as many as the first degree whose share reaches the first draw |
| Sampling.SampledCodeIsLawful | src/core/fountain-decoder.ts:76-89 | so the code both decoders are proved for includes the one they run |
| FrameCodec.SerializeFrameHeader | src/core/protocol.ts:49-82 | the twenty header bytes, or an error on another version or an oversized field |
| FrameCodec.CalculateChecksum | src/core/protocol.ts:38-44 | XOR of the first bytes of a buffer |
| FrameCodec.ChecksumJoins | src/core/protocol.ts:38-44 | the checksum of a concatenation is the XOR of the checksums of its parts |
| FrameCodec.HeaderLayout | src/core/protocol.ts:49-82 | each field at its offset, most significant byte first; a whole header sums to zero |
| FrameCodec.SurvivesIff | mobile-web/src/protocol.ts:32-49 | a serialized frame is parsed back unchanged exactly when it is within the receiver's limits |
| FrameCodec.EncoderFrameSurvives | src/core/protocol.ts:139-142 | every in-limit encoder frame survives serializing and parsing |
| FrameCodec.AcceptedIsSerialized | mobile-web/src/protocol.ts:32-49 | anything the parser accepts is the serialization of the frame it returns, and that frame is within limits |
| FrameCodec.SizeTest | mobile-web/src/protocol.ts:41-42 | the two-sided size test says exactly blockCount = ceil(totalPayloadLength / blockSize) |
| FrameCodec.OneBadHeaderByteIsRefused | mobile-web/src/protocol.ts:36 | damage to any one header byte of an accepted frame is refused as INVALID_FRAME |
| Containers.SerializeContainer | src/core/container.ts:47-125 | field by field into one buffer; refused on a digest, size or length that does not fit |
| Containers.ParseContainer | mobile-web/src/protocol.ts:60-76 | succeeds exactly on a well-formed, acceptable container; size, magic and payload-length errors have their own codes |
| Containers.AcceptedIffSerialized | mobile-web/src/protocol.ts:60-76 | the accepted byte strings are exactly the serializations of acceptable containers |
| Containers.ContainerRoundTrip | src/core/container.ts:47-125 | what the desktop writes within the receiver's limits is read back field for field |
| Containers.AcceptableIff | mobile-web/src/protocol.ts:60-75 | the receiver's limits in full: decodable name and type of at most 1024 bytes each, a file of at most 64 MiB, no stray payload bytes |
| Containers.Signature | src/core/container.ts:47-125 | a container begins with "DEQR" and version 1 |
| BigEndian.NetworkOrder | src/core/container.ts:47-125 | numbers are written most significant byte first |
| ReceiverSessions.ReceiverSession.Receive | mobile-web/src/protocol.ts:114-133 | state, counters and errors after every delivery, given the answer the decoder owes those bytes: each failure under its own code, each repeat counted; a session that is not over is verifying exactly when its decoder holds every block; a stray frame of another transfer is only counted, and no session fails for one |
| ReceiverSessions.ReceiverSession.Deliver | mobile-web/src/protocol.ts:117-132 | a frame during verification is counted but cannot restart it; a decoder error, and nothing else, fails the session; a frame that completes the decoder, and no other, starts verifying |
| ReceiverSessions.ReceiverSession.Verify | mobile-web/src/protocol.ts:134-143 | one verification per generation, over the reassembled bytes; it fails at once exactly for a container that cannot be read, is encrypted or names a blocked type, each under its own code |
| ReceiverSessions.ReceiverSession.ResumeInflated | mobile-web/src/protocol.ts:143-144 | a decompression that ends after its generation was overtaken leaves nothing visible |
| ReceiverSessions.ReceiverSession.ResumeDigest | mobile-web/src/protocol.ts:146-149 | a current verification ends in COMPLETE, with its own bytes and name, exactly when they hash to the declared digest, and otherwise in FAILED with HASH_MISMATCH; an overtaken one has no visible effect |
| ReceiverSessions.ReceiverSession.Cancel | mobile-web/src/protocol.ts:135 | leaves a session as new but cancelled, with the verifications of earlier generations overtaken |
| ReceiverSessions.ReceiverSession.Reset | mobile-web/src/protocol.ts:136 | leaves a session as new, ready for another transfer, with the verifications of earlier generations overtaken |
| ReceiverSessions.VerifyIsSound | mobile-web/src/protocol.ts:134-145 | starting a verification keeps: verified iff COMPLETE, error iff FAILED, one live verification, of this generation |
| ReceiverSessions.DigestIsSound | mobile-web/src/protocol.ts:146-149 | publishing keeps it, and an overtaken digest only shortens the list of waiting ones |
| ReceiverSessions.InflatedIsSound | mobile-web/src/protocol.ts:143-144 | and so does a decompression |
| ReceiverSessions.ReceiveIsSound | mobile-web/src/protocol.ts:114-133 | and every delivery |
| ReceiverSessions.VerifiedIffComplete | mobile-web/src/protocol.ts:112-165 | a file is exposed exactly in COMPLETE, with the declared length, the declared hash and, uncompressed, the container's own bytes |
| ReceiverSessions.CompleteIsTheFileSent | mobile-web/src/protocol.ts:112-165 | end to end: if every frame heard was one sender's, a completed session holds that sender's file |
| ReceiverSessions.Catch | mobile-web/src/protocol.ts:114-133 | a sender's frame, new or repeated, is never refused while there is room for its number |
| ReceiverSessions.VerifyCaught | mobile-web/src/protocol.ts:134-152 | verification of a good transfer, inflating what was compressed, ends in COMPLETE with the file |
| ReceiverSessions.TransferFile | mobile-web/tests/desktop-to-pwa-composition.test.ts:68-108 | one file from end to end: whatever numbers of a sender's frames a fresh session catches, with room for them, it goes to VERIFYING exactly when peeling reaches every block, and then ends in COMPLETE with the file that was sent |
| Crc32.Crc32Local | scripts/protocol/generate-v2-vectors.ts:439-448 | the bit-by-bit CRC-32 of section 8 of RFC 1952, over a prefix |
| Crc32.TableCrc.CrcTable | src/core/crc32.ts:22-34 | builds the table once; each entry is eight bit steps |
| Crc32.TableCrc.Checksum | src/core/crc32.ts:44-53 | the table-driven CRC of any clamped range equals the bit-by-bit one |
| Crc32.UndetectedIff | src/core/crc32.ts:44-53 | two equally long messages collide exactly when their XOR drives the register to zero |
| Crc32.BurstDetected | src/core/crc32.ts:44-53 | any change confined to at most four consecutive bytes changes the CRC |
| Crc32.SingleByteDetected | scripts/bench/phase11-certification.ts:683-689 | so does changing one byte, the corruption the certification channel injects |
| Crc32.ResidueOfAnyMessage | src/core/crc32.ts:44-53 | every message followed by its own checksum, least significant byte first, has the residue of this polynomial |
| Crc32.CheckValue | src/core/crc32.ts:44-53 | the checksum of the digits 1 to 9 is 0xCBF43926 |
| Base64.BytesToBase64 | mobile-web/src/opfs.ts:420-432 | the encoder computes the standard text (section 4 of RFC 4648) |
| Base64.Base64ToBytes | mobile-web/src/opfs.ts:434-453 | the decoder, with an accumulator that wraps as an int32, accepts exactly padded base64 text |
| Base64.RoundTrip | mobile-web/src/opfs.ts:420-453 | decoding an encoding gives the bytes back, for every byte sequence |
| Base64.EncodeIsInjective | mobile-web/src/opfs.ts:420-432 | no two byte sequences share a text |
| Base64.AlphabetRuns | mobile-web/src/opfs.ts:417 | the standard alphabet: three runs of consecutive letters and two signs |
| Base64.DecodesIff | mobile-web/src/opfs.ts:434-436 | what decodes at all: letters of the alphabet, then at most two pads, in a multiple of four characters |
| SegmentPlans.RangesAreDisjoint | src/core/protocol-v2.ts:428-437 | segment ranges do not overlap |
| SegmentPlans.RangesCover | src/core/protocol-v2.ts:428-437 | every byte of the stream lies in a segment's range |
| SegmentPlans.PlannedIff | src/core/protocol-v2.ts:364-400 | every transfer of at least a byte has just one plan for each segment size |
| SegmentPlans.FullIff | mobile-web/src/opfs-segment-store.ts:129-138 | all segments set, the segment count full, and the byte count equal to the transport size are one condition |
| SegmentPlans.CommittedBytesOf | mobile-web/src/opfs-segment-store.ts:129-138 | adds up the ranges of the set bits |
| SegmentPlans.PopByteHalves | mobile-web/src/opfs.ts:648-649 | the lookup-table recurrence counts bits |
| SegmentPlans.PopCountCounts | mobile-web/src/opfs.ts:737-738 | the byte-wise population count is the number of set segment bits |
| Checkpoints.Match | mobile-web/src/opfs.ts:691-749 | the gate, decoding and counting as the repository does, with its rejection for every mismatch |
| Checkpoints.AcceptedIsTallied | mobile-web/src/opfs.ts:731-748 | anything accepted has no bit past the last segment, the right count and the right byte sum, so seeding a store with it re-establishes the store invariant |
| Checkpoints.SnapshotAccepted | mobile-web/src/opfs-segment-store.ts:548-558 | the snapshot of every consistent store is accepted, with identical bitmap and counters |
| Checkpoints.AcceptedIff | mobile-web/src/opfs.ts:691-749 | a checkpoint is accepted with some progress exactly when identity, digest and plan match, its text is short enough and spells the bits (the empty text standing for none), and its counters agree with them |
| Checkpoints.AcceptedByOne | mobile-web/src/opfs.ts:698-711 | a checkpoint is accepted for at most one manifest |
| Checkpoints.PlannedIsAcceptable | mobile-web/src/opfs.ts:556-580 | every plan of up to 16,777,216 segments can be resumed |
| Checkpoints.RejectionsMean | mobile-web/src/opfs.ts:690-745 | what each rejection says is wrong is wrong |
| Checkpoints.SpareTest | mobile-web/src/opfs.ts:731-735 | the mask test on the last byte says exactly that no bit lies past the last segment |
| Checkpoints.CommittedTallied | mobile-web/src/opfs-segment-store.ts:417-423 | committing a new segment keeps bitmap and counters in step |
| OpfsStores.OpfsSegmentStore.constructor | mobile-web/src/opfs-segment-store.ts:174-209 | a fresh or adopted store satisfies the invariant and has handed over its first checkpoint |
| OpfsStores.OpfsSegmentStore.Write | mobile-web/src/opfs-segment-store.ts:393-431 | answer, file, bitmap, counters and checkpoint of every write, including short, failing and unflushed ones |
| OpfsStores.AnswersMean | mobile-web/src/opfs-segment-store.ts:393-457 | Ok exactly when the segment's bit is newly set, with its bytes down and flushed; INVALID exactly for a segment an open store does not want; FULL exactly for a wanted one the device has no space for; any other answer commits nothing and counts one refusal |
| OpfsStores.OpfsSegmentStore.Commit | mobile-web/src/opfs-segment-store.ts:417-431 | a written segment is counted once and gets a checkpoint |
| OpfsStores.OpfsSegmentStore.Read | mobile-web/src/opfs-segment-store.ts:467-480 | reads only inside the transport size, at most what was asked, exactly the stored bytes |
| OpfsStores.OpfsSegmentStore.CheckpointEnded | mobile-web/src/opfs-segment-store.ts:528-541 | a finished checkpoint write starts the one that was asked for meanwhile |
| OpfsStores.OpfsSegmentStore.PersistCheckpoint | mobile-web/src/opfs-segment-store.ts:543-546 | hands over a snapshot of everything committed |
| OpfsStores.StepKeepsStore | mobile-web/src/opfs-segment-store.ts:528-632 | every step keeps: at most one scheduled write out, and the last snapshot current or about to be replaced |
| OpfsStores.LifeIsRecorded | mobile-web/src/opfs-segment-store.ts:528-632 | in every life of a store, under all interleavings: one scheduled checkpoint out at most, and a quiescent open store, or one just sealed or disposed with retain, has every committed segment in the last snapshot |
| OpfsStores.QuiescentIsRecorded | mobile-web/src/opfs-segment-store.ts:528-541 | an open store with no write out has handed over a snapshot of everything committed |
| OpfsStores.FinalPersistRecords | mobile-web/src/opfs-segment-store.ts:568-632 | so have `seal` and `dispose('retain')` |
| OpfsStores.ClosedStaysRecorded | mobile-web/src/opfs-segment-store.ts:599-632 | and nothing after closing makes that record stale |
| CrashSafety.WriteKeepsBacked | mobile-web/src/opfs-segment-store.ts:393-431 | every write outcome leaves each claimed segment's bytes in the file, visible and durable |
| CrashSafety.RemainsBacked | mobile-web/src/opfs-segment-store.ts:411 | a crash or writeback cannot hurt a segment whose bytes were flushed |
| CrashSafety.InvIsInductive | mobile-web/src/opfs-segment-store.ts:219-433 | open, write, checkpoint, seal, dispose, crash and reopen, in any order, keep the invariant |
| CrashSafety.AdoptedSegmentsArePresent | mobile-web/src/opfs-segment-store.ts:240-265 | in every run, a checkpoint that open adopts claims only segments whose exact bytes are in the data file |
| CrashSafety.ResumeContinues | mobile-web/src/opfs-segment-store.ts:240-319 | in every state of a run, a resuming open that finds a checkpoint it accepts, with a segment in it, adopts just that one, leaves the directory alone, and runs with exactly the progress recorded |
| CrashSafety.ReopenContinues | mobile-web/src/opfs-segment-store.ts:240-319 | a checkpoint has landed: whatever the store then did, a crash at any point and a resuming open continue with exactly its progress, and if it recorded everything nothing is lost |
| CrashSafety.OneByteSurvives | mobile-web/src/opfs-segment-store.ts:219-433 | a run from an empty device that receives a byte, records it, loses power, opens again and has the byte |
| CrashSafety.CompleteFileIsTheStream | mobile-web/src/opfs-segment-store.ts:417-423 | in every run, once every bit is set the file is the transport stream |
| CrashSafety.OpenOverIsSafeIff | mobile-web/src/opfs-segment-store.ts:281-330 | an open that does not resume is crash-safe over an existing directory exactly when the checkpoint left there claims nothing |
| CrashSafety.OpenOverLosesASegment | mobile-web/src/opfs-segment-store.ts:322-330 | a concrete directory where it is not |
| MemoryStores.BoundedMemorySegmentStore.Write | mobile-web/src/segment-store.ts:182-202 | answer, contents and counters of every write |
| MemoryStores.MemoryAnswersMean | mobile-web/src/segment-store.ts:182-202 | a refusal is counted and changes nothing else; an accepted segment is one more held, within the budget |
| MemoryStores.BoundedMemorySegmentStore.Read | mobile-web/src/segment-store.ts:217-242 | the longest run of held bytes that fits, each the byte held at its offset |
| MemoryStores.BoundedMemorySegmentStore.Seal | mobile-web/src/segment-store.ts:261-267 | one buffer holding every segment at its offset, zero elsewhere |
| MemoryStores.WritesAgree | mobile-web/src/segment-store.ts:182-202 | offered the same plan-cut segment both stores give the same answer and still hold the same bytes; a committed range is never rewritten |
| MemoryStores.StoresRefineOneImage | mobile-web/src/segment-store.ts:182-242 | plan-cut segments in any order, repeats included, keep both stores images of one file |
| MemoryStores.SameImage | mobile-web/src/segment-store.ts:217-242 | the memory store answers for exactly the committed offsets, with the file's bytes |
| MemoryStores.FullTogether | mobile-web/src/segment-store.ts:204-210 | segment count full iff committed bytes equal the transport size, in both |
| MemoryStores.FreshStoresRefineOneImage | mobile-web/src/segment-store.ts:160-242 | from fresh stores, any sequence of plan-cut segments leaves both holding one image, full together |
| MemoryStores.SameAnswerIff | mobile-web/src/opfs-segment-store.ts:441-457 | over every segment: the two answers are equal exactly when it is a repeat, out of range, or plan-cut and within the budget; both take it exactly when it is new, plan-cut and within the budget |
| MemoryStores.OnlyTheFileStoreValidates | mobile-web/src/segment-store.ts:182-202 | a segment the memory store takes and the file-backed store refuses |
| StreamDigests.DigestSegmentStore | mobile-web/src/receive-pipeline.ts:319-362 | a digest is of exactly bytes [0, size) in order under any pattern of short reads; none exactly for a zero chunk, a short store, a read that moved nothing, or a cancel; a finished pass asked whether to stop as often as it owed, and no more often, and was never told to |
| Inflates.ReadExactly | mobile-web/src/inflate-verify.ts:243-251 | fills the buffer with exactly the bytes at the offset, or a read stalled or passed the end |
| Inflates.InflateMember | mobile-web/src/inflate-verify.ts:265-293 | a byte count, an overflow or a failure; never more output than the buffer holds |
| Inflates.RecordCeiling | src/core/compression-policy.ts:145-152 | the ceiling on a record admits any window sent as stored blocks, and at most one part in 2048 more |
| Inflates.InflateWindowContainer | mobile-web/src/inflate-verify.ts:121-240 | what each refusal may be blamed on; with reads and writes succeeding and no cancel, success exactly for containers that expand; a finished pass asked whether to stop as often as it owed, and no more often, and was never told to |
| Inflates.ExpandsIffWellFormed | mobile-web/src/inflate-verify.ts:155-228 | a container expands exactly when it is one well-formed record per window and nothing after |
| Inflates.WellFormedExpands | mobile-web/src/inflate-verify.ts:155-228 | a well-formed container expands to the windows its members decompress to |
| Inflates.PiecesTileTheFile | mobile-web/src/inflate-verify.ts:199-206 | the writes of a completed pass cover the original file, each byte once |
| OriginalSinks.BoundedMemoryOriginalSink.Write | mobile-web/src/segment-store.ts:314-323 | writes inside the declared size only, and only those bytes |
| OriginalSinks.CompletedPassRebuildsTheFile | mobile-web/src/segment-store.ts:305-323 | after a completed pass the sink holds the concatenated windows |
| ReceiverClients.ReceiverClient.OpenSession | mobile-web/src/receiver-client.ts:205-220 | a new epoch and an empty slot count, or an error once disposed |
| ReceiverClients.ReceiverClient.CloseSession | mobile-web/src/receiver-client.ts:231-238 | ends the epoch and gives up its slots |
| ReceiverClients.ReceiverClient.Submit | mobile-web/src/receiver-client.ts:266-291 | takes a frame exactly when there is a slot and a buffer; a refused post gives the slot back and loses the worker |
| ReceiverClients.ReceiverClient.OnMessage | mobile-web/src/receiver-client.ts:341-396 | a frame result of any epoch frees a slot; everything else is dropped unless its epoch is current |
| ReceiverClients.ReceiverClient.OnWorkerLost | mobile-web/src/receiver-client.ts:317-326 | releases every slot and ends the epoch |
| ReceiveWorkers.ReceiveWorker.Handle | mobile-web/src/receive-worker-core.ts:132-145 | what is posted for each request, and the state after it |
| ReceiveWorkers.ReceiveWorker.OnFrame | mobile-web/src/receive-worker-core.ts:235-253 | stale, foreign and decodable frames |
| ReceiveWorkers.ReceiveWorker.OnVerdict | mobile-web/src/receive-worker-core.ts:336-386 | an answer is posted only while its session is current |
| ReceiveWorkers.ReceiveWorker.PostProgress | mobile-web/src/receive-worker-core.ts:417-433 | the throttle, and what beats it |
| ClientWorker.HandlingAnswers | mobile-web/src/receive-worker-core.ts:235-292 | whatever becomes of a request, exactly one of the events posted for it ends the frame it carries, and none if it carries none |
| ClientWorker.SlotsKept | mobile-web/src/receiver-client.ts:266-358 | every step keeps the slot accounting |
| ClientWorker.SlotsNeverLeak | mobile-web/src/receiver-client.ts:192-358 | in every interleaving inFlight <= maxInFlight and inFlight <= unanswered <= inFlight + slots given up at session ends; exactly, unanswered + frames settled without freeing a slot = inFlight + slots given up, so the counts are equal exactly when those two are |
| ClientWorker.CaptureNeverWedges | mobile-web/src/receiver-client.ts:192-194 | a session that cannot take a frame is waiting for one of its own; drained channels mean it can |
| ClientWorker.StaleAnswerTakesASlot | mobile-web/src/receiver-client.ts:353-355 | in every run: within a session the counter falls behind by one exactly when an answer of an earlier session takes a slot, catches up exactly when an answer of its own finds none, and no other step of the system moves it |
| ClientWorker.CounterCanTrail | mobile-web/src/receiver-client.ts:231-238 | a run that opens, submits and closes: nothing counted, one frame unanswered |
| ClientWorker.DeliveryEnds | mobile-web/src/receiver-client.ts:341-396 | left to deliver, both channels run dry in a bounded number of steps |
| ClientWorker.FenceKept | mobile-web/src/receive-worker-core.ts:156-217 | every step keeps the session fence |
| ClientWorker.AnswersAreFenced | mobile-web/src/receiver-client.ts:205-254 | every progress, verified or failed callback is made in an open session and comes from the one pipeline built for the latest open |
| ClientWorker.FatalOutsideASession | mobile-web/src/receive-worker.ts:31-43 | in every run, outside a session `onFatal` fires exactly when the worker is lost, the next open cannot be posted, or a failure arrives under the present epoch, which only the close that ended the session can have caused |
| ClientWorker.FatalCanFollowAClose | mobile-web/src/receive-worker.ts:31-43 | a run of the last kind: the worker's own catch reports a close that threw |
| Verdicts.EventsAreCaused | mobile-web/src/receive-worker-core.ts:132-433 | in every run each event on its way to the client goes back to what happened in the worker: the decoding, the verdict, the age over 250 ms, the exception; progress is at once or due after 120 ms |
| Verdicts.CallbacksAreCaused | mobile-web/src/receiver-client.ts:341-396 | a file is reported verified only if a verification of that pipeline, asked for in that session, passed, and failed only if one did not; complete only if the pipeline was |
| Verdicts.RequestsAreAskedFor | mobile-web/src/receiver-client.ts:205-291 | in every run each request on its way to the worker was asked for, with that content, in that session |
| Verdicts.PresentSessionIsServed | mobile-web/src/receive-worker-core.ts:132-253 | in every run, when the worker comes to a frame or verification of the client's present session it is in that session, unless a failure is on its way to end it |
| Verdicts.SessionIsAnswered | mobile-web/src/receive-worker-core.ts:235-341 | so such a frame is answered with what decoding it came to unless older than 250 ms, completion is reported at once, and a verification is begun on the session's own pipeline |
| Verdicts.ReportIsCalled | mobile-web/src/receiver-client.ts:341-396 | events arrive in order while the worker lives, and a report that arrives in its own session makes exactly its callback |
| Verdicts.VerdictIsPosted | mobile-web/src/receive-worker-core.ts:336-386 | a verdict of the worker's own session is posted, as what it was, and is the only one; of any other, none |
| Verdicts.HashingIsPosted | mobile-web/src/receive-worker-core.ts:188-196 | a hash reports how far it has got exactly while its session is the worker's own |
| Verdicts.ReportsAreNoted | mobile-web/src/receive-worker-core.ts:417-433 | each progress report is remembered with its time and shape, and nothing else moves that memory |
| Verdicts.StaleDroppedCounts | mobile-web/src/receive-worker-core.ts:235-253 | in every run the count a worker sends along is of the frames dropped as too old since its session opened |
| Verdicts.VerdictIsDelivered | mobile-web/src/receive-worker-core.ts:336-386 | in every run a verdict whose session is still the client's when it arrives is reported as what it was |
| Verdicts.VerificationIsBegun | mobile-web/src/receive-worker-core.ts:336-341 | in every run a verification asked for in a session that lasts until the worker comes to it is begun |
| Verdicts.ClosedIsSilent | mobile-web/src/receiver-client.ts:231-238 | from a close until the next open the client hears nothing of any transfer |
| Verdicts.DisposedIsSilent | mobile-web/src/receiver-client.ts:247-254 | a client disposed of makes no callback ever again |
| Verdicts.ClosedWorkerIsSilent | mobile-web/src/receive-worker-core.ts:212-217 | a worker that has closed reports on no transfer until it opens again |
| ReceivePipelines.ReceivePipeline.SubmitManifest | mobile-web/src/receive-pipeline.ts:541-585 | when a manifest starts a session, and for which generation storage is asked |
| ReceivePipelines.ReceivePipeline.OnProvisioned | mobile-web/src/receive-pipeline.ts:711-762 | attach, refuse, or release and dispose |
| ReceivePipelines.ReceivePipeline.Reset | mobile-web/src/receive-pipeline.ts:1161-1202 | detaches, releases and disposes of the store under the policy its reason implies |
| ReceivePipelines.ReceivePipeline.DiscardWorkingData | mobile-web/src/receive-pipeline.ts:1138-1145 | releases and discards a store, detaching it if it is attached |
| Provisioning.InvIsInductive | mobile-web/src/receive-pipeline.ts:638-762 | sessions, provisioning and verification in any order keep the accounts |
| Provisioning.EveryStoreIsAccountedFor | mobile-web/src/receive-pipeline.ts:711-762 | in every run a store handed back is attached to the generation that asked, untouched, or was released and disposed once plus once per late discard |
| Provisioning.HandoverIsSafe | mobile-web/src/receive-pipeline.ts:711-724 | a store never displaces an attached one, the missing-manifest return never drops one, and a wanted one is attached untouched: adoptable starts the session, not adoptable faults it, all segments adopted completes it |
| Provisioning.SecondDisposalIff | mobile-web/src/receive-pipeline.ts:1138-1145 | a store is disposed of twice exactly when a verification discards it after it was detached |
| Provisioning.RetainedThenDiscarded | mobile-web/src/receive-pipeline.ts:1042-1062 | a run in which an interrupted transfer is retained and then deleted |
| Provisioning.DisposedIffEnded | mobile-web/src/receive-pipeline.ts:171-182 | over every run a store has been disposed of under a policy exactly when some event ended it so; only an interruption, a completion or a retaining default ever keeps data |
| Provisioning.OnlyWholeTransfersAreVerified | mobile-web/src/receive-pipeline.ts:970-985 | in every run a verification starts only on a transfer that is whole, sound and in hand |
| Provisioning.ReleasedIsFinal | mobile-web/src/receive-pipeline.ts:1161-1202 | once released, and until a reset, a pipeline holds no store, asks for none and takes none |
| FrameDedupe.BoundedFingerprintSet.Observe | mobile-web/src/frame-dedupe.ts:101-113 | known exactly when the fingerprint is among the last `capacity` inserted; inserted otherwise |
| FrameDedupe.BoundedFingerprintSet.Has | mobile-web/src/frame-dedupe.ts:90-92 | the same question without inserting |
| FrameDedupe.RingAdvances | mobile-web/src/frame-dedupe.ts:104-111 | writing over the oldest slot keeps the ring in step with the log |
| RateWindows.RateWindow.Record | mobile-web/src/metrics.ts:53-61 | one event joins the log, at any time; each slot keeps the counts of its events that are not overwritten |
| RateWindows.RateWindow.PerSecond | mobile-web/src/metrics.ts:64-72 | the events of the last buckets that are not overwritten, as a rate; all of them when each slot's events came in order and none lies ahead, as for times that never go back |
| RateWindows.RateWindow.BucketHolds | mobile-web/src/metrics.ts:45-72 | the bucket of a moment starts at or before it, and the next one after it |
| RateWindows.RateMakesTheCount | mobile-web/src/metrics.ts:64-72 | the rate, kept up for the whole window, makes the count |
| RateWindows.WindowIsLive | mobile-web/src/metrics.ts:64-72 | for every log, the stamped slots add up to what the window recorded and did not lose |
| RateWindows.TrueCountIff | mobile-web/src/metrics.ts:53-72 | for every log of positive counts, the ring has the true count of a window exactly when no event of it was overwritten |
| RateWindows.OrderedSlotsLoseNothing | mobile-web/src/metrics.ts:53-72 | in-order slots lose nothing of the window up to the latest event |
| RateWindows.LateEventLosesTheLatest | mobile-web/src/metrics.ts:53-61 | recorded into any fresh ring, an event one turn behind wipes out the latest bucket |

## Left out

- Neighbour lists: the decoders are proved for every lawful code; `Sampling` shows the sampled one is lawful whenever rejection sampling ends. That it ends depends on the generator's stream, so `Sampling.SelectDistinctIndices` carries a bound on the draws.
- Floating point: the soliton weights (logarithm, square root) are any nonnegative reals with a positive sum, and draws are exact reals; the two sides add their weights in different orders in floating point.
- `DesktopDecoder.FountainDecoder.ReceiveFrame`: asks for a payload as long as the block size and a positive block count, which the desktop decoder itself does not check; the PWA's parser does.
- gzip, SHA-256 and UTF-8 are abstract functions; decompression is the list of chunks a platform hands over and whether it then fails.
- Filename sanitizing: the two sanitizers differ, so container round trips take a filename both leave alone.
- The desktop's own `deserializeContainer`, `deserializeFrameHeader` and `deserializeFrame` (`src/core/container.ts:131-241`, `src/core/protocol.ts:88-151`), which only repeat the layouts proved for the PWA's parsers.
- Zeroing of released buffers, and what a caller sees of a buffer that was zeroed after it was handed out.
- `CrashSafety.InvIsInductive`: takes a checkpoint write as an atomic replacement that may fail, directory removal as succeeding, a checkpoint that exists as found when it is looked for, and a store's disposal as finished before the next open of the same session. After a crash, bytes on which the visible and the flushed copy agree are found again; any other byte may be anything.
- `CrashSafety.AdoptedSegmentsArePresent`: one manifest stands for one transport stream. The gate compares the digest of the original file and the plan, not a digest of the transport stream, so two streams that inflate to one file under one plan (a different compressor, say) are not told apart here or there.
- Sweeping other sessions' directories, the storage preflight, the file reserved for a compressed original, and the checkpoint fields the gate does not compare (filename, MIME type, protocol number).
- Checkpoint sizes are kept as decimal strings by the repository and as numbers here; the digest's hex digits as its bytes.
- Callbacks that call back into `ReceiverClient` while one of its methods runs, and a pipeline constructor that throws inside the worker.
- The worker's `reset` request, which the client never sends, and telemetry recording.
- `Provisioning.InvIsInductive`: covers the version 2 session; a version 1 frame in the same pipeline can only set a fault or completion, which the events `Faults` and `Completes` stand for. `release` and `dispose` of a store do not throw.
- Version 2 frame parsing and segment recovery, frame counters and rejection tallies of the pipeline, `LatencyReservoir`, both fingerprint hashes.
- React screens, the receiver state table, camera and QR decoding, the service worker, worker pools and benchmarks.
