/** What a session leaves on the device, and the gate that turns it back into live state. */
module Checkpoints {
  import opened Base64
  import opened Bytes
  import opened SegmentPlans

  const CHECKPOINT_SCHEMA: nat := 1
  const MAX_SEGMENT_COUNT: nat := 16_777_216

  /** The largest bitmap's text: base64 of one bit for each admissible segment. */
  const MAX_COMMITTED_CHARS: nat := (BitmapBytes(MAX_SEGMENT_COUNT) + 2) / 3 * 4

  datatype CheckpointState = Receiving | Complete | Verified

  /** Identity, digest and segmentation of one transfer. The digest stands for its 64 hex digits. */
  datatype Manifest = Manifest(
    sessionId: nat, fileId: nat, sha256: ByteString, symbolSizeBytes: nat, plan: SegmentPlan)

  datatype SessionCheckpoint = SessionCheckpoint(
    schema: nat, sessionId: nat, fileId: nat, sha256: ByteString,
    transportSize: nat, segmentSizeBytes: nat, symbolSizeBytes: nat, segmentCount: nat,
    createdAt: nat, updatedAt: nat,
    bytesCommitted: nat, segmentsCommitted: nat, committed: string, state: CheckpointState)

  datatype Rejection = Absent | Unreadable | SessionMismatch | FileMismatch | PlanMismatch | Inconsistent

  datatype Adoption = Adoption(committedBits: Bitmap, segmentsCommitted: nat, bytesCommitted: nat)

  predicate AcceptableManifest(m: Manifest) {
    && m.sessionId < 0x1_0000_0000 && m.fileId < 0x1_0000_0000 && |m.sha256| == 32
    && m.symbolSizeBytes > 0 && Planned(m.plan) && m.plan.segmentCount <= MAX_SEGMENT_COUNT
  }

  /** The field checks made on a checkpoint read back from disk. */
  predicate IsCheckpoint(c: SessionCheckpoint) {
    && c.schema == CHECKPOINT_SCHEMA
    && c.sessionId < 0x1_0000_0000 && c.fileId < 0x1_0000_0000 && |c.sha256| == 32
    && c.segmentSizeBytes > 0 && c.symbolSizeBytes > 0 && 0 < c.segmentCount <= MAX_SEGMENT_COUNT
    && |c.committed| <= MAX_COMMITTED_CHARS && Decode(c.committed).Some?
  }

  // ---------------------------------------------------------------- committed progress

  /** The three things a store accumulates: a bitmap and the two counters that must agree with it. */
  datatype Progress = Progress(bits: Bitmap, segments: nat, bytes: nat)

  ghost predicate Tallied(p: SegmentPlan, g: Progress) {
    && Planned(p)
    && |g.bits| == BitmapBytes(p.segmentCount)
    && NoSpareBits(g.bits, p.segmentCount)
    && g.segments == CountBelow(g.bits, p.segmentCount)
    && g.bytes == BytesBelow(p, g.bits, p.segmentCount)
  }

  function NoProgress(p: SegmentPlan): Progress {
    Progress(seq(BitmapBytes(p.segmentCount), _ => 0), 0, 0)
  }

  /** One more segment written. */
  function Committed(p: SegmentPlan, g: Progress, i: nat): Progress
    requires Planned(p) && i < p.segmentCount && i / 8 < |g.bits|
  {
    RangeFits(p, i);
    Progress(SetBit(g.bits, i), g.segments + 1, g.bytes + (End(p, i) - Start(p, i)))
  }

  lemma NoProgressTallied(p: SegmentPlan)
    requires Planned(p)
    ensures Tallied(p, NoProgress(p))
    ensures forall i: nat :: !IsSet(NoProgress(p).bits, i)
  {
    var bits := NoProgress(p).bits;
    forall i: nat
      ensures !IsSet(bits, i)
    {
      if i / 8 < |bits| {
        ZeroByte(i % 8);
      }
    }
    NothingCounted(p, bits, p.segmentCount);
  }

  lemma ZeroByte(k: nat)
    requires k < 8
    ensures 0 & Mask(k) == 0
  {
  }

  lemma {:induction false} NothingCounted(p: SegmentPlan, bits: Bitmap, n: nat)
    requires Planned(p) && n <= p.segmentCount && forall i: nat :: !IsSet(bits, i)
    ensures CountBelow(bits, n) == 0 && BytesBelow(p, bits, n) == 0
  {
    hide IsSet;
    if n > 0 {
      NothingCounted(p, bits, n - 1);
    }
  }

  /** Committing a segment that was not committed keeps bitmap and counters in step. */
  lemma CommittedTallied(p: SegmentPlan, g: Progress, i: nat)
    requires Tallied(p, g) && i < p.segmentCount && !IsSet(g.bits, i)
    ensures i / 8 < |g.bits| && Tallied(p, Committed(p, g, i))
    ensures forall k: nat :: IsSet(Committed(p, g, i).bits, k) <==> k == i || IsSet(g.bits, k)
    ensures Committed(p, g, i).segments <= p.segmentCount
  {
    hide IsSet, SetBit;
    assert i / 8 < BitmapBytes(p.segmentCount);
    SetLength(g.bits, i);
    forall k: nat
      ensures IsSet(SetBit(g.bits, i), k) <==> k == i || IsSet(g.bits, k)
    {
      SetBitSets(g.bits, i, k);
    }
    CountAfterSet(g.bits, i, p.segmentCount);
    BytesAfterSet(p, g.bits, i, p.segmentCount);
  }

  lemma SetLength(bits: Bitmap, i: nat)
    requires i / 8 < |bits|
    ensures |SetBit(bits, i)| == |bits|
  {
  }

  // ---------------------------------------------------------------- the snapshot and the gate

  function Snapshot(m: Manifest, g: Progress, state: CheckpointState, createdAt: nat, updatedAt: nat)
    : SessionCheckpoint
  {
    SessionCheckpoint(CHECKPOINT_SCHEMA, m.sessionId, m.fileId, m.sha256,
                      m.plan.transportSize, m.plan.segmentSizeBytes, m.symbolSizeBytes, m.plan.segmentCount,
                      createdAt, updatedAt, g.bytes, g.segments, Encode(g.bits), state)
  }

  predicate SamePlan(c: SessionCheckpoint, m: Manifest) {
    && c.transportSize == m.plan.transportSize && c.segmentSizeBytes == m.plan.segmentSizeBytes
    && c.symbolSizeBytes == m.symbolSizeBytes && c.segmentCount == m.plan.segmentCount
  }

  /** Bits of a byte at or past `spare`: `b & ~((1 << spare) - 1)`. */
  function BitsFrom(b: bv8, spare: nat): bv8
    requires 0 < spare < 8
  {
    b & !(Mask(spare) - 1)
  }

  function MatchCheckpoint(checkpoint: Option<SessionCheckpoint>, present: bool, m: Manifest)
    : Result<Adoption, Rejection>
    requires Planned(m.plan)
  {
    match checkpoint
    case None => Failure(if present then Unreadable else Absent)
    case Some(c) =>
      if c.sessionId != m.sessionId || c.fileId != m.fileId then Failure(SessionMismatch)
      else if c.sha256 != m.sha256 then Failure(FileMismatch)
      else if !SamePlan(c, m) then Failure(PlanMismatch)
      else if |c.committed| > MAX_COMMITTED_CHARS then Failure(Unreadable)
      else
        match Decode(c.committed)
        case None => Failure(Unreadable)
        case Some(decoded) => MatchBits(c, decoded, m)
  }

  function MatchBits(c: SessionCheckpoint, decoded: Bitmap, m: Manifest): Result<Adoption, Rejection>
    requires Planned(m.plan)
  {
    var wanted := BitmapBytes(m.plan.segmentCount);
    if |decoded| != 0 && |decoded| != wanted then Failure(Inconsistent)
    else
      var bits := if |decoded| == 0 then seq(wanted, _ => 0) else decoded;
      var spare := m.plan.segmentCount % 8;
      if spare != 0 && BitsFrom(bits[wanted - 1], spare) != 0 then Failure(Inconsistent)
      else if PopCount(bits) != c.segmentsCommitted then Failure(Inconsistent)
      else if BytesBelow(m.plan, bits, m.plan.segmentCount) != c.bytesCommitted then Failure(Inconsistent)
      else Success(Adoption(bits, c.segmentsCommitted, c.bytesCommitted))
  }

  /** The gate as the source runs it: decode, then compare the bitmap with its own counters. */
  method Match(checkpoint: Option<SessionCheckpoint>, present: bool, m: Manifest)
    returns (r: Result<Adoption, Rejection>)
    requires Planned(m.plan)
    ensures r == MatchCheckpoint(checkpoint, present, m)
  {
    if checkpoint.None? {
      return Failure(if present then Unreadable else Absent);
    }
    var c := checkpoint.value;
    if c.sessionId != m.sessionId || c.fileId != m.fileId {
      return Failure(SessionMismatch);
    }
    if c.sha256 != m.sha256 {
      return Failure(FileMismatch);
    }
    if !SamePlan(c, m) {
      return Failure(PlanMismatch);
    }
    if |c.committed| > MAX_COMMITTED_CHARS {
      return Failure(Unreadable);
    }
    var decoded := Base64ToBytes(c.committed);
    if decoded.None? {
      return Failure(Unreadable);
    }
    var wanted := BitmapBytes(m.plan.segmentCount);
    var bits: Bitmap := seq(wanted, _ => 0);
    if |decoded.value| != 0 {
      if |decoded.value| != wanted {
        return Failure(Inconsistent);
      }
      bits := decoded.value;
    }
    var spare := m.plan.segmentCount % 8;
    if spare != 0 && BitsFrom(bits[wanted - 1], spare) != 0 {
      return Failure(Inconsistent);
    }
    var segmentsCommitted := CountCommitted(bits);
    if segmentsCommitted != c.segmentsCommitted {
      return Failure(Inconsistent);
    }
    var bytesCommitted := CommittedBytesOf(m.plan, bits);
    if bytesCommitted != c.bytesCommitted {
      return Failure(Inconsistent);
    }
    return Success(Adoption(bits, segmentsCommitted, bytesCommitted));
  }

  function Seeded(a: Adoption): Progress {
    Progress(a.committedBits, a.segmentsCommitted, a.bytesCommitted)
  }

  ghost predicate ClearFrom(b: bv8, spare: nat) {
    forall k :: spare <= k < 8 ==> b & Mask(k) == 0
  }

  lemma SpareMask(b: bv8, spare: nat)
    requires 0 < spare < 8
    ensures BitsFrom(b, spare) == 0 <==> ClearFrom(b, spare)
  {
    SpareBits(b, spare);
    if BitsFrom(b, spare) != 0 {
      assert b & Mask(7) != 0 || (spare <= 6 && b & Mask(6) != 0) || (spare <= 5 && b & Mask(5) != 0)
             || (spare <= 4 && b & Mask(4) != 0)
             || (spare <= 3 && b & Mask(3) != 0) || (spare <= 2 && b & Mask(2) != 0)
             || (spare <= 1 && b & Mask(1) != 0);
    }
  }

  lemma SpareBits(b: bv8, spare: nat)
    requires 0 < spare < 8
    ensures BitsFrom(b, spare) == 0 <==>
              && b & 128 == 0 && (spare <= 6 ==> b & 64 == 0) && (spare <= 5 ==> b & 32 == 0)
              && (spare <= 4 ==> b & 16 == 0)
              && (spare <= 3 ==> b & 8 == 0) && (spare <= 2 ==> b & 4 == 0) && (spare <= 1 ==> b & 2 == 0)
  {
  }

  /** The last byte's mask test says exactly that no bit lies past the last segment. */
  lemma SpareTest(bits: Bitmap, count: nat)
    requires 0 < count && |bits| == BitmapBytes(count)
    ensures NoSpareBits(bits, count) <==> count % 8 == 0 || BitsFrom(bits[|bits| - 1], count % 8) == 0
  {
    hide Mask, BitsFrom, NoSpareBits, ClearFrom, BitmapBytes;
    BitmapShape(count);
    var last, spare := |bits| - 1, count % 8;
    if spare == 0 {
      WholeBytes(bits, count);
    } else {
      SpareMask(bits[last], spare);
      if NoSpareBits(bits, count) {
        LastByteIsClear(bits, count, last, spare);
      }
      if BitsFrom(bits[last], spare) == 0 {
        ClearLastByte(bits, count, last, spare);
      }
    }
  }

  lemma BitmapShape(count: nat)
    requires 0 < count
    ensures BitmapBytes(count) > 0
    ensures count % 8 == 0 ==> 8 * BitmapBytes(count) == count
    ensures count % 8 != 0 ==> count == 8 * (BitmapBytes(count) - 1) + count % 8
  {
  }

  lemma WholeBytes(bits: Bitmap, count: nat)
    requires 8 * |bits| == count
    ensures NoSpareBits(bits, count)
  {
    hide Mask;
  }

  lemma LastByteIsClear(bits: Bitmap, count: nat, last: nat, spare: nat)
    requires NoSpareBits(bits, count) && last < |bits| && spare < 8 && count == 8 * last + spare
    ensures ClearFrom(bits[last], spare)
  {
    hide Mask;
    forall k | spare <= k < 8
      ensures bits[last] & Mask(k) == 0
    {
      assert (8 * last + k) / 8 == last && (8 * last + k) % 8 == k;
      assert !IsSet(bits, 8 * last + k);
    }
  }

  lemma ClearLastByte(bits: Bitmap, count: nat, last: nat, spare: nat)
    requires last + 1 == |bits| && spare < 8 && count == 8 * last + spare
    requires ClearFrom(bits[last], spare)
    ensures NoSpareBits(bits, count)
  {
    hide Mask;
    forall i: nat | i >= count
      ensures !IsSet(bits, i)
    {
      assert i / 8 == last ==> spare <= i % 8;
    }
  }

  // ---------------------------------------------------------------- what the gate lets through

  /** Anything accepted for a manifest re-establishes the store's invariant when it seeds the constructor. */
  lemma AcceptedIsTallied(c: SessionCheckpoint, m: Manifest)
    requires Planned(m.plan) && MatchCheckpoint(Some(c), true, m).Success?
    ensures Tallied(m.plan, Seeded(MatchCheckpoint(Some(c), true, m).value))
    ensures c.sessionId == m.sessionId && c.fileId == m.fileId && c.sha256 == m.sha256 && SamePlan(c, m)
  {
    var bits := MatchCheckpoint(Some(c), true, m).value.committedBits;
    var count := m.plan.segmentCount;
    SpareTest(bits, count);
    PopCountCounts(bits);
    CountPastEnd(bits, count, 8 * |bits|);
  }

  /** The gate accepts the snapshot of every store whose counters agree with its bitmap, with the same progress. */
  lemma SnapshotAccepted(m: Manifest, g: Progress, state: CheckpointState, createdAt: nat, updatedAt: nat)
    requires AcceptableManifest(m) && Tallied(m.plan, g)
    ensures IsCheckpoint(Snapshot(m, g, state, createdAt, updatedAt))
    ensures MatchCheckpoint(Some(Snapshot(m, g, state, createdAt, updatedAt)), true, m)
         == Success(Adoption(g.bits, g.segments, g.bytes))
  {
    hide Encode, Decode, NoSpareBits, IsSet, BitsFrom;
    RoundTrip(g.bits);
    TalliedPasses(m, g);
  }

  lemma TalliedPasses(m: Manifest, g: Progress)
    requires Tallied(m.plan, g)
    ensures |g.bits| == BitmapBytes(m.plan.segmentCount) && g.bits != []
    ensures m.plan.segmentCount % 8 == 0 || BitsFrom(g.bits[|g.bits| - 1], m.plan.segmentCount % 8) == 0
    ensures PopCount(g.bits) == g.segments && BytesBelow(m.plan, g.bits, m.plan.segmentCount) == g.bytes
  {
    hide IsSet, BitsFrom;
    SpareTest(g.bits, m.plan.segmentCount);
    PopCountCounts(g.bits);
    CountPastEnd(g.bits, m.plan.segmentCount, 8 * |g.bits|);
  }

  /** The text stands for these bits; the empty text stands for no bit at all. */
  predicate Spells(text: string, bits: Bitmap, p: SegmentPlan) {
    Decode(text) == Some(bits) || (Decode(text) == Some([]) && bits == NoProgress(p).bits)
  }

  /** A checkpoint is accepted, with just this progress, exactly when it matches the manifest, its text is short enough
      and spells the bits, and its counters and the bits could be some store's. */
  lemma AcceptedIff(c: SessionCheckpoint, m: Manifest, g: Progress)
    requires AcceptableManifest(m)
    ensures MatchCheckpoint(Some(c), true, m) == Success(Adoption(g.bits, g.segments, g.bytes)) <==>
              && c.sessionId == m.sessionId && c.fileId == m.fileId && c.sha256 == m.sha256 && SamePlan(c, m)
              && |c.committed| <= MAX_COMMITTED_CHARS && Spells(c.committed, g.bits, m.plan)
              && g.segments == c.segmentsCommitted && g.bytes == c.bytesCommitted && Tallied(m.plan, g)
  {
    hide Decode, BitsFrom, PopCount, BytesBelow;
    if Tallied(m.plan, g) {
      TalliedPasses(m, g);
    }
    if MatchCheckpoint(Some(c), true, m).Success? {
      AcceptedIsTallied(c, m);
    }
  }

  /** Every plan of up to 16,777,216 segments can be resumed. */
  lemma PlannedIsAcceptable(m: Manifest)
    requires Planned(m.plan) && m.plan.segmentCount <= 16_777_216 && m.symbolSizeBytes > 0
    requires m.sessionId < 0x1_0000_0000 && m.fileId < 0x1_0000_0000 && |m.sha256| == 32
    ensures AcceptableManifest(m)
  {
  }

  /** What each rejection says is wrong. */
  lemma RejectionsMean(checkpoint: Option<SessionCheckpoint>, present: bool, m: Manifest)
    requires Planned(m.plan) && MatchCheckpoint(checkpoint, present, m).Failure?
    ensures var why := MatchCheckpoint(checkpoint, present, m).error;
            && (why.Absent? <==> checkpoint.None? && !present)
            && (checkpoint.None? && present ==> why.Unreadable?)
            && (checkpoint.Some? ==>
                  var c := checkpoint.value;
                  && (why.SessionMismatch? <==> c.sessionId != m.sessionId || c.fileId != m.fileId)
                  && (why.FileMismatch? ==> c.sha256 != m.sha256) && (why.PlanMismatch? ==> !SamePlan(c, m))
                  && (why.Unreadable? ==> |c.committed| > MAX_COMMITTED_CHARS || Decode(c.committed).None?)
                  && (why.Inconsistent? ==>
                        && c.sha256 == m.sha256 && SamePlan(c, m) && Decode(c.committed).Some?
                        && forall g: Progress :: Spells(c.committed, g.bits, m.plan) && Tallied(m.plan, g) ==>
                             g.segments != c.segmentsCommitted || g.bytes != c.bytesCommitted))
  {
    hide Decode, BitsFrom, PopCount, BytesBelow, Tallied;
    if checkpoint.Some? && MatchCheckpoint(checkpoint, present, m).error.Inconsistent? {
      var c := checkpoint.value;
      forall g: Progress | Spells(c.committed, g.bits, m.plan) && Tallied(m.plan, g)
        ensures g.segments != c.segmentsCommitted || g.bytes != c.bytesCommitted
      {
        TalliedPasses(m, g);
      }
    }
  }

  /** A manifest is determined by what the gate compares: two that accept one checkpoint are the same transfer. */
  lemma AcceptedByOne(c: SessionCheckpoint, m: Manifest, n: Manifest)
    requires Planned(m.plan) && Planned(n.plan)
    requires MatchCheckpoint(Some(c), true, m).Success? && MatchCheckpoint(Some(c), true, n).Success?
    ensures m == n
  {
  }
}
