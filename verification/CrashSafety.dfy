/**
 Whole runs of a device: open, write, checkpoint, crash, reopen, over one session directory.
 Whatever the interleaving, a checkpoint that `open` adopts claims only segments whose exact
 bytes are already in the data file.
 */
module CrashSafety {
  import opened Bytes
  import opened Checkpoints
  import opened OpfsStores
  import opened SegmentPlans

  /** The transport stream each manifest describes. */
  type Streams = Manifest -> ByteString

  ghost predicate Consistent(streams: Streams) {
    forall m: Manifest :: |streams(m)| == m.plan.transportSize
  }

  datatype CheckpointFile = NoFile | Damaged | Readable(checkpoint: SessionCheckpoint)
  datatype Disk = Disk(checkpoint: CheckpointFile, data: Option<File>)

  /** Where the one process that may use the directory has got to. */
  datatype Phase =
    | Idle
    | Fresh(manifest: Manifest, openedAt: nat)
    | Adopting(manifest: Manifest, adoption: Adoption, createdAt: nat)
    | Running(store: Store)

  /** `writing` holds the snapshots whose checkpoint writes have neither landed nor failed. */
  datatype World = World(disk: Disk, phase: Phase, writing: set<SessionCheckpoint>)

  datatype Event =
    | OpenResume(manifest: Manifest, now: nat)
    | OpenOver(manifest: Manifest, now: nat)
    | FreshFails(remains: File)
    | FreshStarts(now: nat)
    | AdoptStarts(now: nat)
    | AdoptFails
    | Step(event: StoreEvent, now: nat)
    | CheckpointLands(checkpoint: SessionCheckpoint)
    | CheckpointFails(checkpoint: SessionCheckpoint)
    | Writeback(durable: ByteString)
    | Closed
    | Removed
    | Crash(left: ByteString)

  // ---------------------------------------------------------------- what a device may do on its own

  /** `left` could be found on the medium: where both copies of the file agree, so does it. */
  ghost predicate CouldRemain(file: File, left: ByteString) {
    && (|file.visible| == |file.durable| ==> |left| == |file.visible|)
    && forall k :: 0 <= k < |left| && k < |file.visible| && k < |file.durable| && file.visible[k] == file.durable[k] ==>
         left[k] == file.visible[k]
  }

  /** A segment offered to `write` carries its range of the stream. */
  ghost predicate Genuine(streams: Streams, m: Manifest, segment: StoredSegment) {
    var p := m.plan;
    0 <= segment.segmentIndex < p.segmentCount
    && |segment.bytes| == End(p, segment.segmentIndex) - Start(p, segment.segmentIndex) ==>
      forall k :: 0 <= k < |segment.bytes| && Start(p, segment.segmentIndex) + k < |streams(m)| ==>
        segment.bytes[k] == streams(m)[Start(p, segment.segmentIndex) + k]
  }

  // ---------------------------------------------------------------- the transition system

  function Checkpoint(d: Disk): Option<SessionCheckpoint> {
    if d.checkpoint.Readable? then Some(d.checkpoint.checkpoint) else None
  }

  ghost predicate Enabled(streams: Streams, w: World, e: Event) {
    match e
    case OpenResume(m, _) => w.phase.Idle? && AcceptableManifest(m)
    case OpenOver(m, _) => w.phase.Idle? && AcceptableManifest(m) && Harmless(w.disk.checkpoint)
    case FreshFails(_) => w.phase.Fresh?
    case FreshStarts(_) => w.phase.Fresh?
    case AdoptStarts(_) => w.phase.Adopting?
    case AdoptFails => w.phase.Adopting?
    case Step(event, _) =>
      && w.phase.Running? && w.disk.data.Some? && CanStep(w.phase.store, event)
      && Planned(w.phase.store.manifest.plan)
      && |w.phase.store.progress.bits| == BitmapBytes(w.phase.store.manifest.plan.segmentCount)
      && (event.Write? ==> Genuine(streams, w.phase.store.manifest, event.segment))
    case CheckpointLands(c) => c in w.writing
    case CheckpointFails(c) => c in w.writing
    case Writeback(durable) => w.disk.data.Some? && CouldRemain(w.disk.data.value, durable)
    case Closed => w.phase.Running? && w.phase.store.closed && w.writing == {}
    case Removed => w.phase.Running? && w.phase.store.closed
    case Crash(left) => w.disk.data.Some? ==> CouldRemain(w.disk.data.value, left)
  }

  const EMPTY: Disk := Disk(NoFile, None)

  ghost function Apply(streams: Streams, w: World, e: Event): World
    requires Enabled(streams, w, e)
  {
    match e
    case OpenResume(m, now) =>
      (match MatchCheckpoint(Checkpoint(w.disk), w.disk.checkpoint != NoFile, m)
       case Success(a) => w.(phase := Adopting(m, a, w.disk.checkpoint.checkpoint.createdAt))
       case Failure(Absent) => w.(phase := Fresh(m, now))
       case Failure(_) => w.(disk := EMPTY, phase := Fresh(m, now)))
    case OpenOver(m, now) => OverExisting(w, m, now)
    case FreshFails(left) => w.(disk := w.disk.(data := Some(left)), phase := Idle)
    case FreshStarts(now) =>
      // The probe has emptied the file; pre-sizing it fills it with zeros, none of it flushed.
      var m := w.phase.manifest;
      Launch(w.(disk := w.disk.(data := Some(Presized(w.disk, m)))), m, NoProgress(m.plan), w.phase.openedAt, now)
    case AdoptStarts(now) =>
      var m := w.phase.manifest;
      if w.disk.data.Some? && |w.disk.data.value.visible| == m.plan.transportSize
      then Launch(w, m, Seeded(w.phase.adoption), w.phase.createdAt, now)
      else w.(disk := EMPTY, phase := Fresh(m, now))
    case AdoptFails => w.(phase := Idle)
    case Step(event, now) =>
      var (after, file) := StoreStep(w.phase.store, w.disk.data.value, event, now);
      World(w.disk.(data := Some(file)), Running(after), w.writing + NewlyHanded(w.phase.store, after))
    case CheckpointLands(c) => w.(disk := w.disk.(checkpoint := Readable(c)), writing := w.writing - {c})
    case CheckpointFails(c) => w.(writing := w.writing - {c})
    case Writeback(durable) => w.(disk := w.disk.(data := Some(w.disk.data.value.(durable := durable))))
    case Closed => w.(phase := Idle)
    case Removed => World(EMPTY, Idle, {})
    case Crash(left) => World(w.disk.(data := if w.disk.data.Some? then Some(File(left, left)) else None), Idle, {})
  }

  function Presized(d: Disk, m: Manifest): File {
    File(Zeros(m.plan.transportSize), if d.data.Some? then d.data.value.durable else [])
  }

  /** An `open` that does not resume: the directory is not looked at, and its checkpoint stays. */
  function OverExisting(w: World, m: Manifest, now: nat): World {
    w.(phase := Fresh(m, now))
  }

  /** The only manifest a checkpoint can match. */
  function ManifestOf(c: SessionCheckpoint): Manifest {
    Manifest(c.sessionId, c.fileId, c.sha256, c.symbolSizeBytes,
             SegmentPlan(c.transportSize, c.segmentSizeBytes, c.segmentCount))
  }

  /** Nothing could be adopted from this file, or nothing is claimed by it. */
  predicate Harmless(file: CheckpointFile) {
    match file
    case Readable(c) =>
      !AcceptableManifest(ManifestOf(c)) || MatchCheckpoint(Some(c), true, ManifestOf(c)).Failure?
      || c.segmentsCommitted == 0
    case _ => true
  }

  function Launch(w: World, m: Manifest, seed: Progress, createdAt: nat, now: nat): World {
    var store := Opened(m, seed, createdAt, now);
    World(w.disk, Running(store), w.writing + {store.handed[0]})
  }

  function NewlyHanded(before: Store, after: Store): set<SessionCheckpoint> {
    if after.handed != [] && after.handed != before.handed then {after.handed[|after.handed| - 1]} else {}
  }

  // ---------------------------------------------------------------- the invariant

  /** Every segment the bitmap claims is in the file, in what the handle sees and in what a crash would leave. */
  ghost predicate Backed(stream: ByteString, p: SegmentPlan, bits: Bitmap, data: Option<File>) {
    forall i: nat :: i < p.segmentCount && IsSet(bits, i) ==> Holds(stream, p, i, data)
  }

  ghost predicate Holds(stream: ByteString, p: SegmentPlan, i: nat, data: Option<File>) {
    && data.Some?
    && |data.value.visible| == |data.value.durable| == p.transportSize == |stream|
    && SameRange(data.value.visible, stream, Start(p, i), End(p, i))
    && SameRange(data.value.durable, stream, Start(p, i), End(p, i))
  }

  ghost predicate SameRange(data: ByteString, stream: ByteString, low: nat, high: nat) {
    forall k :: low <= k < high && k < |data| && k < |stream| ==> data[k] == stream[k]
  }

  /** The checkpoint is safe to adopt, for whichever manifest it matches. */
  ghost predicate Safe(streams: Streams, c: SessionCheckpoint, data: Option<File>) {
    forall m: Manifest :: AcceptableManifest(m) && MatchCheckpoint(Some(c), true, m).Success? ==>
      Backed(streams(m), m.plan, MatchCheckpoint(Some(c), true, m).value.committedBits, data)
  }

  ghost predicate SafeDisk(streams: Streams, d: Disk) {
    d.checkpoint.Readable? ==> Safe(streams, d.checkpoint.checkpoint, d.data)
  }

  /** A checkpoint of this very store, claiming no more than it holds. */
  ghost predicate Within(c: SessionCheckpoint, s: Store) {
    && Planned(s.manifest.plan) && MatchCheckpoint(Some(c), true, s.manifest).Success?
    && forall i: nat :: IsSet(MatchCheckpoint(Some(c), true, s.manifest).value.committedBits, i) ==>
         IsSet(s.progress.bits, i)
  }

  ghost predicate Inv(streams: Streams, w: World) {
    match w.phase
    case Idle => SafeDisk(streams, w.disk) && w.writing == {}
    case Fresh(m, _) => AcceptableManifest(m) && Harmless(w.disk.checkpoint) && w.writing == {}
    case Adopting(m, a, _) =>
      && AcceptableManifest(m) && w.disk.checkpoint.Readable? && w.writing == {} && SafeDisk(streams, w.disk)
      && MatchCheckpoint(Checkpoint(w.disk), true, m) == Success(a)
    case Running(s) =>
      && Sane(s) && Coalesced(s)
      && w.disk.data.Some? && |w.disk.data.value.visible| == s.manifest.plan.transportSize
      && Backed(streams(s.manifest), s.manifest.plan, s.progress.bits, w.disk.data)
      && (Harmless(w.disk.checkpoint) || (w.disk.checkpoint.Readable? && Within(w.disk.checkpoint.checkpoint, s)))
      && forall c :: c in w.writing ==> Within(c, s)
  }

  ghost predicate Init(w: World) {
    w == World(EMPTY, Idle, {})
  }

  // ---------------------------------------------------------------- what single steps keep

  lemma OverwriteElsewhere(data: ByteString, at: nat, bytes: ByteString, stream: ByteString, low: nat, high: nat)
    requires SameRange(data, stream, low, high) && at + |bytes| <= |data|
    requires at + |bytes| <= low || high <= at
    ensures |Overwrite(data, at, bytes)| == |data| && SameRange(Overwrite(data, at, bytes), stream, low, high)
  {
  }

  lemma OverwriteHere(data: ByteString, at: nat, bytes: ByteString, stream: ByteString)
    requires at + |bytes| <= |data| == |stream|
    requires forall k :: 0 <= k < |bytes| && at + k < |stream| ==> bytes[k] == stream[at + k]
    ensures |Overwrite(data, at, bytes)| == |data| && SameRange(Overwrite(data, at, bytes), stream, at, at + |bytes|)
  {
    var after := Overwrite(data, at, bytes);
    forall k | at <= k < at + |bytes|
      ensures after[k] == stream[k]
    {
      assert after[at + (k - at)] == bytes[k - at];
    }
  }

  lemma Apart(p: SegmentPlan, i: nat, j: nat)
    requires Planned(p) && i < p.segmentCount && j < p.segmentCount && i != j
    ensures End(p, i) <= Start(p, j) || End(p, j) <= Start(p, i)
  {
    if i < j {
      RangesAreDisjoint(p, i, j);
    } else {
      RangesAreDisjoint(p, j, i);
    }
  }

  /** Writing inside one range leaves every other segment's bytes alone. */
  lemma OtherHolds(stream: ByteString, p: SegmentPlan, i: nat, j: nat, file: File, bytes: ByteString)
    requires Planned(p) && i < p.segmentCount && j < p.segmentCount && i != j
    requires Start(p, i) + |bytes| <= End(p, i)
    requires Holds(stream, p, j, Some(file))
    ensures var data := Overwrite(file.visible, Start(p, i), bytes);
            Holds(stream, p, j, Some(file.(visible := data))) && Holds(stream, p, j, Some(File(data, data)))
  {
    hide Start, End, SameRange;
    RangeFits(p, i);
    Apart(p, i, j);
    OverwriteElsewhere(file.visible, Start(p, i), bytes, stream, Start(p, j), End(p, j));
  }

  lemma OwnHolds(stream: ByteString, p: SegmentPlan, i: nat, file: File, bytes: ByteString)
    requires Planned(p) && i < p.segmentCount && |file.visible| == p.transportSize == |stream|
    requires |bytes| == End(p, i) - Start(p, i)
    requires forall k :: 0 <= k < |bytes| && Start(p, i) + k < |stream| ==> bytes[k] == stream[Start(p, i) + k]
    ensures var data := Overwrite(file.visible, Start(p, i), bytes);
            |data| == p.transportSize && Holds(stream, p, i, Some(File(data, data)))
  {
    hide Start, End, SameRange;
    RangeFits(p, i);
    OverwriteHere(file.visible, Start(p, i), bytes, stream);
  }

  lemma WriteKeepsBacked(streams: Streams, s: Store, file: File, segment: StoredSegment, device: Device, now: nat)
    requires Consistent(streams) && Sane(s) && |file.visible| == s.manifest.plan.transportSize
    requires Backed(streams(s.manifest), s.manifest.plan, s.progress.bits, Some(file))
    requires Genuine(streams, s.manifest, segment)
    ensures var (after, data, _) := WriteStep(s, file, segment, device, now);
            && |data.visible| == s.manifest.plan.transportSize
            && Backed(streams(s.manifest), s.manifest.plan, after.progress.bits, Some(data))
  {
    var (after, data, _) := WriteStep(s, file, segment, device, now);
    var p, stream := s.manifest.plan, streams(s.manifest);
    if s.handle && !s.closed && Validate(s, segment).Some? {
      var i: nat := segment.segmentIndex;
      RangeFits(p, i);
      forall j: nat | j < p.segmentCount && IsSet(after.progress.bits, j)
        ensures Holds(stream, p, j, Some(data))
      {
        WriteHolds(streams, s, file, segment, device, now, j);
      }
    }
  }

  lemma WriteHolds(streams: Streams, s: Store, file: File, segment: StoredSegment, device: Device, now: nat, j: nat)
    requires Consistent(streams) && Sane(s) && |file.visible| == s.manifest.plan.transportSize
    requires Backed(streams(s.manifest), s.manifest.plan, s.progress.bits, Some(file))
    requires Genuine(streams, s.manifest, segment)
    requires s.handle && !s.closed && Validate(s, segment).Some?
    requires j < s.manifest.plan.segmentCount && IsSet(WriteStep(s, file, segment, device, now).0.progress.bits, j)
    ensures Holds(streams(s.manifest), s.manifest.plan, j, Some(WriteStep(s, file, segment, device, now).1))
  {
    hide Holds, IsSet, SetBit, Tallied, Overwrite;
    var p, stream := s.manifest.plan, streams(s.manifest);
    var i: nat := segment.segmentIndex;
    RangeFits(p, i);
    if device.Accepts? {
      CommittedTallied(p, s.progress, i);
    }
    if j == i {
      OwnHolds(stream, p, i, file, segment.bytes);
    } else {
      var part := match device
        case Short(n) => Part(segment.bytes, n)
        case WriteThrows(n, _) => Part(segment.bytes, n)
        case _ => segment.bytes;
      OtherHolds(stream, p, i, j, file, part);
    }
  }

  lemma StoreStepKeepsBacked(streams: Streams, s: Store, file: File, e: StoreEvent, now: nat)
    requires Consistent(streams) && Sane(s) && CanStep(s, e) && |file.visible| == s.manifest.plan.transportSize
    requires Backed(streams(s.manifest), s.manifest.plan, s.progress.bits, Some(file))
    requires e.Write? ==> Genuine(streams, s.manifest, e.segment)
    ensures var (after, data) := StoreStep(s, file, e, now);
            && |data.visible| == s.manifest.plan.transportSize
            && Backed(streams(s.manifest), s.manifest.plan, after.progress.bits, Some(data))
  {
    hide Backed, WriteStep, Genuine, Schedule, Landed;
    match e
    case Write(segment, device) => WriteKeepsBacked(streams, s, file, segment, device, now);
    case WriteEnded => LandedProgress(s, now);
    case _ =>
  }

  lemma LandedProgress(s: Store, now: nat)
    requires s.inFlight && s.outstanding > 0
    ensures Landed(s, now).progress == s.progress
  {
  }

  /** Power loss, or the system flushing on its own, cannot hurt a segment both copies agree on. */
  lemma RemainsBacked(stream: ByteString, p: SegmentPlan, bits: Bitmap, file: File, left: ByteString)
    requires Planned(p) && Backed(stream, p, bits, Some(file)) && CouldRemain(file, left)
    ensures Backed(stream, p, bits, Some(File(left, left))) && Backed(stream, p, bits, Some(file.(durable := left)))
  {
    forall i: nat | i < p.segmentCount && IsSet(bits, i)
      ensures Holds(stream, p, i, Some(File(left, left))) && Holds(stream, p, i, Some(file.(durable := left)))
    {
      hide Start, End, IsSet;
      assert Holds(stream, p, i, Some(file));
      RangeFits(p, i);
    }
  }

  /** A snapshot of a store claims no more than the store. */
  lemma SnapshotWithin(s: Store, now: nat)
    requires Sane(s)
    ensures Within(SnapshotOf(s, now), s)
  {
    hide MatchCheckpoint, Snapshot, IsSet, IsCheckpoint;
    SnapshotAccepted(s.manifest, s.progress, s.state, s.createdAt, now);
  }

  lemma WithinGrows(c: SessionCheckpoint, s: Store, after: Store)
    requires Within(c, s) && after.manifest == s.manifest
    requires forall k: nat :: IsSet(s.progress.bits, k) ==> IsSet(after.progress.bits, k)
    ensures Within(c, after)
  {
    hide MatchCheckpoint, IsSet;
  }

  /** A checkpoint within a backed store is safe for every manifest it matches: there is only one. */
  lemma WithinIsSafe(streams: Streams, c: SessionCheckpoint, s: Store, data: Option<File>)
    requires Within(c, s) && Backed(streams(s.manifest), s.manifest.plan, s.progress.bits, data)
    ensures Safe(streams, c, data)
  {
    hide MatchCheckpoint, IsSet, Holds;
    forall m: Manifest | AcceptableManifest(m) && MatchCheckpoint(Some(c), true, m).Success?
      ensures Backed(streams(m), m.plan, MatchCheckpoint(Some(c), true, m).value.committedBits, data)
    {
      AcceptedByOne(c, m, s.manifest);
    }
  }

  lemma RemainsSafe(streams: Streams, c: SessionCheckpoint, file: File, left: ByteString)
    requires Safe(streams, c, Some(file)) && CouldRemain(file, left)
    ensures Safe(streams, c, Some(File(left, left))) && Safe(streams, c, Some(file.(durable := left)))
  {
    hide MatchCheckpoint, Backed, CouldRemain;
    forall m: Manifest | AcceptableManifest(m) && MatchCheckpoint(Some(c), true, m).Success?
      ensures var bits := MatchCheckpoint(Some(c), true, m).value.committedBits;
              Backed(streams(m), m.plan, bits, Some(File(left, left)))
              && Backed(streams(m), m.plan, bits, Some(file.(durable := left)))
    {
      RemainsBacked(streams(m), m.plan, MatchCheckpoint(Some(c), true, m).value.committedBits, file, left);
    }
  }

  // ---------------------------------------------------------------- every event keeps the invariant

  lemma OpenKeeps(streams: Streams, w: World, m: Manifest, now: nat)
    requires Inv(streams, w) && Enabled(streams, w, OpenResume(m, now))
    ensures Inv(streams, Apply(streams, w, OpenResume(m, now)))
  {
    hide MatchCheckpoint, Safe;
    PresentIsNotAbsent(Checkpoint(w.disk), w.disk.checkpoint != NoFile, m);
  }

  lemma PresentIsNotAbsent(c: Option<SessionCheckpoint>, present: bool, m: Manifest)
    requires Planned(m.plan) && (c.Some? ==> present)
    ensures MatchCheckpoint(c, present, m) == Failure(Absent) <==> !present
    ensures c.None? ==> MatchCheckpoint(c, present, m).Failure?
  {
    hide Base64.Decode, BytesBelow, PopCount, BitsFrom;
  }

  lemma OverKeeps(streams: Streams, w: World, m: Manifest, now: nat)
    requires Inv(streams, w) && Enabled(streams, w, OpenOver(m, now))
    ensures Inv(streams, Apply(streams, w, OpenOver(m, now)))
  {
    hide Harmless, AcceptableManifest;
  }

  /** A harmless checkpoint claims nothing, so any data file backs it. */
  lemma HarmlessIsSafe(streams: Streams, c: SessionCheckpoint, data: Option<File>)
    requires Harmless(Readable(c))
    ensures Safe(streams, c, data)
  {
    hide MatchCheckpoint, Holds;
    forall m: Manifest | AcceptableManifest(m) && MatchCheckpoint(Some(c), true, m).Success?
      ensures Backed(streams(m), m.plan, MatchCheckpoint(Some(c), true, m).value.committedBits, data)
    {
      AcceptedIsTallied(c, m);
      assert m == ManifestOf(c);
      AdoptedCount(c, m);
      NothingSet(MatchCheckpoint(Some(c), true, m).value.committedBits, m.plan.segmentCount);
    }
  }

  lemma AdoptedCount(c: SessionCheckpoint, m: Manifest)
    requires Planned(m.plan) && MatchCheckpoint(Some(c), true, m).Success?
    ensures MatchCheckpoint(Some(c), true, m).value.segmentsCommitted == c.segmentsCommitted
  {
    hide Base64.Decode, PopCount, BytesBelow, BitsFrom;
  }

  lemma {:induction false} NothingSet(bits: Bitmap, n: nat)
    ensures CountBelow(bits, n) == 0 <==> forall i: nat :: i < n ==> !IsSet(bits, i)
  {
    hide IsSet;
    if n > 0 {
      NothingSet(bits, n - 1);
    }
  }

  /** A fresh store claims nothing, so whatever the truncated file holds backs it. */
  lemma LaunchKeeps(streams: Streams, w: World, m: Manifest, seed: Progress, createdAt: nat, now: nat)
    requires AcceptableManifest(m) && Tallied(m.plan, seed) && w.writing == {}
    requires w.disk.data.Some? && |w.disk.data.value.visible| == m.plan.transportSize
    requires Backed(streams(m), m.plan, seed.bits, w.disk.data)
    requires Harmless(w.disk.checkpoint)
             || (w.disk.checkpoint.Readable? && Within(w.disk.checkpoint.checkpoint, Opened(m, seed, createdAt, now)))
    ensures Inv(streams, Launch(w, m, seed, createdAt, now))
  {
    hide MatchCheckpoint, IsSet, Backed, Within, Tallied, Harmless;
    OpenedIsCoalesced(m, seed, createdAt, now);
    SnapshotWithin(Opened(m, seed, createdAt, now), now);
  }

  lemma FreshStartsKeeps(streams: Streams, w: World, now: nat)
    requires Inv(streams, w) && Enabled(streams, w, FreshStarts(now))
    ensures Inv(streams, Apply(streams, w, FreshStarts(now)))
  {
    hide MatchCheckpoint, Tallied;
    var m := w.phase.manifest;
    NoProgressTallied(m.plan);
    LaunchKeeps(streams, w.(disk := w.disk.(data := Some(Presized(w.disk, m)))), m, NoProgress(m.plan),
                w.phase.openedAt, now);
  }

  lemma AdoptStartsKeeps(streams: Streams, w: World, now: nat)
    requires Inv(streams, w) && Enabled(streams, w, AdoptStarts(now))
    ensures Inv(streams, Apply(streams, w, AdoptStarts(now)))
  {
    hide MatchCheckpoint, IsSet, Tallied;
    var m, c := w.phase.manifest, w.disk.checkpoint.checkpoint;
    AcceptedIsTallied(c, m);
    if w.disk.data.Some? && |w.disk.data.value.visible| == m.plan.transportSize {
      LaunchKeeps(streams, w, m, Seeded(w.phase.adoption), w.phase.createdAt, now);
    }
  }

  lemma StepKeeps(streams: Streams, w: World, e: StoreEvent, now: nat)
    requires Consistent(streams) && Inv(streams, w) && Enabled(streams, w, Step(e, now))
    ensures Inv(streams, Apply(streams, w, Step(e, now)))
  {
    hide MatchCheckpoint, IsSet, Backed, Within, Tallied, StoreStep, Coalesced, Genuine, SnapshotOf;
    var s := w.phase.store;
    var (after, file) := StoreStep(s, w.disk.data.value, e, now);
    StepKeepsStore(s, w.disk.data.value, e, now);
    StoreStepKeepsBacked(streams, s, w.disk.data.value, e, now);
    SnapshotWithin(after, now);
    forall c | Within(c, s)
      ensures Within(c, after)
    {
      WithinGrows(c, s, after);
    }
  }

  /** Whatever the phase, the checkpoint on the device could be adopted safely if everything stopped now. */
  lemma DiskIsSafe(streams: Streams, w: World)
    requires Inv(streams, w)
    ensures SafeDisk(streams, w.disk)
  {
    hide MatchCheckpoint, Backed, Within, Tallied, Coalesced, Safe, Harmless;
    if w.disk.checkpoint.Readable? {
      if Harmless(w.disk.checkpoint) {
        HarmlessIsSafe(streams, w.disk.checkpoint.checkpoint, w.disk.data);
      } else if w.phase.Running? {
        WithinIsSafe(streams, w.disk.checkpoint.checkpoint, w.phase.store, w.disk.data);
      }
    }
  }

  lemma DiskRemainsSafe(streams: Streams, d: Disk, left: ByteString)
    requires SafeDisk(streams, d) && d.data.Some? && CouldRemain(d.data.value, left)
    ensures SafeDisk(streams, d.(data := Some(File(left, left))))
            && SafeDisk(streams, d.(data := Some(d.data.value.(durable := left))))
  {
    hide Safe, CouldRemain;
    if d.checkpoint.Readable? {
      RemainsSafe(streams, d.checkpoint.checkpoint, d.data.value, left);
    }
  }

  lemma WritebackKeeps(streams: Streams, w: World, durable: ByteString)
    requires Inv(streams, w) && Enabled(streams, w, Writeback(durable))
    ensures Inv(streams, Apply(streams, w, Writeback(durable)))
  {
    hide MatchCheckpoint, Backed, Within, Tallied, Coalesced, SafeDisk, CouldRemain, Harmless;
    if w.phase.Running? {
      var s := w.phase.store;
      RemainsBacked(streams(s.manifest), s.manifest.plan, s.progress.bits, w.disk.data.value, durable);
    } else {
      DiskIsSafe(streams, w);
      DiskRemainsSafe(streams, w.disk, durable);
    }
  }

  lemma DeviceKeeps(streams: Streams, w: World, e: Event)
    requires Inv(streams, w) && Enabled(streams, w, e)
    requires e.CheckpointLands? || e.CheckpointFails? || e.Closed? || e.Removed? || e.FreshFails? || e.AdoptFails?
    ensures Inv(streams, Apply(streams, w, e))
  {
    hide MatchCheckpoint, Backed, Within, Tallied, Coalesced, Safe, Harmless;
    if e.Closed? {
      DiskIsSafe(streams, w);
    }
    if e.FreshFails? && w.disk.checkpoint.Readable? {
      HarmlessIsSafe(streams, w.disk.checkpoint.checkpoint, Some(e.remains));
    }
  }

  lemma CrashKeeps(streams: Streams, w: World, left: ByteString)
    requires Inv(streams, w) && Enabled(streams, w, Crash(left))
    ensures Inv(streams, Apply(streams, w, Crash(left)))
  {
    hide Inv, SafeDisk, CouldRemain;
    DiskIsSafe(streams, w);
    if w.disk.data.Some? {
      DiskRemainsSafe(streams, w.disk, left);
    }
    IdleKeeps(streams, Apply(streams, w, Crash(left)));
  }

  lemma IdleKeeps(streams: Streams, w: World)
    requires w.phase.Idle? && w.writing == {} && SafeDisk(streams, w.disk)
    ensures Inv(streams, w)
  {
  }

  lemma InvIsInductive(streams: Streams, w: World, e: Event)
    requires Consistent(streams) && Inv(streams, w) && Enabled(streams, w, e)
    ensures Inv(streams, Apply(streams, w, e))
  {
    hide Inv, Apply;
    match e
    case OpenResume(m, now) => OpenKeeps(streams, w, m, now);
    case OpenOver(m, now) => OverKeeps(streams, w, m, now);
    case FreshStarts(now) => FreshStartsKeeps(streams, w, now);
    case AdoptStarts(now) => AdoptStartsKeeps(streams, w, now);
    case Step(event, now) => StepKeeps(streams, w, event, now);
    case Crash(left) => CrashKeeps(streams, w, left);
    case Writeback(durable) => WritebackKeeps(streams, w, durable);
    case _ => DeviceKeeps(streams, w, e);
  }

  // ---------------------------------------------------------------- whole runs

  ghost predicate IsRun(streams: Streams, run: seq<World>, events: seq<Event>) {
    && |run| == |events| + 1 && Init(run[0])
    && forall i :: 0 <= i < |events| ==>
         Enabled(streams, run[i], events[i]) && run[i + 1] == Apply(streams, run[i], events[i])
  }

  lemma {:induction false} RunKeepsInv(streams: Streams, run: seq<World>, events: seq<Event>, n: nat)
    requires Consistent(streams) && IsRun(streams, run, events) && n < |run|
    ensures Inv(streams, run[n])
  {
    hide Inv, Apply, Enabled;
    if n == 0 {
      StartIsInv(streams, run[0]);
    } else {
      RunKeepsInv(streams, run, events, n - 1);
      assert Enabled(streams, run[n - 1], events[n - 1]);
      InvIsInductive(streams, run[n - 1], events[n - 1]);
    }
  }

  lemma StartIsInv(streams: Streams, w: World)
    requires Init(w)
    ensures Inv(streams, w)
  {
  }

  /** Crash safety: at every point of every run, whatever checkpoint `open` has adopted claims only segments that
      are in the file. */
  lemma AdoptedSegmentsArePresent(streams: Streams, run: seq<World>, events: seq<Event>, n: nat)
    requires Consistent(streams) && IsRun(streams, run, events) && n < |run| && run[n].phase.Adopting?
    ensures var (m, a) := (run[n].phase.manifest, run[n].phase.adoption);
            Tallied(m.plan, Seeded(a)) && Backed(streams(m), m.plan, a.committedBits, run[n].disk.data)
  {
    hide MatchCheckpoint, Backed, Tallied;
    RunKeepsInv(streams, run, events, n);
    AcceptedIsTallied(run[n].disk.checkpoint.checkpoint, run[n].phase.manifest);
  }

  /** Once every bit is set, the data file is the transport stream. */
  lemma CompleteFileIsTheStream(streams: Streams, run: seq<World>, events: seq<Event>, n: nat)
    requires Consistent(streams) && IsRun(streams, run, events) && n < |run| && run[n].phase.Running?
    requires run[n].phase.store.progress.segments == run[n].phase.store.manifest.plan.segmentCount
    ensures run[n].disk.data.Some? && run[n].disk.data.value.visible == streams(run[n].phase.store.manifest)
  {
    RunKeepsInv(streams, run, events, n);
    BackedWhole(streams(run[n].phase.store.manifest), run[n].phase.store.manifest.plan, run[n].phase.store.progress,
                run[n].disk.data);
  }

  lemma BackedWhole(stream: ByteString, p: SegmentPlan, g: Progress, data: Option<File>)
    requires Tallied(p, g) && g.segments == p.segmentCount && Backed(stream, p, g.bits, data)
             && |stream| == p.transportSize
    ensures data.Some? && data.value.visible == stream
  {
    hide IsSet;
    FullIff(p, g.bits, p.segmentCount);
    assert Holds(stream, p, 0, data);
    forall k | 0 <= k < p.transportSize
      ensures data.value.visible[k] == stream[k]
    {
      var i := RangesCover(p, p.segmentCount, k);
      assert Holds(stream, p, i, data);
    }
  }

  // ---------------------------------------------------------------- resuming does resume

  /** Wherever a run may be, an `open` that finds a checkpoint it accepts, with a segment in it, adopts just that
      checkpoint and leaves the directory alone; and it then runs with exactly the progress recorded. */
  lemma ResumeContinues(streams: Streams, w: World, m: Manifest, now: nat, later: nat)
    requires Consistent(streams) && Inv(streams, w) && Enabled(streams, w, OpenResume(m, now))
    requires w.disk.checkpoint.Readable? && w.disk.checkpoint.checkpoint.segmentsCommitted > 0
    requires MatchCheckpoint(Checkpoint(w.disk), true, m).Success?
    ensures var c := w.disk.checkpoint.checkpoint;
            var a := MatchCheckpoint(Some(c), true, m).value;
            var adopting := Apply(streams, w, OpenResume(m, now));
            && adopting == w.(phase := Adopting(m, a, c.createdAt)) && Enabled(streams, adopting, AdoptStarts(later))
            && var running := Apply(streams, adopting, AdoptStarts(later));
               running.disk == w.disk && running.phase.Running? && running.phase.store.createdAt == c.createdAt
               && running.phase.store.manifest == m && running.phase.store.progress == Seeded(a)
  {
    hide MatchCheckpoint, Backed, Tallied, Safe, IsSet;
    var c := w.disk.checkpoint.checkpoint;
    OpenKeeps(streams, w, m, now);
    PresentIsNotAbsent(Some(c), true, m);
    AcceptedIsTallied(c, m);
    AdoptedCount(c, m);
    AdoptedHolds(streams, c, m, w.disk.data);
  }

  /** A safe checkpoint that claims a segment vouches for the whole data file's size. */
  lemma AdoptedHolds(streams: Streams, c: SessionCheckpoint, m: Manifest, data: Option<File>)
    requires AcceptableManifest(m) && MatchCheckpoint(Some(c), true, m).Success? && c.segmentsCommitted > 0
    requires Safe(streams, c, data)
    ensures data.Some? && |data.value.visible| == m.plan.transportSize
  {
    hide MatchCheckpoint, IsSet;
    var bits := MatchCheckpoint(Some(c), true, m).value.committedBits;
    AcceptedIsTallied(c, m);
    AdoptedCount(c, m);
    NothingSet(bits, m.plan.segmentCount);
    var i: nat :| i < m.plan.segmentCount && IsSet(bits, i);
    assert Holds(streams(m), m.plan, i, data);
  }

  /** Nothing in this event touches the checkpoint file, and no `open` begins. */
  predicate LeavesCheckpoint(e: Event) {
    e.Step? || e.Writeback? || e.CheckpointFails? || e.Crash? || e.Closed?
  }

  lemma {:induction false} CheckpointStays(streams: Streams, run: seq<World>, events: seq<Event>, i: nat, n: nat)
    requires IsRun(streams, run, events) && i <= n < |run|
    requires forall k :: i <= k < n ==> LeavesCheckpoint(events[k])
    ensures run[n].disk.checkpoint == run[i].disk.checkpoint
  {
    hide Enabled;
    if i < n {
      CheckpointStays(streams, run, events, i, n - 1);
      assert Enabled(streams, run[n - 1], events[n - 1]);
      CheckpointLeft(streams, run[n - 1], events[n - 1]);
    }
  }

  lemma CheckpointLeft(streams: Streams, w: World, e: Event)
    requires Enabled(streams, w, e) && LeavesCheckpoint(e)
    ensures Apply(streams, w, e).disk.checkpoint == w.disk.checkpoint
  {
    hide StoreStep;
  }

  /** What survives: a checkpoint has landed; whatever the store then did, a crash at any point, and a resuming `open`
      continues with exactly the progress of that checkpoint. If it recorded all there was, nothing is lost. */
  lemma ReopenContinues(streams: Streams, run: seq<World>, events: seq<Event>, i: nat, n: nat)
    requires Consistent(streams) && IsRun(streams, run, events) && i < n && n + 1 < |events|
    requires events[i].CheckpointLands? && forall k :: i < k < n ==> LeavesCheckpoint(events[k])
    requires events[i].checkpoint.segmentsCommitted > 0
    requires run[i].phase.Running? && events[n + 1].AdoptStarts?
    requires events[n].OpenResume? && events[n].manifest == run[i].phase.store.manifest
    ensures var (c, s) := (events[i].checkpoint, run[i].phase.store);
            && MatchCheckpoint(Some(c), true, s.manifest).Success?
            && run[n + 2].phase.Running? && run[n + 2].disk == run[n].disk
            && run[n + 2].phase.store.manifest == s.manifest
            && run[n + 2].phase.store.progress == Seeded(MatchCheckpoint(Some(c), true, s.manifest).value)
            && (Records(c, s) ==> run[n + 2].phase.store.progress == s.progress)
  {
    hide MatchCheckpoint, Backed, Tallied, Records;
    var (c, s) := (events[i].checkpoint, run[i].phase.store);
    RunKeepsInv(streams, run, events, i);
    assert Enabled(streams, run[i], events[i]);
    assert Within(c, s);
    CheckpointStays(streams, run, events, i + 1, n);
    RunKeepsInv(streams, run, events, n);
    assert Enabled(streams, run[n], events[n]);
    assert run[n + 1] == Apply(streams, run[n], events[n]) && run[n + 2] == Apply(streams, run[n + 1], events[n + 1]);
    ResumeContinues(streams, run[n], s.manifest, events[n].now, events[n + 1].now);
    RecordIsAdopted(c, s);
  }

  lemma RecordIsAdopted(c: SessionCheckpoint, s: Store)
    requires Sane(s) && MatchCheckpoint(Some(c), true, s.manifest).Success?
    ensures Records(c, s) ==> Seeded(MatchCheckpoint(Some(c), true, s.manifest).value) == s.progress
  {
    hide MatchCheckpoint, Tallied, Base64.Encode, Base64.Decode;
    var a := MatchCheckpoint(Some(c), true, s.manifest).value;
    AcceptedIff(c, s.manifest, Seeded(a));
    AcceptedIff(c, s.manifest, s.progress);
    Base64.RoundTrip(s.progress.bits);
  }

  // ---------------------------------------------------------------- opening without resuming

  /** After truncation over an existing directory, and a crash before the new checkpoint has landed. */
  ghost predicate SurvivesOpenOver(d: Disk, m: Manifest) {
    forall streams: Streams, left: ByteString :: Consistent(streams) && CouldRemain(Presized(d, m), left) ==>
      SafeDisk(streams, d.(data := Some(File(left, left))))
  }

  function Ones(m: Manifest): ByteString {
    seq(m.plan.transportSize, _ => 1)
  }

  /** Opening without resuming is crash-safe exactly when the checkpoint it leaves in place claims nothing. */
  lemma OpenOverIsSafeIff(d: Disk, m: Manifest)
    requires AcceptableManifest(m)
    ensures SurvivesOpenOver(d, m) <==> Harmless(d.checkpoint)
  {
    hide MatchCheckpoint, Safe, CouldRemain, AcceptableManifest;
    if Harmless(d.checkpoint) {
      forall streams: Streams, left: ByteString | Consistent(streams) && CouldRemain(Presized(d, m), left)
        ensures SafeDisk(streams, d.(data := Some(File(left, left))))
      {
        if d.checkpoint.Readable? {
          HarmlessIsSafe(streams, d.checkpoint.checkpoint, Some(File(left, left)));
        }
      }
    } else {
      var streams: Streams := Ones;
      var left := Zeros(m.plan.transportSize);
      ZerosRemain(d, m);
      ZerosAreUnsafe(streams, d.checkpoint.checkpoint, m.plan.transportSize);
      ConsistentOnes();
      assert !SafeDisk(streams, d.(data := Some(File(left, left))));
      assert Consistent(streams) && CouldRemain(Presized(d, m), left);
    }
  }

  lemma ConsistentOnes()
    ensures Consistent(Ones)
  {
  }

  lemma ZerosRemain(d: Disk, m: Manifest)
    ensures CouldRemain(Presized(d, m), Zeros(m.plan.transportSize))
  {
  }

  /** Zeros hold no committed segment of a stream of ones. */
  lemma ZerosAreUnsafe(streams: Streams, c: SessionCheckpoint, size: nat)
    requires streams == Ones && !Harmless(Readable(c))
    ensures !Safe(streams, c, Some(File(Zeros(size), Zeros(size))))
  {
    hide MatchCheckpoint;
    var m := ManifestOf(c);
    AcceptedIsTallied(c, m);
    AdoptedCount(c, m);
    var bits := MatchCheckpoint(Some(c), true, m).value.committedBits;
    NothingSet(bits, m.plan.segmentCount);
    var i: nat :| i < m.plan.segmentCount && IsSet(bits, i);
    RangeFits(m.plan, i);
    if size == m.plan.transportSize {
      assert Zeros(size)[Start(m.plan, i)] != streams(m)[Start(m.plan, i)];
    }
    assert !Holds(streams(m), m.plan, i, Some(File(Zeros(size), Zeros(size))));
  }

  /** A transfer of a single byte, received in full. */
  function OneByte(): Manifest {
    Manifest(1, 1, Zeros(32), 1, SegmentPlan(1, 1, 1))
  }

  function OneByteDone(): World {
    World(Disk(Readable(Snapshot(OneByte(), Progress([1], 1, 1), Complete, 0, 0)), Some(File([1], [1]))), Idle, {})
  }

  lemma OneByteIsSafe()
    ensures Inv(Ones, OneByteDone()) && !Harmless(OneByteDone().disk.checkpoint)
  {
    hide MatchCheckpoint, Base64.Encode, IsSet, Tallied;
    var m := OneByte();
    OneSegment(m.plan, Progress([1], 1, 1));
    SnapshotAccepted(m, Progress([1], 1, 1), Complete, 0, 0);
    var c := OneByteDone().disk.checkpoint.checkpoint;
    forall n: Manifest | AcceptableManifest(n) && MatchCheckpoint(Some(c), true, n).Success?
      ensures Backed(Ones(n), n.plan, MatchCheckpoint(Some(c), true, n).value.committedBits, Some(File([1], [1])))
    {
      AcceptedByOne(c, n, m);
    }
  }

  /** It does go wrong: that transfer, opened again without resuming, then a crash. */
  lemma OpenOverLosesASegment()
    ensures Consistent(Ones) && Inv(Ones, OneByteDone())
    ensures var presized := Apply(Ones, OverExisting(OneByteDone(), OneByte(), 0), FreshStarts(0));
            && Enabled(Ones, presized, Crash([0]))
            && !SafeDisk(Ones, Apply(Ones, presized, Crash([0])).disk)
  {
    hide MatchCheckpoint, Base64.Encode, Inv, Snapshot;
    OneByteIsSafe();
    ZerosAreUnsafe(Ones, OneByteDone().disk.checkpoint.checkpoint, 1);
    assert Zeros(1) == [0];
  }

  lemma OneSegment(p: SegmentPlan, g: Progress)
    requires p == SegmentPlan(1, 1, 1) && g == Progress([1], 1, 1)
    ensures Tallied(p, g)
  {
    forall i: nat | i >= 1
      ensures !IsSet(g.bits, i)
    {
    }
  }

  // ---------------------------------------------------------------- one run, from start to finish

  function OneSegmentOf(): StoredSegment {
    StoredSegment(0, 0, [1])
  }

  /** The device after its first byte: opened, received, and the checkpoint of it handed to the writer. */
  lemma FirstByte() returns (run: seq<World>, events: seq<Event>)
    ensures IsRun(Ones, run, events) && |run| == 4 && |events| == 3 && run[3].phase.Running?
    ensures run[3].phase.store.manifest == OneByte() && run[3].phase.store.progress == Progress([1], 1, 1)
    ensures run[3].disk.data == Some(File([1], [1]))
    ensures run[3].phase.store.handed != [] && Last(run[3].phase.store) in run[3].writing
    ensures Records(Last(run[3].phase.store), run[3].phase.store)
  {
    hide Apply, Enabled, Records, Opened;
    var w := World(EMPTY, Idle, {});
    run, events := [w], [];
    FirstOpen(w);
    run, events := Extended(run, events, OpenResume(OneByte(), 0));
    run, events := Extended(run, events, FreshStarts(0));
    FirstWrite(run[2]);
    run, events := Extended(run, events, Step(Write(OneSegmentOf(), Accepts), 0));
  }

  lemma FirstOpen(w: World)
    requires w == World(EMPTY, Idle, {})
    ensures Enabled(Ones, w, OpenResume(OneByte(), 0))
    ensures var begun := Apply(Ones, w, OpenResume(OneByte(), 0));
            && Enabled(Ones, begun, FreshStarts(0))
            && var running := Apply(Ones, begun, FreshStarts(0));
               && running.phase == Running(Opened(OneByte(), Progress([0], 0, 0), 0, 0))
               && running.disk.data.Some? && running.disk.data.value.visible == [0]
  {
    hide Opened, Base64.Encode;
    OneByteOpens();
    PresentIsNotAbsent(None, false, OneByte());
  }

  lemma OneByteOpens()
    ensures Zeros(1) == [0] && NoProgress(OneByte().plan) == Progress([0], 0, 0)
  {
  }

  lemma FirstWrite(w: World)
    requires w.phase == Running(Opened(OneByte(), Progress([0], 0, 0), 0, 0))
    requires w.disk.data.Some? && w.disk.data.value.visible == [0]
    ensures Enabled(Ones, w, Step(Write(OneSegmentOf(), Accepts), 0))
    ensures var written := Apply(Ones, w, Step(Write(OneSegmentOf(), Accepts), 0));
            && written.phase.Running? && written.disk.data == Some(File([1], [1]))
            && written.phase.store.manifest == OneByte() && written.phase.store.progress == Progress([1], 1, 1)
            && written.phase.store.handed != [] && Last(written.phase.store) in written.writing
            && Records(Last(written.phase.store), written.phase.store)
  {
    hide WriteStep, Records, SnapshotOf;
    OneByteWritten(w.phase.store, w.disk.data.value);
  }

  lemma OneByteWritten(s: Store, file: File)
    requires s == Opened(OneByte(), Progress([0], 0, 0), 0, 0) && file.visible == [0]
    ensures Planned(s.manifest.plan) && |s.progress.bits| == BitmapBytes(s.manifest.plan.segmentCount)
    ensures Genuine(Ones, s.manifest, OneSegmentOf())
    ensures var (after, data, outcome) := WriteStep(s, file, OneSegmentOf(), Accepts, 0);
            && after.manifest == s.manifest && after.progress == Progress([1], 1, 1) && data == File([1], [1])
            && after.handed == s.handed + [SnapshotOf(after, 0)] && Records(Last(after), after)
  {
    hide WriteStep, Genuine, Schedule, Records, SnapshotOf, Opened;
    OpenedPlainly(s);
    OneIsGenuine();
    OneIsTaken(s, file);
    OneIsRecorded(s.(progress := Progress([1], 1, 1), state := Complete));
  }

  lemma OpenedPlainly(s: Store)
    requires s == Opened(OneByte(), Progress([0], 0, 0), 0, 0)
    ensures s.manifest == OneByte() && s.progress == Progress([0], 0, 0) && s.handle && !s.closed && !s.inFlight
  {
    hide Base64.Encode;
  }

  lemma OneIsGenuine()
    ensures Genuine(Ones, OneByte(), OneSegmentOf())
  {
    hide Genuine, Ones;
    AllOnesAreGenuine(OneByte(), OneSegmentOf());
  }

  lemma AllOnesAreGenuine(m: Manifest, segment: StoredSegment)
    requires forall k :: 0 <= k < |segment.bytes| ==> segment.bytes[k] == 1
    ensures Genuine(Ones, m, segment)
  {
    hide Start, End;
  }

  lemma OneIsTaken(s: Store, file: File)
    requires s.manifest == OneByte() && s.progress == Progress([0], 0, 0) && s.handle && !s.closed
    requires file.visible == [0]
    ensures WriteStep(s, file, OneSegmentOf(), Accepts, 0)
         == (Schedule(s.(progress := Progress([1], 1, 1), state := Complete), 0), File([1], [1]), Ok)
  {
    hide Overwrite, Committed, Validate, Schedule;
    OneIsWanted(s);
    OneIsCommitted();
    OneIsPlaced();
  }

  lemma OneIsRecorded(s: Store)
    requires !s.inFlight
    ensures var after := Schedule(s, 0);
            && after.manifest == s.manifest && after.progress == s.progress
            && after.handed == s.handed + [SnapshotOf(after, 0)] && Records(Last(after), after)
  {
    hide Base64.Encode;
  }

  lemma OneIsWanted(s: Store)
    requires s.manifest == OneByte() && s.progress == Progress([0], 0, 0)
    ensures Validate(s, OneSegmentOf()) == Some(0)
  {
    hide IsSet;
    NothingYet();
  }

  lemma NothingYet()
    ensures !IsSet([0], 0)
  {
  }

  lemma OneIsCommitted()
    ensures Committed(OneByte().plan, Progress([0], 0, 0), 0) == Progress([1], 1, 1)
  {
    hide SetBit;
    OneBitSet([0], 0, 1);
  }

  lemma OneBitSet(bits: Bitmap, before: bv8, after: bv8)
    requires bits == [before] && before == 0 && after == 1
    ensures SetBit(bits, 0) == [after]
  {
    hide Mask;
    FirstBit(before, after);
  }

  lemma FirstBit(before: bv8, after: bv8)
    requires before == 0 && after == 1
    ensures before | Mask(0) == after
  {
  }

  lemma OneIsPlaced()
    ensures Overwrite([0], 0, [1]) == [1]
  {
  }

  /** It does happen: a device receives a byte, records it, loses power, opens again, and has the byte. */
  lemma OneByteSurvives() returns (run: seq<World>, events: seq<Event>)
    ensures IsRun(Ones, run, events) && |run| == 8 && events[4].Crash? && run[7].phase.Running?
    ensures run[7].phase.store.progress == Progress([1], 1, 1) && run[7].disk.data == Some(File([1], [1]))
  {
    hide Apply, Enabled, IsRun, MatchCheckpoint, Base64.Encode;
    run, events := FirstByte();
    var c, m := Last(run[3].phase.store), OneByte();
    LandsAndCrashes(run[3], c);
    run, events := Extended(run, events, CheckpointLands(c));
    run, events := Extended(run, events, Crash([1]));
    run, events := Extended(run, events, OpenResume(m, 0));
    ConsistentOnes();
    Adopts(run, events, c);
    run, events := Extended(run, events, AdoptStarts(0));
    ReopenContinues(Ones, run, events, 3, 5);
  }

  lemma LandsAndCrashes(w: World, c: SessionCheckpoint)
    requires w.phase.Running? && c in w.writing && w.disk.data == Some(File([1], [1]))
    ensures Enabled(Ones, w, CheckpointLands(c))
    ensures var landed := Apply(Ones, w, CheckpointLands(c));
            && Enabled(Ones, landed, Crash([1]))
            && var lost := Apply(Ones, landed, Crash([1]));
               && lost == World(Disk(Readable(c), Some(File([1], [1]))), Idle, {})
               && Enabled(Ones, lost, OpenResume(OneByte(), 0))
  {
  }

  lemma Adopts(run: seq<World>, events: seq<Event>, c: SessionCheckpoint)
    requires Consistent(Ones) && IsRun(Ones, run, events) && |run| == 7
    requires run[3].phase.Running? && run[3].phase.store.manifest == OneByte()
    requires Records(c, run[3].phase.store) && run[3].phase.store.progress == Progress([1], 1, 1)
    requires events[3] == CheckpointLands(c) && events[5] == OpenResume(OneByte(), 0)
    requires run[5] == World(Disk(Readable(c), Some(File([1], [1]))), Idle, {})
    ensures Enabled(Ones, run[6], AdoptStarts(0))
  {
    hide Inv, MatchCheckpoint, Apply;
    RunKeepsInv(Ones, run, events, 3);
    assert Enabled(Ones, run[3], events[3]);
    LandingMatches(run[3], c);
    RunKeepsInv(Ones, run, events, 5);
    assert Enabled(Ones, run[5], events[5]);
    ResumeContinues(Ones, run[5], OneByte(), 0, 0);
    assert run[6] == Apply(Ones, run[5], events[5]);
  }

  lemma LandingMatches(w: World, c: SessionCheckpoint)
    requires Inv(Ones, w) && w.phase.Running? && c in w.writing
    ensures Planned(w.phase.store.manifest.plan) && MatchCheckpoint(Some(c), true, w.phase.store.manifest).Success?
  {
    hide MatchCheckpoint;
    assert Within(c, w.phase.store);
  }

  lemma Extended(run: seq<World>, events: seq<Event>, e: Event) returns (longer: seq<World>, more: seq<Event>)
    requires IsRun(Ones, run, events) && Enabled(Ones, run[|run| - 1], e)
    ensures IsRun(Ones, longer, more) && longer == run + [Apply(Ones, run[|run| - 1], e)] && more == events + [e]
  {
    hide Apply, Enabled;
    longer, more := run + [Apply(Ones, run[|run| - 1], e)], events + [e];
  }
}
