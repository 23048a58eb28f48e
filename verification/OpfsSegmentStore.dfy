/** The resumable segment store: a bitmap, two counters, an offset-addressed file and a coalesced checkpoint. */
module OpfsStores {
  import opened Bytes
  import opened Checkpoints
  import opened SegmentPlans

  datatype StoredSegment = StoredSegment(segmentIndex: int, byteOffset: int, bytes: ByteString)
  datatype WriteOutcome = Ok | Full | Invalid | Failed

  /** What the device makes of a write followed by a flush. A failing write may have stored a part of it. */
  datatype Device = Accepts | Short(stored: nat) | WriteThrows(stored: nat, quota: bool) | FlushThrows(quota: bool)

  /** A file as its handle sees it, and as it would be found after a crash. */
  datatype File = File(visible: ByteString, durable: ByteString)

  function Overwrite(data: ByteString, at: nat, bytes: ByteString): (after: ByteString)
    ensures |after| == if |data| < at + |bytes| then at + |bytes| else |data|
    ensures forall k :: 0 <= k < |bytes| ==> after[at + k] == bytes[k]
    ensures forall k :: 0 <= k < |data| && !(at <= k < at + |bytes|) ==> after[k] == data[k]
  {
    var size := if |data| < at + |bytes| then at + |bytes| else |data|;
    seq(size, k requires 0 <= k => if at <= k < at + |bytes| then bytes[k - at] else if k < |data| then data[k] else 0)
  }

  // ---------------------------------------------------------------- the store's state and its steps, as values

  datatype Store = Store(
    manifest: Manifest, createdAt: nat, progress: Progress, refused: nat, state: CheckpointState,
    closed: bool, handle: bool, sealed: bool,
    inFlight: bool, dirty: bool,
    outstanding: nat, handed: seq<SessionCheckpoint>)

  function SnapshotOf(s: Store, now: nat): SessionCheckpoint {
    Snapshot(s.manifest, s.progress, s.state, s.createdAt, now)
  }

  /** Hands the current snapshot to the checkpoint writer. */
  function Hand(s: Store, now: nat): Store {
    s.(handed := s.handed + [SnapshotOf(s, now)])
  }

  function Opened(m: Manifest, seed: Progress, createdAt: nat, now: nat): Store {
    Hand(Store(m, createdAt, seed, 0, Receiving, false, true, false, false, false, 0, []), now)
  }

  function Schedule(s: Store, now: nat): Store {
    if s.inFlight then s.(dirty := true)
    else Hand(s.(inFlight := true, outstanding := s.outstanding + 1), now)
  }

  /** The scheduled write has ended, one way or the other. */
  function Landed(s: Store, now: nat): Store
    requires s.inFlight && s.outstanding > 0
  {
    var free := s.(inFlight := false, outstanding := s.outstanding - 1);
    if !s.dirty || s.closed then free else Schedule(free.(dirty := false), now)
  }

  function Validate(s: Store, segment: StoredSegment): Option<nat> {
    var p := s.manifest.plan;
    if segment.segmentIndex < 0 || segment.segmentIndex >= p.segmentCount then None
    else if IsSet(s.progress.bits, segment.segmentIndex) then None
    else if segment.byteOffset != Start(p, segment.segmentIndex) then None
    else if |segment.bytes| != End(p, segment.segmentIndex) - Start(p, segment.segmentIndex) then None
    else if Start(p, segment.segmentIndex) + |segment.bytes| > p.transportSize then None
    else Some(Start(p, segment.segmentIndex))
  }

  function Refuse(s: Store): Store {
    s.(refused := s.refused + 1)
  }

  ghost predicate Sane(s: Store) {
    AcceptableManifest(s.manifest) && Tallied(s.manifest.plan, s.progress)
  }

  function AfterCommit(s: Store, i: nat, now: nat): Store
    requires Planned(s.manifest.plan) && i < s.manifest.plan.segmentCount && i / 8 < |s.progress.bits|
  {
    var g := Committed(s.manifest.plan, s.progress, i);
    Schedule(s.(progress := g, state := if g.segments == s.manifest.plan.segmentCount then Complete else s.state), now)
  }

  /** One `write`: the store after it, the file after it, and the answer. */
  function WriteStep(s: Store, file: File, segment: StoredSegment, device: Device, now: nat)
    : (Store, File, WriteOutcome)
    requires Planned(s.manifest.plan) && |s.progress.bits| == BitmapBytes(s.manifest.plan.segmentCount)
  {
    if !s.handle || s.closed then (Refuse(s), file, Failed)
    else
      match Validate(s, segment)
      case None => (Refuse(s), file, Invalid)
      case Some(at) =>
        match device
        case Short(n) => (Refuse(s), file.(visible := Overwrite(file.visible, at, Part(segment.bytes, n))), Full)
        case WriteThrows(n, quota) =>
          var torn := Overwrite(file.visible, at, Part(segment.bytes, n));
          (Refuse(s), file.(visible := torn), if quota then Full else Failed)
        case FlushThrows(quota) =>
          (Refuse(s), file.(visible := Overwrite(file.visible, at, segment.bytes)), if quota then Full else Failed)
        case Accepts =>
          var data := Overwrite(file.visible, at, segment.bytes);
          (AfterCommit(s, segment.segmentIndex, now), File(data, data), Ok)
  }

  /** The device has no space for the segment: it stores only a part, or says so. */
  predicate RunsOut(device: Device) {
    match device
    case Accepts => false
    case Short(_) => true
    case WriteThrows(_, quota) => quota
    case FlushThrows(quota) => quota
  }

  /** A segment the plan cuts, whose range is not committed yet. */
  predicate Wanted(s: Store, segment: StoredSegment) {
    var p, i := s.manifest.plan, segment.segmentIndex;
    && 0 <= i < p.segmentCount && !IsSet(s.progress.bits, i)
    && segment.byteOffset == Start(p, i) && |segment.bytes| == End(p, i) - Start(p, i)
  }

  /** What each answer means. Ok: the segment's bit is newly set, and its bytes are down and flushed. Any other: nothing
      is committed, and one more segment has been refused, as not wanted, for want of space, or by the device. */
  lemma AnswersMean(s: Store, file: File, segment: StoredSegment, device: Device, now: nat)
    requires Sane(s)
    ensures |s.progress.bits| == BitmapBytes(s.manifest.plan.segmentCount)
    ensures var (after, data, outcome) := WriteStep(s, file, segment, device, now);
            var i := segment.segmentIndex;
            && (outcome == Ok <==> s.handle && !s.closed && Wanted(s, segment) && device.Accepts?)
            && (outcome == Ok <==> i >= 0 && IsSet(after.progress.bits, i) && !IsSet(s.progress.bits, i))
            && (outcome == Ok ==>
                  && data.durable == data.visible && segment.byteOffset + |segment.bytes| <= |data.visible|
                  && data.visible[segment.byteOffset..segment.byteOffset + |segment.bytes|] == segment.bytes
                  && after.refused == s.refused
                  && (after.state.Complete? <==>
                        s.state.Complete? || after.progress.segments == s.manifest.plan.segmentCount))
            && (outcome != Ok ==> after == s.(refused := s.refused + 1) && data.durable == file.durable)
            && (outcome == Invalid <==> s.handle && !s.closed && !Wanted(s, segment))
            && (outcome == Full <==> s.handle && !s.closed && Wanted(s, segment) && RunsOut(device))
            && (outcome == Invalid || !s.handle || s.closed ==> data == file)
  {
    hide IsSet, SetBit, Base64.Encode, Tallied, Overwrite, Start, End, Part;
    TalliedShape(s.manifest.plan, s.progress);
    WantedIsValid(s, segment);
    if s.handle && !s.closed && Wanted(s, segment) {
      CommittedTallied(s.manifest.plan, s.progress, segment.segmentIndex);
      WrittenThere(file.visible, segment.byteOffset, segment.bytes);
    }
  }

  lemma WantedIsValid(s: Store, segment: StoredSegment)
    requires Planned(s.manifest.plan)
    ensures Wanted(s, segment) <==> Validate(s, segment).Some?
    ensures Wanted(s, segment) ==> Validate(s, segment) == Some(segment.byteOffset)
  {
    if Wanted(s, segment) {
      RangeFits(s.manifest.plan, segment.segmentIndex);
    }
  }

  lemma WrittenThere(data: ByteString, at: nat, bytes: ByteString)
    ensures at + |bytes| <= |Overwrite(data, at, bytes)|
    ensures Overwrite(data, at, bytes)[at..at + |bytes|] == bytes
  {
    var after := Overwrite(data, at, bytes);
    forall k | 0 <= k < |bytes|
      ensures after[at..at + |bytes|][k] == bytes[k]
    {
    }
  }

  function Part(bytes: ByteString, n: nat): ByteString {
    if n <= |bytes| then bytes[..n] else bytes
  }

  // ---------------------------------------------------------------- coalescing

  ghost predicate Records(c: SessionCheckpoint, s: Store) {
    && c.committed == Base64.Encode(s.progress.bits)
    && c.segmentsCommitted == s.progress.segments && c.bytesCommitted == s.progress.bytes
    && c.createdAt == s.createdAt
  }

  ghost function Last(s: Store): SessionCheckpoint
    requires s.handed != []
  {
    s.handed[|s.handed| - 1]
  }

  /** At most one scheduled write is out; and either the last snapshot handed over is current,
      or a write is out whose completion will hand over a current one. */
  ghost predicate Coalesced(s: Store) {
    && s.handed != []
    && s.outstanding == (if s.inFlight then 1 else 0)
    && (s.dirty && !s.closed ==> s.inFlight)
    && (!s.dirty ==> Records(Last(s), s))
    && (s.closed ==> !s.handle)
  }

  /** The synchronous stretches of the store's asynchronous life, in any order the event loop runs them. */
  datatype StoreEvent =
    | Write(segment: StoredSegment, device: Device)
    | WriteEnded
    | SealBegins
    | SealPersists
    | SealReleases
    | Releases
    | DisposePersists

  predicate CanStep(s: Store, e: StoreEvent) {
    match e
    case WriteEnded => s.inFlight && s.outstanding > 0
    case SealPersists => s.sealed && !s.inFlight
    case SealReleases => s.sealed
    case DisposePersists => s.closed && !s.inFlight
    case _ => true
  }

  function StoreStep(s: Store, file: File, e: StoreEvent, now: nat): (Store, File)
    requires CanStep(s, e)
    requires Planned(s.manifest.plan) && |s.progress.bits| == BitmapBytes(s.manifest.plan.segmentCount)
  {
    match e
    case Write(segment, device) =>
      var (after, data, _) := WriteStep(s, file, segment, device, now);
      (after, data)
    case WriteEnded => (Landed(s, now), file)
    case SealBegins => (s.(state := Verified, sealed := true), file)
    case SealPersists => (Hand(s, now), file)
    case SealReleases => (s.(handle := false), file)
    case Releases => (s.(closed := true, handle := false), file)
    case DisposePersists => (Hand(s, now), file)
  }

  lemma OpenedIsCoalesced(m: Manifest, seed: Progress, createdAt: nat, now: nat)
    ensures Coalesced(Opened(m, seed, createdAt, now))
  {
  }

  /** A step hands over at most one snapshot, and it is of the store as it then stands. */
  ghost predicate HandsOver(s: Store, after: Store, now: nat) {
    after.handed == s.handed || after.handed == s.handed + [SnapshotOf(after, now)]
  }

  lemma ScheduleKeeps(s: Store, now: nat)
    requires s.handed != [] && !s.closed
    requires s.outstanding == (if s.inFlight then 1 else 0) && (s.dirty ==> s.inFlight)
    ensures Coalesced(Schedule(s, now)) && HandsOver(s, Schedule(s, now), now)
  {
    hide Base64.Encode;
  }

  lemma LandedKeeps(s: Store, now: nat)
    requires Coalesced(s) && s.inFlight
    ensures Coalesced(Landed(s, now)) && HandsOver(s, Landed(s, now), now)
  {
    hide Base64.Encode;
  }

  lemma WriteKeeps(s: Store, file: File, segment: StoredSegment, device: Device, now: nat)
    requires Sane(s) && Coalesced(s)
    ensures var after := WriteStep(s, file, segment, device, now).0;
            && Sane(after) && Coalesced(after) && HandsOver(s, after, now)
            && forall k: nat :: IsSet(s.progress.bits, k) ==> IsSet(after.progress.bits, k)
  {
    hide IsSet, SetBit, Base64.Encode, Tallied;
    assert |s.progress.bits| == BitmapBytes(s.manifest.plan.segmentCount) by {
      TalliedShape(s.manifest.plan, s.progress);
    }
    if s.handle && !s.closed && Validate(s, segment).Some? && device.Accepts? {
      var i := segment.segmentIndex;
      CommittedTallied(s.manifest.plan, s.progress, i);
      var g := Committed(s.manifest.plan, s.progress, i);
      var state := if g.segments == s.manifest.plan.segmentCount then Complete else s.state;
      ScheduleKeeps(s.(progress := g, state := state), now);
    }
  }

  lemma TalliedShape(p: SegmentPlan, g: Progress)
    requires Tallied(p, g)
    ensures |g.bits| == BitmapBytes(p.segmentCount) && Planned(p)
  {
  }

  /** Every step keeps the coalescing invariant and the agreement of bitmap and counters. */
  lemma StepKeepsStore(s: Store, file: File, e: StoreEvent, now: nat)
    requires Sane(s) && Coalesced(s) && CanStep(s, e)
    ensures var after := StoreStep(s, file, e, now).0;
            && Sane(after) && Coalesced(after) && HandsOver(s, after, now)
            && after.manifest == s.manifest
            && forall k: nat :: IsSet(s.progress.bits, k) ==> IsSet(after.progress.bits, k)
  {
    hide IsSet, Base64.Encode;
    match e
    case Write(segment, device) => WriteKeeps(s, file, segment, device, now);
    case WriteEnded => LandedKeeps(s, now);
    case _ =>
  }

  /** Whenever no write is out, an open store's last checkpoint records everything committed. */
  lemma QuiescentIsRecorded(s: Store)
    requires Coalesced(s) && !s.inFlight && !s.closed
    ensures Records(Last(s), s)
  {
  }

  /** After `seal` and after `dispose('retain')` too: their own snapshot is taken once scheduled writes have ended. */
  lemma FinalPersistRecords(s: Store, file: File, e: StoreEvent, now: nat)
    requires Sane(s) && Coalesced(s) && CanStep(s, e) && (e.SealPersists? || e.DisposePersists?)
    ensures Records(Last(StoreStep(s, file, e, now).0), StoreStep(s, file, e, now).0)
    ensures Last(StoreStep(s, file, e, now).0).state == s.state && Last(StoreStep(s, file, e, now).0).updatedAt == now
  {
  }

  /** Once closed nothing is committed, so the final record stays current. */
  lemma ClosedStaysRecorded(s: Store, file: File, e: StoreEvent, now: nat)
    requires Sane(s) && Coalesced(s) && CanStep(s, e) && s.closed && Records(Last(s), s)
    ensures StoreStep(s, file, e, now).0.closed
    ensures Records(Last(StoreStep(s, file, e, now).0), StoreStep(s, file, e, now).0)
  {
  }

  /** A store's whole life: opened fresh or from an adopted checkpoint, then any steps the event loop runs. */
  ghost predicate IsLife(life: seq<Store>, files: seq<File>, events: seq<StoreEvent>, nows: seq<nat>) {
    && |life| == |files| == |events| + 1 == |nows|
    && Sane(life[0]) && (exists m, seed, createdAt :: life[0] == Opened(m, seed, createdAt, nows[0]))
    && forall i :: 0 <= i < |events| ==>
         && CanStep(life[i], events[i]) && Planned(life[i].manifest.plan)
         && |life[i].progress.bits| == BitmapBytes(life[i].manifest.plan.segmentCount)
         && (life[i + 1], files[i + 1]) == StoreStep(life[i], files[i], events[i], nows[i + 1])
  }

  /** Under all interleavings of writes and completions: at most one scheduled write is out, and whenever an open
      store has none out the last snapshot handed to the writer records every committed segment. */
  lemma {:induction false} LifeIsRecorded(life: seq<Store>, files: seq<File>, events: seq<StoreEvent>, nows: seq<nat>,
                                          n: nat)
    requires IsLife(life, files, events, nows) && n < |life|
    ensures Sane(life[n]) && Coalesced(life[n]) && life[n].outstanding <= 1
    ensures !life[n].inFlight && !life[n].closed ==> Records(Last(life[n]), life[n])
    ensures n > 0 && (events[n - 1].SealPersists? || events[n - 1].DisposePersists?) ==> Records(Last(life[n]), life[n])
  {
    hide Sane, StoreStep, Opened, Records;
    if n == 0 {
      var m, seed, createdAt :| life[0] == Opened(m, seed, createdAt, nows[0]);
      OpenedIsCoalesced(m, seed, createdAt, nows[0]);
    } else {
      LifeIsRecorded(life, files, events, nows, n - 1);
      StepKeepsStore(life[n - 1], files[n - 1], events[n - 1], nows[n]);
      if events[n - 1].SealPersists? || events[n - 1].DisposePersists? {
        FinalPersistRecords(life[n - 1], files[n - 1], events[n - 1], nows[n]);
      }
    }
  }

  // ---------------------------------------------------------------- the store itself

  class OpfsSegmentStore {
    const manifest: Manifest
    const createdAt: nat

    var committed: Bitmap
    var bytes: nat
    var segments: nat
    var refused: nat
    var closed: bool
    var handle: bool
    var sealed: bool
    var state: CheckpointState
    var checkpointInFlight: bool
    var checkpointDirty: bool
    var file: File

    /** Scheduled checkpoint writes not yet ended, and every snapshot handed to the writer so far. */
    ghost var outstanding: nat
    ghost var handed: seq<SessionCheckpoint>

    ghost function View(): Store
      reads this
    {
      Store(manifest, createdAt, Progress(committed, segments, bytes), refused, state, closed, handle, sealed,
            checkpointInFlight, checkpointDirty, outstanding, handed)
    }

    ghost predicate Valid()
      reads this
    {
      Sane(View()) && Coalesced(View())
    }

    /** The tail of `open`: a fresh or an adopted store, with its first checkpoint handed over. */
    constructor (manifest: Manifest, adopted: Option<Adoption>, file: File, createdAt: nat, now: nat)
      requires AcceptableManifest(manifest)
      requires adopted.Some? ==> Tallied(manifest.plan, Seeded(adopted.value))
      ensures Valid() && this.file == file && state == Receiving && handle && !closed && refused == 0
      ensures var seed := if adopted.Some? then Seeded(adopted.value) else NoProgress(manifest.plan);
              View() == Opened(manifest, seed, createdAt, now)
    {
      this.manifest := manifest;
      this.createdAt := createdAt;
      var seed := if adopted.Some? then Seeded(adopted.value) else NoProgress(manifest.plan);
      committed, segments, bytes := seed.bits, seed.segments, seed.bytes;
      refused, closed, handle, sealed, state := 0, false, true, false, Receiving;
      checkpointInFlight, checkpointDirty, outstanding := false, false, 0;
      this.file := file;
      handed := Opened(manifest, seed, createdAt, now).handed;
      new;
      NoProgressTallied(manifest.plan);
    }

    method Write(segment: StoredSegment, device: Device, now: nat) returns (outcome: WriteOutcome)
      requires Valid()
      modifies this
      ensures Valid()
      ensures (View(), file, outcome) == WriteStep(old(View()), old(file), segment, device, now)
    {
      hide IsSet, Tallied, Coalesced, SetBit, Base64.Encode, BitmapBytes, Part, AfterCommit, Overwrite;
      WriteKeeps(View(), file, segment, device, now);
      if !handle || closed {
        refused := refused + 1;
        return Failed;
      }
      var at := ValidateSegment(segment);
      if at.None? {
        refused := refused + 1;
        return Invalid;
      }
      match device
      case Short(n) =>
        file := file.(visible := Overwrite(file.visible, at.value, Part(segment.bytes, n)));
        refused := refused + 1;
        return Full;
      case WriteThrows(n, quota) =>
        file := file.(visible := Overwrite(file.visible, at.value, Part(segment.bytes, n)));
        refused := refused + 1;
        return if quota then Full else Failed;
      case FlushThrows(quota) =>
        file := file.(visible := Overwrite(file.visible, at.value, segment.bytes));
        refused := refused + 1;
        return if quota then Full else Failed;
      case Accepts =>
        file := file.(visible := Overwrite(file.visible, at.value, segment.bytes));
        file := file.(durable := file.visible);
        Commit(segment.segmentIndex, |segment.bytes|, now);
        return Ok;
    }

    function ValidateSegment(segment: StoredSegment): Option<nat>
      reads this
    {
      var p := manifest.plan;
      if segment.segmentIndex < 0 || segment.segmentIndex >= p.segmentCount then None
      else if IsCommitted(segment.segmentIndex) then None
      else if segment.byteOffset != Start(p, segment.segmentIndex) then None
      else if |segment.bytes| != End(p, segment.segmentIndex) - Start(p, segment.segmentIndex) then None
      else if Start(p, segment.segmentIndex) + |segment.bytes| > p.transportSize then None
      else Some(Start(p, segment.segmentIndex))
    }

    predicate IsCommitted(segmentIndex: int)
      reads this
    {
      0 <= segmentIndex < manifest.plan.segmentCount && IsSet(committed, segmentIndex)
    }

    /** Bitmap, counters and state after a segment is safely down, and a checkpoint for it. */
    method Commit(i: nat, length: nat, now: nat)
      requires Valid() && !closed && i < manifest.plan.segmentCount && !IsSet(committed, i)
      requires length == End(manifest.plan, i) - Start(manifest.plan, i)
      modifies this`committed, this`bytes, this`segments, this`state, this`checkpointInFlight, this`checkpointDirty,
               this`outstanding, this`handed
      ensures i / 8 < |old(committed)| && View() == AfterCommit(old(View()), i, now)
    {
      hide IsSet, SetBit, Tallied, Coalesced, Base64.Encode, Planned, Start, End;
      CommittedTallied(manifest.plan, Progress(committed, segments, bytes), i);
      committed := SetBit(committed, i);
      bytes := bytes + length;
      segments := segments + 1;
      if segments == manifest.plan.segmentCount {
        state := Complete;
      }
      ScheduleCheckpoint(now);
    }

    method ScheduleCheckpoint(now: nat)
      modifies this`checkpointInFlight, this`checkpointDirty, this`outstanding, this`handed
      ensures View() == Schedule(old(View()), now)
    {
      if checkpointInFlight {
        checkpointDirty := true;
        return;
      }
      checkpointInFlight := true;
      outstanding := outstanding + 1;
      handed := handed + [SnapshotOf(View(), now)];
    }

    /** What runs when the scheduled checkpoint write has ended. */
    method CheckpointEnded(now: nat)
      requires Valid() && checkpointInFlight
      modifies this`checkpointInFlight, this`checkpointDirty, this`outstanding, this`handed
      ensures Valid() && View() == Landed(old(View()), now)
    {
      LandedKeeps(View(), now);
      checkpointInFlight := false;
      outstanding := outstanding - 1;
      if !checkpointDirty || closed {
        return;
      }
      checkpointDirty := false;
      ScheduleCheckpoint(now);
    }

    /** Copies up to `want` bytes from `offset`; the device may move fewer. */
    method Read(offset: int, want: nat, moved: nat) returns (got: ByteString)
      requires Valid()
      ensures |got| <= want
      ensures got != [] ==>
                handle && !closed && 0 <= offset && offset + |got| <= |file.visible|
                && offset + |got| <= manifest.plan.transportSize
                && got == file.visible[offset..offset + |got|]
      ensures handle && !closed && want > 0 && moved > 0 ==>
                0 <= offset < manifest.plan.transportSize <= |file.visible| ==> got != []
    {
      if !handle || closed || offset < 0 || offset >= manifest.plan.transportSize {
        return [];
      }
      var size := Least(want, manifest.plan.transportSize - offset);
      var stored := if offset < |file.visible| then |file.visible| - offset else 0;
      var count := Least(Least(size, moved), stored);
      if count == 0 {
        return [];
      }
      return file.visible[offset..offset + count];
    }

    method BeginSeal()
      requires Valid()
      modifies this`state, this`sealed
      ensures Valid() && (View(), file) == StoreStep(old(View()), old(file), SealBegins, 0)
      ensures state == Verified && sealed
    {
      state := Verified;
      sealed := true;
    }

    /** The persist `seal` and `dispose` run once no scheduled write is out. */
    method PersistCheckpoint(now: nat)
      requires Valid()
      modifies this`handed
      ensures Valid() && View() == Hand(old(View()), now) && Records(Last(View()), View())
    {
      handed := handed + [SnapshotOf(View(), now)];
    }

    method ReleaseHandle()
      requires Valid()
      modifies this`handle
      ensures Valid() && View() == old(View()).(handle := false)
    {
      handle := false;
    }

    method Release()
      requires Valid()
      modifies this`closed, this`handle
      ensures Valid() && View() == old(View()).(closed := true, handle := false)
    {
      hide Tallied, IsSet, Base64.Encode;
      closed := true;
      handle := false;
    }
  }

  function Least(a: nat, b: nat): (m: nat)
    ensures m <= a && m <= b && (m == a || m == b)
  {
    if a < b then a else b
  }
}
