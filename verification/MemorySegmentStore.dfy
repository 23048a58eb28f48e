/** The in-memory fallback for a device without file storage, and its agreement with the file-backed store. */
module MemoryStores {
  import opened Bytes
  import opened Checkpoints
  import opened OpfsStores
  import opened SegmentPlans

  const MAX_SAFE_INTEGER: nat := 9_007_199_254_740_991

  /** `segments` lists what the map holds, in the order it was inserted. */
  datatype Memory = Memory(budget: nat, segments: seq<StoredSegment>, held: nat, written: nat, refused: nat,
                           extent: nat)

  function Empty(budget: nat): Memory {
    Memory(budget, [], 0, 0, 0, 0)
  }

  predicate Has(segments: seq<StoredSegment>, segmentIndex: int) {
    exists i :: 0 <= i < |segments| && segments[i].segmentIndex == segmentIndex
  }

  function Largest(a: nat, b: nat): nat {
    if a < b then b else a
  }

  function MemoryWrite(m: Memory, segment: StoredSegment): (Memory, WriteOutcome) {
    if segment.byteOffset < 0 || segment.byteOffset > MAX_SAFE_INTEGER || Has(m.segments, segment.segmentIndex) then
      (m.(refused := m.refused + 1), Invalid)
    else if m.held + |segment.bytes| > m.budget then (m.(refused := m.refused + 1), Full)
    else
      (m.(segments := m.segments + [segment], held := m.held + |segment.bytes|, written := m.written + 1,
          extent := Largest(m.extent, segment.byteOffset + |segment.bytes|)), Ok)
  }

  predicate Contains(s: StoredSegment, offset: nat) {
    s.byteOffset <= offset < s.byteOffset + |s.bytes|
  }

  /** The first segment inserted that holds this offset. */
  function FirstAt(segments: seq<StoredSegment>, offset: nat): (found: Option<StoredSegment>)
    ensures found.Some? ==> found.value in segments && Contains(found.value, offset)
    ensures found.None? ==> forall i :: 0 <= i < |segments| ==> !Contains(segments[i], offset)
  {
    if segments == [] then None
    else
      var before := FirstAt(segments[..|segments| - 1], offset);
      if before.Some? then before
      else if Contains(segments[|segments| - 1], offset) then Some(segments[|segments| - 1]) else None
  }

  function ByteAt(segments: seq<StoredSegment>, offset: nat): Option<Byte> {
    var s := FirstAt(segments, offset);
    if s.None? then None else Some(s.value.bytes[offset - s.value.byteOffset])
  }

  function ByteOrZero(segments: seq<StoredSegment>, offset: nat): Byte {
    var b := ByteAt(segments, offset);
    if b.Some? then b.value else 0
  }

  /** What each answer means: a refusal is counted and changes nothing else, an accepted segment is one more held. */
  lemma MemoryAnswersMean(m: Memory, segment: StoredSegment)
    ensures var (after, outcome) := MemoryWrite(m, segment);
            && (outcome == Ok ==>
                  && after.segments == m.segments + [segment] && after.written == m.written + 1
                  && after.held == m.held + |segment.bytes| <= m.budget && after.refused == m.refused
                  && after.extent >= m.extent && after.extent >= segment.byteOffset + |segment.bytes|
                  && after.extent in {m.extent, segment.byteOffset + |segment.bytes|})
            && (outcome != Ok ==> after == m.(refused := m.refused + 1))
            && (outcome == Invalid <==>
                  || segment.byteOffset < 0 || segment.byteOffset >= 0x20_0000_0000_0000
                  || Has(m.segments, segment.segmentIndex))
            && (outcome == Full ==> m.held + |segment.bytes| > m.budget)
            && outcome != Failed
  {
  }

  /** No offset lies in two segments. */
  ghost predicate Apart(segments: seq<StoredSegment>) {
    forall i, j, k: nat :: 0 <= i < j < |segments| && Contains(segments[i], k) ==> !Contains(segments[j], k)
  }

  lemma OnlyOneAt(segments: seq<StoredSegment>, i: nat, offset: nat)
    requires Apart(segments) && i < |segments| && Contains(segments[i], offset)
    ensures FirstAt(segments, offset) == Some(segments[i])
  {
    var s := FirstAt(segments, offset);
    var j :| 0 <= j < |segments| && segments[j] == s.value;
    assert Contains(segments[i], offset) && Contains(segments[j], offset);
  }

  class BoundedMemorySegmentStore {
    const budgetBytes: nat
    var segments: seq<StoredSegment>
    var held: nat
    var written: nat
    var refused: nat
    var extent: nat

    ghost function View(): Memory
      reads this
    {
      Memory(budgetBytes, segments, held, written, refused, extent)
    }

    constructor (budgetBytes: nat)
      ensures View() == Empty(budgetBytes)
    {
      this.budgetBytes := budgetBytes;
      segments, held, written, refused, extent := [], 0, 0, 0, 0;
    }

    method Write(segment: StoredSegment) returns (outcome: WriteOutcome)
      modifies this
      ensures (View(), outcome) == MemoryWrite(old(View()), segment)
    {
      if segment.byteOffset < 0 || segment.byteOffset > MAX_SAFE_INTEGER {
        refused := refused + 1;
        return Invalid;
      }
      if Has(segments, segment.segmentIndex) {
        refused := refused + 1;
        return Invalid;
      }
      if held + |segment.bytes| > budgetBytes {
        refused := refused + 1;
        return Full;
      }
      segments := segments + [segment];
      held := held + |segment.bytes|;
      written := written + 1;
      extent := Largest(extent, segment.byteOffset + |segment.bytes|);
      return Ok;
    }

    method SegmentAt(offset: nat) returns (found: Option<StoredSegment>)
      ensures found == FirstAt(segments, offset)
    {
      var i := 0;
      while i < |segments|
        invariant 0 <= i <= |segments| && FirstAt(segments[..i], offset) == None
      {
        assert segments[..i + 1][..i] == segments[..i];
        if Contains(segments[i], offset) {
          found := Some(segments[i]);
          FirstStays(segments, i + 1, offset);
          return;
        }
        i := i + 1;
      }
      assert segments[..i] == segments;
      return None;
    }

    /** Copies the longest run of held bytes from `offset` that fits. */
    method Read(offset: int, into: array<Byte>) returns (copied: nat)
      requires Apart(segments)
      modifies into
      ensures copied <= into.Length && into[copied..] == old(into[copied..])
      ensures copied > 0 ==>
                && offset >= 0
                && forall k: nat :: offset <= k < offset + copied ==> ByteAt(segments, k) == Some(into[k - offset])
      ensures offset >= 0 && copied < into.Length ==> ByteAt(segments, offset + copied) == None
    {
      hide FirstAt, Apart;
      copied := 0;
      if offset < 0 || into.Length == 0 {
        return;
      }
      while copied < into.Length
        invariant 0 <= copied <= into.Length && forall k :: copied <= k < into.Length ==> into[k] == old(into[k])
        invariant forall k: nat :: offset <= k < offset + copied ==> ByteAt(segments, k) == Some(into[k - offset])
        decreases into.Length - copied
      {
        var at := offset + copied;
        var found := SegmentAt(at);
        if found.None? {
          return;
        }
        var segment := found.value;
        var within := at - segment.byteOffset;
        var left, inside := into.Length - copied, |segment.bytes| - within;
        var take := if left < inside then left else inside;
        RunIsHeld(segments, segment, at, take);
        forall k | 0 <= k < take {
          into[copied + k] := segment.bytes[within + k];
        }
        copied := copied + take;
      }
    }

    /** One buffer with every segment at its offset; bytes no segment holds are zero. */
    method Seal() returns (bytes: ByteString)
      requires Apart(segments)
      requires forall i :: 0 <= i < |segments| ==>
                 0 <= segments[i].byteOffset && segments[i].byteOffset + |segments[i].bytes| <= extent
      ensures |bytes| == extent
      ensures forall k :: 0 <= k < extent ==> bytes[k] == ByteOrZero(segments, k)
    {
      hide ByteOrZero, FirstAt;
      bytes := Zeros(extent);
      NothingHeld();
      var i := 0;
      while i < |segments|
        invariant 0 <= i <= |segments| && |bytes| == extent
        invariant forall k :: 0 <= k < extent ==> bytes[k] == ByteOrZero(segments[..i], k)
      {
        ApartPrefix(segments, i + 1);
        ghost var before := bytes;
        bytes := Overwrite(bytes, segments[i].byteOffset, segments[i].bytes);
        OverwriteAddsSegment(segments, i, before, extent);
        i := i + 1;
      }
      assert segments[..i] == segments;
    }
  }

  lemma NothingHeld()
    ensures forall k: nat :: ByteOrZero([], k) == 0
  {
  }

  lemma {:induction false} FirstStays(segments: seq<StoredSegment>, n: nat, offset: nat)
    requires n <= |segments| && FirstAt(segments[..n], offset).Some?
    ensures FirstAt(segments, offset) == FirstAt(segments[..n], offset)
  {
    if n == |segments| {
      assert segments[..n] == segments;
    } else {
      assert segments[..|segments| - 1][..n] == segments[..n];
      FirstStays(segments[..|segments| - 1], n, offset);
    }
  }

  lemma RunIsHeld(segments: seq<StoredSegment>, segment: StoredSegment, at: nat, take: nat)
    requires Apart(segments) && segment in segments && segment.byteOffset <= at
             && at + take <= segment.byteOffset + |segment.bytes|
    ensures forall k: nat :: at <= k < at + take ==> ByteAt(segments, k) == Some(segment.bytes[k - segment.byteOffset])
  {
    var i :| 0 <= i < |segments| && segments[i] == segment;
    forall k: nat | at <= k < at + take
      ensures ByteAt(segments, k) == Some(segment.bytes[k - segment.byteOffset])
    {
      OnlyOneAt(segments, i, k);
    }
  }

  lemma ApartPrefix(segments: seq<StoredSegment>, n: nat)
    requires Apart(segments) && n <= |segments|
    ensures Apart(segments[..n])
  {
  }

  lemma OverwriteAddsSegment(segments: seq<StoredSegment>, i: nat, before: ByteString, extent: nat)
    requires i < |segments| && Apart(segments[..i + 1]) && |before| == extent
    requires 0 <= segments[i].byteOffset && segments[i].byteOffset + |segments[i].bytes| <= extent
    requires forall k :: 0 <= k < extent ==> before[k] == ByteOrZero(segments[..i], k)
    ensures var after := Overwrite(before, segments[i].byteOffset, segments[i].bytes);
            |after| == extent && forall k :: 0 <= k < extent ==> after[k] == ByteOrZero(segments[..i + 1], k)
  {
    assert segments[..i + 1][..i] == segments[..i];
    var after := Overwrite(before, segments[i].byteOffset, segments[i].bytes);
    forall k: nat | k < extent
      ensures after[k] == ByteOrZero(segments[..i + 1], k)
    {
      if Contains(segments[i], k) {
        OnlyOneAt(segments[..i + 1], i, k);
        assert after[segments[i].byteOffset + (k - segments[i].byteOffset)]
                 == segments[i].bytes[k - segments[i].byteOffset];
      }
    }
  }

  // ---------------------------------------------------------------- both stores hold the same bytes

  /** A segment as the plan cuts it. */
  predicate PlanCut(p: SegmentPlan, segment: StoredSegment) {
    && 0 <= segment.segmentIndex < p.segmentCount
    && segment.byteOffset == Start(p, segment.segmentIndex)
    && |segment.bytes| == End(p, segment.segmentIndex) - Start(p, segment.segmentIndex)
  }

  ghost predicate HeldIn(file: ByteString, segment: StoredSegment) {
    && 0 <= segment.byteOffset && segment.byteOffset + |segment.bytes| <= |file|
    && file[segment.byteOffset..segment.byteOffset + |segment.bytes|] == segment.bytes
  }

  ghost predicate AllHeld(p: SegmentPlan, file: ByteString, segments: seq<StoredSegment>) {
    forall i :: 0 <= i < |segments| ==> PlanCut(p, segments[i]) && HeldIn(file, segments[i])
  }

  ghost predicate NoneTwice(segments: seq<StoredSegment>) {
    forall i, j :: 0 <= i < j < |segments| ==> segments[i].segmentIndex != segments[j].segmentIndex
  }

  ghost predicate SameSegments(p: SegmentPlan, bits: Bitmap, segments: seq<StoredSegment>) {
    forall k: nat :: k < p.segmentCount ==> (IsSet(bits, k) <==> Has(segments, k))
  }

  /** The two stores have committed the same segments, with the same bytes. */
  ghost predicate Agree(s: Store, file: File, m: Memory) {
    var p := s.manifest.plan;
    && Sane(s) && |file.visible| == p.transportSize
    && AllHeld(p, file.visible, m.segments) && NoneTwice(m.segments) && SameSegments(p, s.progress.bits, m.segments)
    && m.held == s.progress.bytes && m.written == s.progress.segments
  }

  /** Offered the same plan-cut segment, both stores give the same answer and still agree: neither ever rewrites a
      committed range. */
  lemma WritesAgree(s: Store, file: File, m: Memory, segment: StoredSegment, now: nat)
    requires Agree(s, file, m) && s.handle && !s.closed && PlanCut(s.manifest.plan, segment)
    requires s.manifest.plan.transportSize <= m.budget && s.manifest.plan.transportSize <= MAX_SAFE_INTEGER
    ensures Planned(s.manifest.plan) && |s.progress.bits| == BitmapBytes(s.manifest.plan.segmentCount)
    ensures var (after, data, outcome) := WriteStep(s, file, segment, Accepts, now);
            var (memory, answer) := MemoryWrite(m, segment);
            && Agree(after, data, memory) && m.segments <= memory.segments
            && outcome == answer == (if IsSet(s.progress.bits, segment.segmentIndex) then Invalid else Ok)
  {
    hide IsSet, Tallied, Has, AllHeld, NoneTwice, SameSegments;
    var p, i := s.manifest.plan, segment.segmentIndex;
    TalliedShape(p, s.progress);
    RangeFits(p, i);
    assert IsSet(s.progress.bits, i) <==> Has(m.segments, i) by {
      SameAt(p, s.progress.bits, m.segments, i);
    }
    if !IsSet(s.progress.bits, i) {
      CommittedTallied(p, s.progress, i);
      BytesFit(p, Committed(p, s.progress, i));
      OneMoreHeld(p, file.visible, m.segments, segment);
      OneMoreSame(p, s.progress.bits, Committed(p, s.progress, i).bits, m.segments, segment);
    }
  }

  lemma SameAt(p: SegmentPlan, bits: Bitmap, segments: seq<StoredSegment>, k: nat)
    requires SameSegments(p, bits, segments) && k < p.segmentCount
    ensures IsSet(bits, k) <==> Has(segments, k)
  {
  }

  lemma OneMoreHeld(p: SegmentPlan, data: ByteString, segments: seq<StoredSegment>, segment: StoredSegment)
    requires Planned(p) && |data| == p.transportSize && PlanCut(p, segment) && !Has(segments, segment.segmentIndex)
    requires AllHeld(p, data, segments) && NoneTwice(segments)
    ensures AllHeld(p, Overwrite(data, segment.byteOffset, segment.bytes), segments + [segment])
            && NoneTwice(segments + [segment])
  {
    hide HeldIn;
    RangeFits(p, segment.segmentIndex);
    var after := Overwrite(data, segment.byteOffset, segment.bytes);
    forall k | 0 <= k < |segments|
      ensures HeldIn(after, segments[k])
    {
      StillHeld(p, data, segment, segments[k]);
    }
    NowHeld(data, segment);
  }

  lemma OneMoreSame(p: SegmentPlan, bits: Bitmap, after: Bitmap, segments: seq<StoredSegment>, segment: StoredSegment)
    requires SameSegments(p, bits, segments)
    requires forall k: nat :: IsSet(after, k) <==> k == segment.segmentIndex || IsSet(bits, k)
    ensures SameSegments(p, after, segments + [segment])
  {
    hide IsSet, Has;
    forall k: nat | k < p.segmentCount
      ensures IsSet(after, k) <==> Has(segments + [segment], k)
    {
      HasOneMore(segments, segment, k);
    }
  }

  lemma HasOneMore(segments: seq<StoredSegment>, segment: StoredSegment, k: nat)
    ensures Has(segments + [segment], k) <==> k == segment.segmentIndex || Has(segments, k)
  {
    if k == segment.segmentIndex {
      assert (segments + [segment])[|segments|].segmentIndex == k;
    }
    if Has(segments, k) {
      var i :| 0 <= i < |segments| && segments[i].segmentIndex == k;
      assert (segments + [segment])[i].segmentIndex == k;
    }
  }

  lemma BytesFit(p: SegmentPlan, g: Progress)
    requires Tallied(p, g)
    ensures g.bytes <= p.transportSize
  {
    FullIff(p, g.bits, p.segmentCount);
  }

  lemma StillHeld(p: SegmentPlan, data: ByteString, segment: StoredSegment, other: StoredSegment)
    requires Planned(p) && PlanCut(p, segment) && PlanCut(p, other) && segment.segmentIndex != other.segmentIndex
    requires |data| == p.transportSize && HeldIn(data, other)
    ensures HeldIn(Overwrite(data, segment.byteOffset, segment.bytes), other)
  {
    RangeFits(p, segment.segmentIndex);
    if segment.segmentIndex < other.segmentIndex {
      RangesAreDisjoint(p, segment.segmentIndex, other.segmentIndex);
    } else {
      RangesAreDisjoint(p, other.segmentIndex, segment.segmentIndex);
    }
    var after := Overwrite(data, segment.byteOffset, segment.bytes);
    assert after[other.byteOffset..other.byteOffset + |other.bytes|]
             == data[other.byteOffset..other.byteOffset + |other.bytes|];
  }

  lemma NowHeld(data: ByteString, segment: StoredSegment)
    requires 0 <= segment.byteOffset && segment.byteOffset + |segment.bytes| <= |data|
    ensures HeldIn(Overwrite(data, segment.byteOffset, segment.bytes), segment)
  {
    var after := Overwrite(data, segment.byteOffset, segment.bytes);
    forall k | 0 <= k < |segment.bytes|
      ensures after[segment.byteOffset..segment.byteOffset + |segment.bytes|][k] == segment.bytes[k]
    {
      assert after[segment.byteOffset + k] == segment.bytes[k];
    }
  }

  /** The memory store answers for exactly the committed offsets, with the file's bytes. */
  lemma SameImage(s: Store, file: File, m: Memory, segmentIndex: nat, offset: nat)
    requires Agree(s, file, m) && segmentIndex < s.manifest.plan.segmentCount
    requires Start(s.manifest.plan, segmentIndex) <= offset < End(s.manifest.plan, segmentIndex)
    ensures Apart(m.segments) && offset < |file.visible|
    ensures ByteAt(m.segments, offset)
         == if IsSet(s.progress.bits, segmentIndex) then Some(file.visible[offset]) else None
  {
    hide IsSet, Tallied, SameSegments, HeldIn, Apart, FirstAt, PlanCut, Contains, Start, End, Has;
    var p := s.manifest.plan;
    TalliedShape(p, s.progress);
    SameAt(p, s.progress.bits, m.segments, segmentIndex);
    RangeFits(p, segmentIndex);
    CutsAreApart(p, m.segments);
    var found := FirstAt(m.segments, offset);
    if Has(m.segments, segmentIndex) {
      HasHolds(p, m.segments, segmentIndex, offset);
    }
    if found.Some? {
      FoundIsCut(p, file.visible, m.segments, segmentIndex, offset);
    }
  }

  lemma HasHolds(p: SegmentPlan, segments: seq<StoredSegment>, segmentIndex: nat, offset: nat)
    requires Planned(p) && Has(segments, segmentIndex) && segmentIndex < p.segmentCount
    requires forall i :: 0 <= i < |segments| ==> PlanCut(p, segments[i])
    requires Start(p, segmentIndex) <= offset < End(p, segmentIndex)
    ensures FirstAt(segments, offset).Some?
  {
    var i :| 0 <= i < |segments| && segments[i].segmentIndex == segmentIndex;
    assert Contains(segments[i], offset);
  }

  lemma FoundIsCut(p: SegmentPlan, file: ByteString, segments: seq<StoredSegment>, segmentIndex: nat, offset: nat)
    requires Planned(p) && AllHeld(p, file, segments) && segmentIndex < p.segmentCount
             && FirstAt(segments, offset).Some?
    requires Start(p, segmentIndex) <= offset < End(p, segmentIndex)
    ensures Has(segments, segmentIndex) && offset < |file| && ByteAt(segments, offset) == Some(file[offset])
  {
    var found := FirstAt(segments, offset).value;
    var i :| 0 <= i < |segments| && segments[i] == found;
    SameSegment(p, found, segmentIndex, offset);
    assert HeldIn(file, found);
    assert file[found.byteOffset..found.byteOffset + |found.bytes|][offset - found.byteOffset] == file[offset];
  }

  lemma SameSegment(p: SegmentPlan, segment: StoredSegment, segmentIndex: nat, offset: nat)
    requires Planned(p) && PlanCut(p, segment) && segmentIndex < p.segmentCount && Contains(segment, offset)
    requires Start(p, segmentIndex) <= offset < End(p, segmentIndex)
    ensures segment.segmentIndex == segmentIndex
  {
    if segment.segmentIndex < segmentIndex {
      RangesAreDisjoint(p, segment.segmentIndex, segmentIndex);
    } else if segmentIndex < segment.segmentIndex {
      RangesAreDisjoint(p, segmentIndex, segment.segmentIndex);
    }
  }

  lemma CutsAreApart(p: SegmentPlan, segments: seq<StoredSegment>)
    requires Planned(p) && NoneTwice(segments) && forall i :: 0 <= i < |segments| ==> PlanCut(p, segments[i])
    ensures Apart(segments)
  {
    forall i, j, k: nat | 0 <= i < j < |segments| && Contains(segments[i], k)
      ensures !Contains(segments[j], k)
    {
      if Contains(segments[j], k) {
        SameSegment(p, segments[j], segments[i].segmentIndex, k);
      }
    }
  }

  /** Both stores are full together, and exactly when their bytes add up to the transport size. */
  lemma FullTogether(s: Store, file: File, m: Memory)
    requires Agree(s, file, m)
    ensures m.written == s.manifest.plan.segmentCount <==> m.held == s.manifest.plan.transportSize
    ensures s.progress.segments == s.manifest.plan.segmentCount <==>
              forall k: nat :: k < s.manifest.plan.segmentCount ==> Has(m.segments, k)
  {
    FullIff(s.manifest.plan, s.progress.bits, s.manifest.plan.segmentCount);
  }

  datatype Pair = Pair(store: Store, file: File, memory: Memory)

  /** One segment offered to both stores. */
  ghost predicate BothWrite(before: Pair, segment: StoredSegment, now: nat, after: Pair) {
    && Planned(before.store.manifest.plan)
    && |before.store.progress.bits| == BitmapBytes(before.store.manifest.plan.segmentCount)
    && after.store == WriteStep(before.store, before.file, segment, Accepts, now).0
    && after.file == WriteStep(before.store, before.file, segment, Accepts, now).1
    && after.memory == MemoryWrite(before.memory, segment).0
  }

  /** Plan-cut segments in any order, repeats included, keep both stores images of one file. */
  lemma {:induction false} StoresRefineOneImage(run: seq<Pair>, segments: seq<StoredSegment>, now: nat, n: nat)
    requires |run| == |segments| + 1 && n < |run|
    requires forall i :: 0 <= i < |segments| ==> BothWrite(run[i], segments[i], now, run[i + 1])
    requires Agree(run[0].store, run[0].file, run[0].memory) && run[0].store.handle && !run[0].store.closed
    requires var p := run[0].store.manifest.plan;
             p.transportSize <= run[0].memory.budget && p.transportSize <= MAX_SAFE_INTEGER
             && forall i :: 0 <= i < |segments| ==> PlanCut(p, segments[i])
    ensures Agree(run[n].store, run[n].file, run[n].memory)
    ensures run[n].store.manifest == run[0].store.manifest && run[n].store.handle && !run[n].store.closed
            && run[n].memory.budget == run[0].memory.budget
  {
    hide Agree, WriteStep, PlanCut, Tallied;
    if n > 0 {
      var before := run[n - 1];
      StoresRefineOneImage(run, segments, now, n - 1);
      assert BothWrite(before, segments[n - 1], now, run[n]);
      WritesAgree(before.store, before.file, before.memory, segments[n - 1], now);
      WriteLeavesOpen(before.store, before.file, segments[n - 1], now);
    }
  }

  lemma WriteLeavesOpen(s: Store, file: File, segment: StoredSegment, now: nat)
    requires Planned(s.manifest.plan) && |s.progress.bits| == BitmapBytes(s.manifest.plan.segmentCount)
    ensures var after := WriteStep(s, file, segment, Accepts, now).0;
            after.manifest == s.manifest && after.handle == s.handle && after.closed == s.closed
  {
  }

  /** Fresh stores agree, whatever the truncated file reads as. */
  lemma FreshStoresAgree(m: Manifest, file: File, budget: nat, now: nat)
    requires AcceptableManifest(m) && |file.visible| == m.plan.transportSize
    ensures Agree(Opened(m, NoProgress(m.plan), now, now), file, Empty(budget))
  {
    hide IsSet, Tallied, Base64.Encode;
    NoProgressTallied(m.plan);
  }

  /** From a fresh pair of stores, any sequence of plan-cut segments leaves the two holding one image of the file, and
      both are full together. */
  lemma FreshStoresRefineOneImage(m: Manifest, budget: nat, run: seq<Pair>, segments: seq<StoredSegment>, now: nat,
                                  n: nat)
    requires AcceptableManifest(m) && m.plan.transportSize <= budget && m.plan.transportSize <= MAX_SAFE_INTEGER
    requires |run| == |segments| + 1 && n < |run|
    requires run[0].store == Opened(m, NoProgress(m.plan), now, now) && |run[0].file.visible| == m.plan.transportSize
    requires run[0].memory == Empty(budget)
    requires forall i :: 0 <= i < |segments| ==>
               BothWrite(run[i], segments[i], now, run[i + 1]) && PlanCut(m.plan, segments[i])
    ensures Agree(run[n].store, run[n].file, run[n].memory)
    ensures run[n].memory.written == m.plan.segmentCount <==> run[n].memory.held == m.plan.transportSize
  {
    hide Agree, BothWrite, PlanCut, Base64.Encode, AcceptableManifest;
    FreshStoresAgree(m, run[0].file, budget, now);
    StoresRefineOneImage(run, segments, now, n);
    FullTogether(run[n].store, run[n].file, run[n].memory);
  }

  predicate OutOfRange(segment: StoredSegment) {
    segment.byteOffset < 0 || segment.byteOffset > MAX_SAFE_INTEGER
  }

  predicate Fits(m: Memory, segment: StoredSegment) {
    m.held + |segment.bytes| <= m.budget
  }

  /** Whatever they are offered, the stores give one answer exactly when the segment is a repeat or out of range, or is
      plan-cut and within the budget; and both take it exactly when it is new, plan-cut and within the budget. */
  lemma SameAnswerIff(s: Store, file: File, m: Memory, segment: StoredSegment, now: nat)
    requires Agree(s, file, m) && s.handle && !s.closed && s.manifest.plan.transportSize <= MAX_SAFE_INTEGER
    ensures Planned(s.manifest.plan) && |s.progress.bits| == BitmapBytes(s.manifest.plan.segmentCount)
    ensures var answer, other := WriteStep(s, file, segment, Accepts, now).2, MemoryWrite(m, segment).1;
            var again := Has(m.segments, segment.segmentIndex);
            && (answer == other <==>
                  again || OutOfRange(segment) || (PlanCut(s.manifest.plan, segment) && Fits(m, segment)))
            && (answer == other == Ok <==> !again && PlanCut(s.manifest.plan, segment) && Fits(m, segment))
  {
    hide IsSet, Tallied, AllHeld, NoneTwice, SameSegments, Has;
    var p, i := s.manifest.plan, segment.segmentIndex;
    TalliedShape(p, s.progress);
    if 0 <= i < p.segmentCount {
      SameAt(p, s.progress.bits, m.segments, i);
      RangeFits(p, i);
    }
    if Has(m.segments, i) {
      HeldIsPlanned(p, file.visible, m.segments, i);
    }
  }

  lemma HeldIsPlanned(p: SegmentPlan, file: ByteString, segments: seq<StoredSegment>, i: int)
    requires AllHeld(p, file, segments) && Has(segments, i)
    ensures 0 <= i < p.segmentCount
  {
  }

  /** It does differ: an empty segment offered for a one-byte transfer, refused by one store and taken by the other. */
  lemma OnlyTheFileStoreValidates(budget: nat)
    ensures var m := Manifest(1, 1, Zeros(32), 1, SegmentPlan(1, 1, 1));
            var s := Opened(m, NoProgress(m.plan), 0, 0);
            && Agree(s, File([0], []), Empty(budget)) && s.handle && !s.closed
            && Planned(m.plan) && |s.progress.bits| == BitmapBytes(m.plan.segmentCount)
            && WriteStep(s, File([0], []), StoredSegment(0, 0, []), Accepts, 0).2 == Invalid
            && MemoryWrite(Empty(budget), StoredSegment(0, 0, [])).1 == Ok
  {
    hide IsSet, Tallied, Base64.Encode;
    var m := Manifest(1, 1, Zeros(32), 1, SegmentPlan(1, 1, 1));
    FreshStoresAgree(m, File([0], []), budget, 0);
    TalliedShape(m.plan, NoProgress(m.plan));
  }
}
