/** Events per second over a ring of buckets, measured against the list of every event recorded. */
module RateWindows {
  import opened Bytes
  import opened Residues

  datatype Event = Event(index: int, count: int)

  /** JavaScript's remainder, which takes the sign of the dividend. */
  function Rem(a: int, n: int): int
    requires n > 0
  {
    if a >= 0 then a % n else -((-a) % n)
  }

  function Slot(index: int, n: int): (slot: nat)
    requires n > 0
    ensures slot < n
  {
    (Rem(index, n) + n) % n
  }

  /** For either sign the slot is the mathematical remainder. */
  lemma SlotIsRemainder(index: int, n: int)
    requires n > 0
    ensures Slot(index, n) == index % n
  {
    var q := Divided(index, n);
    var r := index % n;
    if index >= 0 {
      RemainderIs(r + n, n, 1, r);
    } else {
      var p := Divided(-index, n);
      var s := (-index) % n;
      assert (-p) * n == -(p * n) && (-p - 1) * n == -(p * n) - n;
      if s == 0 {
        RemainderIs(index, n, -p, 0);
        RemainderIs(n, n, 1, 0);
      } else {
        RemainderIs(index, n, -p - 1, n - s);
        RemainderIs(n - s, n, 0, n - s);
      }
    }
  }

  /** Within any run of `n` consecutive indices, a slot belongs to one. */
  lemma SameSlot(a: int, b: int, n: int)
    requires n > 0 && a <= b < a + n && Slot(a, n) == Slot(b, n)
    ensures a == b
  {
    hide Slot;
    SlotIsRemainder(a, n);
    SlotIsRemainder(b, n);
    SameRemainder(a, b, n);
  }

  // ---------------------------------------------------------------- the list of events

  type Choice = int -> bool

  /** The counts of the chosen events among the first `m`. */
  ghost function Tally(log: seq<Event>, chosen: Choice, m: nat): int
    requires m <= |log|
  {
    if m == 0 then 0 else Tally(log, chosen, m - 1) + (if chosen(m - 1) then log[m - 1].count else 0)
  }

  ghost predicate InWindow(log: seq<Event>, low: int, high: int, k: int) {
    0 <= k < |log| && low <= log[k].index <= high
  }

  /** A later event has taken this one's slot for another bucket. */
  ghost predicate Overwritten(log: seq<Event>, n: int, k: int)
    requires n > 0
  {
    0 <= k < |log| && exists j ::
      k < j < |log| && Slot(log[j].index, n) == Slot(log[k].index, n) && log[j].index != log[k].index
  }

  ghost predicate InSlot(log: seq<Event>, n: int, s: int, k: int)
    requires n > 0
  {
    0 <= k < |log| && Slot(log[k].index, n) == s
  }

  /** Everything recorded in the buckets from `low` to `high`. */
  ghost function Within(log: seq<Event>, low: int, high: int): int {
    Tally(log, k => InWindow(log, low, high, k), |log|)
  }

  /** The part of it that has not been overwritten. */
  ghost function Live(log: seq<Event>, n: int, low: int, high: int): int
    requires n > 0
  {
    Tally(log, k => InWindow(log, low, high, k) && !Overwritten(log, n, k), |log|)
  }

  lemma {:induction false} TallySame(log: seq<Event>, longer: seq<Event>, f: Choice, g: Choice, m: nat)
    requires m <= |log| <= |longer| && forall k :: 0 <= k < m ==> log[k] == longer[k] && f(k) == g(k)
    ensures Tally(log, f, m) == Tally(longer, g, m)
  {
    if m > 0 {
      TallySame(log, longer, f, g, m - 1);
    }
  }

  lemma {:induction false} TallyNone(log: seq<Event>, f: Choice, m: nat)
    requires m <= |log| && forall k :: 0 <= k < m ==> !f(k)
    ensures Tally(log, f, m) == 0
  {
    if m > 0 {
      TallyNone(log, f, m - 1);
    }
  }

  lemma {:induction false} TallySplits(log: seq<Event>, f: Choice, g: Choice, both: Choice, m: nat)
    requires m <= |log| && forall k :: 0 <= k < m ==> both(k) == (f(k) || g(k)) && !(f(k) && g(k))
    ensures Tally(log, both, m) == Tally(log, f, m) + Tally(log, g, m)
  {
    if m > 0 {
      TallySplits(log, f, g, both, m - 1);
    }
  }

  /** With positive counts, choosing fewer events counts less. */
  lemma {:induction false} TallyShrinks(log: seq<Event>, f: Choice, g: Choice, m: nat)
    requires m <= |log| && forall k :: 0 <= k < m ==> log[k].count > 0 && (f(k) ==> g(k))
    ensures Tally(log, f, m) <= Tally(log, g, m)
    ensures Tally(log, f, m) == Tally(log, g, m) <==> forall k :: 0 <= k < m ==> f(k) == g(k)
  {
    if m > 0 {
      TallyShrinks(log, f, g, m - 1);
    }
  }

  // ---------------------------------------------------------------- what the ring holds

  ghost function SlotLive(log: seq<Event>, n: int, s: int): int
    requires n > 0
  {
    Tally(log, k => InSlot(log, n, s, k) && !Overwritten(log, n, k), |log|)
  }

  /** Each slot is stamped with the bucket of every event in it that is not overwritten, and holds their counts. */
  ghost predicate Keeps(log: seq<Event>, stamps: seq<Option<int>>, counts: seq<int>) {
    && |stamps| == |counts| > 0
    && (forall s :: 0 <= s < |stamps| ==> SlotKept(log, |stamps|, s, stamps[s], counts[s]))
  }

  ghost predicate SlotKept(log: seq<Event>, n: int, s: int, stamp: Option<int>, count: int)
    requires n > 0
  {
    && (stamp.Some? ==> Slot(stamp.value, n) == s && count == SlotLive(log, n, s))
    && (forall k :: InSlot(log, n, s, k) ==> stamp.Some? && (Overwritten(log, n, k) || log[k].index == stamp.value))
  }

  /** One more event overwrites exactly the events of other buckets in its slot. */
  lemma OneMore(log: seq<Event>, n: int, e: Event, k: int)
    requires n > 0 && 0 <= k < |log|
    ensures Overwritten(log + [e], n, k) <==>
              Overwritten(log, n, k) || (Slot(e.index, n) == Slot(log[k].index, n) && e.index != log[k].index)
  {
    hide Slot;
    var longer := log + [e];
    if Overwritten(longer, n, k) {
      var j :| k < j < |longer| && Slot(longer[j].index, n) == Slot(longer[k].index, n)
               && longer[j].index != longer[k].index;
      if j < |log| {
        assert log[j] == longer[j];
      }
    }
    if Overwritten(log, n, k) {
      var j :| k < j < |log| && Slot(log[j].index, n) == Slot(log[k].index, n) && log[j].index != log[k].index;
      assert longer[j] == log[j];
    }
    assert longer[|log|] == e;
  }

  /** A slot another event goes to is left as it was. */
  lemma OtherSlot(log: seq<Event>, n: int, s: int, stamp: Option<int>, count: int, e: Event)
    requires n > 0 && SlotKept(log, n, s, stamp, count) && Slot(e.index, n) != s
    ensures SlotKept(log + [e], n, s, stamp, count)
  {
    hide Slot, Overwritten;
    var longer := log + [e];
    forall k | 0 <= k < |log|
      ensures InSlot(longer, n, s, k) == InSlot(log, n, s, k)
      ensures InSlot(log, n, s, k) ==> Overwritten(longer, n, k) == Overwritten(log, n, k)
    {
      OneMore(log, n, e, k);
    }
    var f: Choice := k => InSlot(log, n, s, k) && !Overwritten(log, n, k);
    var g: Choice := k => InSlot(longer, n, s, k) && !Overwritten(longer, n, k);
    TallySame(log, longer, f, g, |log|);
    assert !g(|log|);
    assert SlotLive(longer, n, s) == Tally(longer, g, |log|);
  }

  /** Its own slot goes on counting, or starts again for the new bucket. */
  lemma OwnSlot(log: seq<Event>, n: int, stamp: Option<int>, count: int, e: Event)
    requires n > 0 && SlotKept(log, n, Slot(e.index, n), stamp, count)
    ensures SlotKept(log + [e], n, Slot(e.index, n), Some(e.index),
                     (if stamp == Some(e.index) then count else 0) + e.count)
  {
    hide Slot, Overwritten;
    var s, longer := Slot(e.index, n), log + [e];
    forall k | 0 <= k < |log|
      ensures InSlot(longer, n, s, k) == InSlot(log, n, s, k)
      ensures InSlot(log, n, s, k) ==> Overwritten(longer, n, k) == (Overwritten(log, n, k) || stamp != Some(e.index))
    {
      OneMore(log, n, e, k);
    }
    var f: Choice := k => InSlot(log, n, s, k) && !Overwritten(log, n, k);
    var g: Choice := k => InSlot(longer, n, s, k) && !Overwritten(longer, n, k);
    if stamp == Some(e.index) {
      TallySame(log, longer, f, g, |log|);
    } else {
      TallyNone(longer, g, |log|);
    }
    LastIsLive(longer, n);
    assert g(|log|);
    assert SlotLive(longer, n, s) == Tally(longer, g, |log|) + e.count;
  }

  lemma LastIsLive(log: seq<Event>, n: int)
    requires n > 0 && log != []
    ensures !Overwritten(log, n, |log| - 1)
  {
  }

  datatype Ring = Ring(stamps: seq<Option<int>>, counts: seq<int>)

  /** The slots after recording one event. */
  function Recorded(ring: Ring, e: Event): Ring
    requires |ring.stamps| == |ring.counts| > 0
  {
    var s := Slot(e.index, |ring.stamps|);
    var base := if ring.stamps[s] == Some(e.index) then ring.counts[s] else 0;
    Ring(ring.stamps[s := Some(e.index)], ring.counts[s := base + e.count])
  }

  lemma RecordKeeps(log: seq<Event>, ring: Ring, e: Event)
    requires Keeps(log, ring.stamps, ring.counts)
    ensures Keeps(log + [e], Recorded(ring, e).stamps, Recorded(ring, e).counts)
  {
    hide Slot, SlotKept;
    var n, own := |ring.stamps|, Slot(e.index, |ring.stamps|);
    OwnSlot(log, n, ring.stamps[own], ring.counts[own], e);
    forall s | 0 <= s < n && s != own
      ensures SlotKept(log + [e], n, s, ring.stamps[s], ring.counts[s])
    {
      OtherSlot(log, n, s, ring.stamps[s], ring.counts[s], e);
    }
  }

  // ---------------------------------------------------------------- adding up the slots

  /** What the slots below `m` contribute to the buckets from `low` to `high`. */
  function SlotSum(stamps: seq<Option<int>>, counts: seq<int>, low: int, high: int, m: nat): int
    requires |stamps| == |counts| && m <= |stamps|
  {
    if m == 0 then 0
    else
      SlotSum(stamps, counts, low, high, m - 1)
      + (if stamps[m - 1].Some? && low <= stamps[m - 1].value <= high then counts[m - 1] else 0)
  }

  /** The live events of the window in slots below `m`. */
  ghost predicate LiveBelow(log: seq<Event>, n: int, low: int, high: int, m: int, k: int)
    requires n > 0
  {
    InWindow(log, low, high, k) && !Overwritten(log, n, k) && Slot(log[k].index, n) < m
  }

  /** One slot's share of the window: all that is live in it, if its stamp lies in the window. */
  lemma OneSlot(log: seq<Event>, n: int, low: int, high: int, m: nat, stamp: Option<int>, count: int)
    requires n > 0 && SlotKept(log, n, m, stamp, count)
    ensures Tally(log, k => LiveBelow(log, n, low, high, m + 1, k), |log|)
         == Tally(log, k => LiveBelow(log, n, low, high, m, k), |log|)
            + (if stamp.Some? && low <= stamp.value <= high then count else 0)
  {
    hide Slot, Overwritten;
    var f: Choice, both: Choice := k => LiveBelow(log, n, low, high, m, k), k => LiveBelow(log, n, low, high, m + 1, k);
    var share: Choice := k => LiveBelow(log, n, low, high, m + 1, k) && InSlot(log, n, m, k);
    TallySplits(log, f, share, both, |log|);
    if stamp.Some? && low <= stamp.value <= high {
      var live: Choice := k => InSlot(log, n, m, k) && !Overwritten(log, n, k);
      TallySame(log, log, share, live, |log|);
      assert SlotLive(log, n, m) == Tally(log, live, |log|);
    } else {
      TallyNone(log, share, |log|);
    }
  }

  lemma {:induction false} SlotsAddUp(log: seq<Event>, stamps: seq<Option<int>>, counts: seq<int>, low: int, high: int,
                                      m: nat)
    requires Keeps(log, stamps, counts) && m <= |stamps|
    ensures SlotSum(stamps, counts, low, high, m) == Tally(log, k => LiveBelow(log, |stamps|, low, high, m, k), |log|)
  {
    hide SlotKept;
    if m == 0 {
      TallyNone(log, k => LiveBelow(log, |stamps|, low, high, 0, k), |log|);
    } else {
      SlotsAddUp(log, stamps, counts, low, high, m - 1);
      OneSlot(log, |stamps|, low, high, m - 1, stamps[m - 1], counts[m - 1]);
    }
  }

  /** The stamped slots of the window add up to what was recorded in it and not overwritten. */
  lemma WindowIsLive(log: seq<Event>, stamps: seq<Option<int>>, counts: seq<int>, low: int, high: int)
    requires Keeps(log, stamps, counts)
    ensures SlotSum(stamps, counts, low, high, |stamps|) == Live(log, |stamps|, low, high)
  {
    var n := |stamps|;
    SlotsAddUp(log, stamps, counts, low, high, n);
    var f: Choice := k => LiveBelow(log, n, low, high, n, k);
    var g: Choice := k => InWindow(log, low, high, k) && !Overwritten(log, n, k);
    TallySame(log, log, f, g, |log|);
  }

  // ---------------------------------------------------------------- when that is everything

  ghost predicate Counting(log: seq<Event>) {
    forall k :: 0 <= k < |log| ==> log[k].count > 0
  }

  /** The ring has the true count of a window exactly when no event of the window has been overwritten. */
  lemma TrueCountIff(log: seq<Event>, n: int, low: int, high: int)
    requires n > 0 && Counting(log)
    ensures Live(log, n, low, high) == Within(log, low, high) <==>
              forall k :: InWindow(log, low, high, k) ==> !Overwritten(log, n, k)
  {
    hide Overwritten;
    var f: Choice := k => InWindow(log, low, high, k) && !Overwritten(log, n, k);
    var g: Choice := k => InWindow(log, low, high, k);
    TallyShrinks(log, f, g, |log|);
  }

  /** No event comes after one of a later bucket in the same slot. Times that never go back meet this. */
  ghost predicate OrderedInSlots(log: seq<Event>, n: int)
    requires n > 0
  {
    forall i, j :: 0 <= i < j < |log| && Slot(log[i].index, n) == Slot(log[j].index, n) ==> log[i].index <= log[j].index
  }

  /** Then the window of a moment no event lies beyond loses nothing, whatever the counts. */
  lemma OrderedSlotsLoseNothing(log: seq<Event>, n: int, newest: int)
    requires n > 0 && OrderedInSlots(log, n) && forall k :: 0 <= k < |log| ==> log[k].index <= newest
    ensures Live(log, n, newest - n + 1, newest) == Within(log, newest - n + 1, newest)
  {
    hide Slot;
    var low := newest - n + 1;
    forall k | InWindow(log, low, newest, k)
      ensures !Overwritten(log, n, k)
    {
      forall j | k < j < |log| && Slot(log[j].index, n) == Slot(log[k].index, n)
        ensures log[j].index == log[k].index
      {
        SameSlot(log[k].index, log[j].index, n);
      }
    }
    var f: Choice := k => InWindow(log, low, newest, k) && !Overwritten(log, n, k);
    var g: Choice := k => InWindow(log, low, newest, k);
    TallySame(log, log, f, g, |log|);
  }

  /** A count over `buckets` buckets of so many milliseconds, per second. */
  function PerThousand(total: int, bucketMs: real, buckets: nat): real
    requires bucketMs > 0.0 && buckets > 0
  {
    assert bucketMs * buckets as real > 0.0;
    (total * 1000) as real / (bucketMs * buckets as real)
  }

  /** That rate, kept up for the whole window's milliseconds, makes the count. */
  lemma RateMakesTheCount(total: int, bucketMs: real, buckets: nat)
    requires bucketMs > 0.0 && buckets > 0
    ensures PerThousand(total, bucketMs, buckets) * (bucketMs * buckets as real) == (total * 1000) as real
  {
    assert bucketMs * buckets as real > 0.0;
    DividedAndTimes((total * 1000) as real, bucketMs * buckets as real);
  }

  lemma RealProductGrows(a: real, b: real, c: real)
    requires a <= b && c > 0.0
    ensures a * c <= b * c
  {
  }

  lemma RealProductRises(a: real, b: real, c: real)
    requires a < b && c > 0.0
    ensures a * c < b * c
  {
  }

  lemma DividedAndTimes(a: real, b: real)
    requires b > 0.0
    ensures a / b * b == a
  {
  }

  class RateWindow {
    const bucketMs: real
    var counts: array<int>
    var stamps: array<Option<int>>

    /** Every event recorded. */
    ghost var log: seq<Event>

    ghost predicate Valid()
      reads this, counts, stamps
    {
      bucketMs > 0.0 && counts.Length == stamps.Length > 0 && Keeps(log, stamps[..], counts[..])
    }

    constructor (bucketMs: real, buckets: nat)
      requires bucketMs > 0.0 && buckets > 0
      ensures Valid() && this.bucketMs == bucketMs && stamps.Length == buckets && log == []
      ensures fresh(counts) && fresh(stamps)
    {
      this.bucketMs := bucketMs;
      counts := new int[buckets](_ => 0);
      stamps := new Option<int>[buckets](_ => None);
      log := [];
    }

    function IndexAt(at: real): int
      requires bucketMs > 0.0
    {
      (at / bucketMs).Floor
    }

    /** The bucket a moment falls in starts at or before it, and the next one after it. */
    lemma BucketHolds(at: real)
      requires bucketMs > 0.0
      ensures IndexAt(at) as real * bucketMs <= at < (IndexAt(at) + 1) as real * bucketMs
    {
      Quotient(at, at / bucketMs, IndexAt(at));
    }

    lemma Quotient(at: real, q: real, index: int)
      requires bucketMs > 0.0 && q == at / bucketMs && index as real <= q < index as real + 1.0
      ensures index as real * bucketMs <= at < (index + 1) as real * bucketMs
    {
      DividedAndTimes(at, bucketMs);
      RealProductGrows(index as real, q, bucketMs);
      RealProductRises(q, (index + 1) as real, bucketMs);
    }

    method Record(at: real, count: int)
      requires Valid()
      modifies this`log, counts, stamps
      ensures Valid() && log == old(log) + [Event(IndexAt(at), count)]
    {
      hide Keeps, Slot;
      var index := IndexAt(at);
      var slot := Slot(index, counts.Length);
      RecordKeeps(log, Ring(stamps[..], counts[..]), Event(index, count));
      if stamps[slot] != Some(index) {
        stamps[slot] := Some(index);
        counts[slot] := 0;
      }
      counts[slot] := counts[slot] + count;
      assert stamps[..] == old(stamps[..])[slot := Some(index)];
      assert counts[..] == old(counts[..])[slot := counts[slot]];
      log := log + [Event(index, count)];
    }

    /** What the last buckets hold that has not been overwritten, as a rate; everything recorded in them, if each slot's
        events came in order and none lies ahead. */
    method PerSecond(at: real) returns (rate: real)
      requires Valid()
      ensures var (low, high) := (IndexAt(at) - stamps.Length + 1, IndexAt(at));
              && rate == PerThousand(Live(log, stamps.Length, low, high), bucketMs, stamps.Length)
              && (OrderedInSlots(log, stamps.Length) && (forall k :: 0 <= k < |log| ==> log[k].index <= high) ==>
                    rate == PerThousand(Within(log, low, high), bucketMs, stamps.Length))
    {
      hide Keeps, Slot, Within, Live, OrderedInSlots, PerThousand;
      var newest := IndexAt(at);
      var oldest := newest - counts.Length + 1;
      var total, slot := 0, 0;
      while slot < counts.Length
        invariant 0 <= slot <= counts.Length
        invariant total == SlotSum(stamps[..], counts[..], oldest, newest, slot)
      {
        if stamps[slot].Some? && stamps[slot].value >= oldest && stamps[slot].value <= newest {
          total := total + counts[slot];
        }
        slot := slot + 1;
      }
      WindowIsLive(log, stamps[..], counts[..], oldest, newest);
      if OrderedInSlots(log, stamps.Length) && forall k :: 0 <= k < |log| ==> log[k].index <= newest {
        OrderedSlotsLoseNothing(log, stamps.Length, newest);
      }
      rate := PerThousand(total, bucketMs, counts.Length);
    }

    method Reset()
      requires Valid()
      modifies this`log, counts, stamps
      ensures Valid() && log == []
    {
      forall i | 0 <= i < counts.Length {
        counts[i] := 0;
      }
      forall i | 0 <= i < stamps.Length {
        stamps[i] := None;
      }
      log := [];
    }
  }

  /** Out of order it goes wrong, in every ring: recorded into a fresh one, an event a whole turn behind wipes out the
      latest bucket, and the window that holds an event counts nothing. */
  lemma LateEventLosesTheLatest(empty: Ring, index: int, count: int, late: int)
    requires Keeps([], empty.stamps, empty.counts) && count > 0
    ensures var n := |empty.stamps|;
            var ring := Recorded(Recorded(empty, Event(index, count)), Event(index - n, late));
            && SlotSum(ring.stamps, ring.counts, index - n + 1, index, n) == 0
            && Within([Event(index, count), Event(index - n, late)], index - n + 1, index) == count
  {
    hide Slot, SlotKept;
    var n := |empty.stamps|;
    var first, log := [Event(index, count)], [Event(index, count), Event(index - n, late)];
    var once := Recorded(empty, first[0]);
    assert [] + [first[0]] == first && first + [log[1]] == log;
    RecordKeeps([], empty, first[0]);
    RecordKeeps(first, once, log[1]);
    var ring := Recorded(once, log[1]);
    WindowIsLive(log, ring.stamps, ring.counts, index - n + 1, index);
    LateIsLost(index, count, late, n);
  }

  lemma LateIsLost(index: int, count: int, late: int, n: int)
    requires n > 0
    ensures var log := [Event(index, count), Event(index - n, late)];
            Live(log, n, index - n + 1, index) == 0 && Within(log, index - n + 1, index) == count
  {
    hide Slot;
    var log := [Event(index, count), Event(index - n, late)];
    SlotIsRemainder(index, n);
    SlotIsRemainder(index - n, n);
    NextRemainder(index - n, n);
    assert log[1].index != log[0].index && Slot(log[1].index, n) == Slot(log[0].index, n);
    var f: Choice := k => InWindow(log, index - n + 1, index, k) && !Overwritten(log, n, k);
    var g: Choice := k => InWindow(log, index - n + 1, index, k);
    assert !f(0) && !f(1) && g(0) && !g(1);
    assert Tally(log, f, 0) == 0 && Tally(log, f, 1) == 0 && Tally(log, f, 2) == 0;
    assert Tally(log, g, 0) == 0 && Tally(log, g, 1) == count && Tally(log, g, 2) == count;
  }
}
