/** The bounded set of frames already looked at: a ring over the order of insertion, measured against a plain log. */
module FrameDedupe {
  import opened Residues

  /** The last `capacity` entries of a log, or all of it. */
  function Recent(log: seq<nat>, capacity: nat): seq<nat> {
    if |log| <= capacity then log else log[|log| - capacity..]
  }

  function Entries(s: seq<nat>): set<nat> {
    set x | x in s
  }

  ghost predicate NoRepeats(s: seq<nat>) {
    forall i, j :: 0 <= i < j < |s| ==> s[i] != s[j]
  }

  /** Where the ring puts the `n`-th entry of the log. */
  function Position(n: nat, capacity: nat): (at: nat)
    requires capacity > 0
    ensures at < capacity
  {
    n % capacity
  }

  ghost predicate Holds(ring: seq<nat>, log: seq<nat>) {
    |ring| > 0 && forall n: nat {:trigger log[n]} :: n < |log| && |log| - |ring| <= n ==>
      ring[Position(n, |ring|)] == log[n]
  }

  lemma NextPosition(n: nat, capacity: nat)
    requires capacity > 0
    ensures Position(n + 1, capacity) == (Position(n, capacity) + 1) % capacity
            && Position(n + capacity, capacity) == Position(n, capacity)
  {
    NextRemainder(n, capacity);
  }

  lemma SamePosition(a: nat, b: nat, capacity: nat)
    requires capacity > 0 && a <= b < a + capacity && Position(a, capacity) == Position(b, capacity)
    ensures a == b
  {
    SameRemainder(a, b, capacity);
  }

  /** Writing the next entry over the oldest keeps the ring in step with the log. */
  lemma RingAdvances(ring: seq<nat>, log: seq<nat>, x: nat)
    requires Holds(ring, log)
    ensures Holds(ring[Position(|log|, |ring|) := x], log + [x])
  {
    hide Position;
    var after, longer := ring[Position(|log|, |ring|) := x], log + [x];
    forall n: nat | n < |longer| && |longer| - |ring| <= n
      ensures after[Position(n, |ring|)] == longer[n]
    {
      if n < |log| && Position(n, |ring|) == Position(|log|, |ring|) {
        SamePosition(n, |log|, |ring|);
      }
    }
  }

  /** The entry about to be overwritten is the oldest recent one. */
  lemma OldestIsAtHead(ring: seq<nat>, log: seq<nat>)
    requires Holds(ring, log) && |log| >= |ring|
    ensures ring[Position(|log|, |ring|)] == Recent(log, |ring|)[0]
  {
    hide Position;
    NextPosition(|log| - |ring|, |ring|);
  }

  lemma RecentGrows(log: seq<nat>, x: nat, capacity: nat)
    requires capacity > 0 && NoRepeats(Recent(log, capacity)) && x !in Recent(log, capacity)
    ensures NoRepeats(Recent(log + [x], capacity))
    ensures |log| < capacity ==> Entries(Recent(log + [x], capacity)) == Entries(Recent(log, capacity)) + {x}
    ensures |log| >= capacity ==>
              Entries(Recent(log + [x], capacity)) == Entries(Recent(log, capacity)) - {Recent(log, capacity)[0]} + {x}
  {
    var before, after := Recent(log, capacity), Recent(log + [x], capacity);
    if |log| < capacity {
      assert after == before + [x];
    } else {
      assert after == before[1..] + [x];
      assert before == [before[0]] + before[1..];
    }
  }

  lemma RecentSizes(log: seq<nat>, x: nat, capacity: nat)
    requires capacity > 0
    ensures |Recent(log, capacity)| == if |log| < capacity then |log| else capacity
    ensures |Recent(log + [x], capacity)| == if |log| < capacity then |log| + 1 else capacity
    ensures x in Recent(log, capacity) <==> x in Entries(Recent(log, capacity))
  {
  }

  class BoundedFingerprintSet {
    const capacity: nat
    var present: set<nat>
    var ring: array<nat>
    var head: nat
    var count: nat

    /** Every fingerprint inserted since the set was made or cleared, oldest first. */
    ghost var log: seq<nat>

    ghost predicate Valid()
      reads this, ring
    {
      && ring.Length == capacity > 0
      && head == Position(|log|, capacity) && count == |Recent(log, capacity)|
      && Holds(ring[..], log)
      && NoRepeats(Recent(log, capacity)) && present == Entries(Recent(log, capacity))
    }

    constructor (capacity: nat)
      requires capacity > 0
      ensures Valid() && this.capacity == capacity && log == [] && fresh(ring)
    {
      this.capacity := capacity;
      present := {};
      ring := new nat[capacity](_ => 0);
      head, count, log := 0, 0, [];
    }

    /** Records a fingerprint and says whether it was already known. */
    method Observe(fingerprint: nat) returns (known: bool)
      requires Valid()
      modifies this`present, this`head, this`count, this`log, ring
      ensures Valid() && ring == old(ring)
      ensures known <==> fingerprint in Recent(old(log), capacity)
      ensures log == if known then old(log) else old(log) + [fingerprint]
    {
      hide Recent, NoRepeats, Entries, Holds, Position;
      RecentSizes(log, fingerprint, capacity);
      if fingerprint in present {
        return true;
      }
      RecentGrows(log, fingerprint, capacity);
      RingAdvances(ring[..], log, fingerprint);
      NextPosition(|log|, capacity);
      if count == capacity {
        OldestIsAtHead(ring[..], log);
        present := present - {ring[head]};
        count := count - 1;
      }
      ring[head] := fingerprint;
      head := (head + 1) % capacity;
      present := present + {fingerprint};
      count := count + 1;
      log := log + [fingerprint];
      return false;
    }

    predicate Has(fingerprint: nat)
      requires Valid()
      reads this, ring
      ensures Has(fingerprint) <==> fingerprint in Recent(log, capacity)
    {
      fingerprint in present
    }

    method Clear()
      requires Valid()
      modifies this`present, this`head, this`count, this`log, ring
      ensures Valid() && log == []
    {
      present := {};
      forall i | 0 <= i < ring.Length {
        ring[i] := 0;
      }
      head, count, log := 0, 0, [];
    }
  }
}
