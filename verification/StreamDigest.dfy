/** Hashing a store through one bounded window, however few bytes each read moves. */
module StreamDigests {
  import opened Bytes

  /** Something that reads back. Its `n`-th read moves at most `moves(n)` bytes. */
  class ByteSource {
    const contents: ByteString
    const moves: nat -> nat
    var calls: nat

    constructor (contents: ByteString, moves: nat -> nat)
      ensures this.contents == contents && this.moves == moves && calls == 0
    {
      this.contents := contents;
      this.moves := moves;
      calls := 0;
    }

    /** Copies into `into[start..start + want]` what the device gives of `contents` from `offset`. */
    method Read(offset: nat, into: array<Byte>, start: nat, want: nat) returns (read: nat)
      requires start + want <= into.Length
      modifies this`calls, into
      ensures calls == old(calls) + 1 && read <= want
      ensures read > 0 ==> offset + read <= |contents| && into[start..start + read] == contents[offset..offset + read]
      ensures read == 0 ==> want == 0 || offset >= |contents| || moves(old(calls)) == 0
      ensures moves(old(calls)) == 0 ==> read == 0
      ensures into[..start] == old(into[..start]) && into[start + read..] == old(into[start + read..])
    {
      var left := if offset < |contents| then |contents| - offset else 0;
      var most := if moves(calls) < left then moves(calls) else left;
      read := if most < want then most else want;
      forall i | start <= i < start + read {
        into[i] := contents[offset + i - start];
      }
      calls := calls + 1;
      assert forall i :: start <= i < start + read ==> into[i] == contents[offset + i - start];
    }
  }

  /** The hash is a function of the bytes absorbed, in order; how they were divided does not matter. */
  class Sha256Stream {
    var absorbed: ByteString

    constructor ()
      ensures absorbed == []
    {
      absorbed := [];
    }

    method Update(bytes: ByteString)
      modifies this
      ensures absorbed == old(absorbed) + bytes
    {
      absorbed := absorbed + bytes;
    }
  }

  /** What the caller said each time it was asked whether to stop. */
  type Polls = nat -> bool

  /** Some poll so far was answered yes. */
  ghost predicate Polled(cancelled: Polls, polls: nat) {
    exists n :: 0 <= n < polls && cancelled(n)
  }

  /** So many polls are what a pass over `size` bytes owes that yields after every `every` bytes and moves at most
      `step` bytes at a time. */
  ghost predicate PollsFit(polls: nat, size: nat, every: nat, step: nat) {
    polls * every <= size <= (polls + 1) * (every + step)
  }

  /** The same part way through: `done` bytes so far, `since` of them after the last poll. */
  ghost predicate Paced(polls: nat, done: nat, since: nat, every: nat, step: nat, last: bool) {
    && polls * every + since <= done <= polls * (every + step) + since
    && since <= every + (if last then step else 0)
  }

  lemma NothingPaced(every: nat, step: nat, last: bool)
    ensures Paced(0, 0, 0, every, step, last)
  {
  }

  lemma Further(polls: nat, done: nat, since: nat, every: nat, step: nat, moved: nat)
    requires Paced(polls, done, since, every, step, false) && moved <= step
    ensures Paced(polls, done + moved, since + moved, every, step, true)
    ensures since + moved < every ==> Paced(polls, done + moved, since + moved, every, step, false)
    ensures since + moved >= every ==> Paced(polls + 1, done + moved, 0, every, step, false)
  {
    Distributes(polls, every);
    Distributes(polls, every + step);
  }

  lemma Distributes(polls: nat, k: nat)
    ensures (polls + 1) * k == polls * k + k
  {
  }

  lemma PacedFits(polls: nat, done: nat, since: nat, every: nat, step: nat)
    requires Paced(polls, done, since, every, step, true)
    ensures PollsFit(polls, done, every, step)
  {
    Distributes(polls, every + step);
  }

  /** A caller that would have stopped the first time it was asked stops every pass that has to ask. */
  lemma FirstPollStops(polls: nat, size: nat, every: nat, step: nat, cancelled: Polls)
    requires PollsFit(polls, size, every, step) && !Polled(cancelled, polls) && cancelled(0)
    ensures size <= every + step
  {
    if polls > 0 {
      assert false;
    }
  }

  lemma NotYetPolled(cancelled: Polls)
    ensures !Polled(cancelled, 0)
  {
  }

  lemma PolledMore(cancelled: Polls, polls: nat)
    requires polls > 0 && !Polled(cancelled, polls - 1) && !cancelled(polls - 1)
    ensures !Polled(cancelled, polls)
  {
  }

  /** None when the store could not produce the bytes, or the caller cancelled. */
  method DigestSegmentStore(store: ByteSource, size: nat, chunkBytes: nat, yieldEveryBytes: nat, cancelled: Polls,
                            sha256: ByteString -> ByteString)
    returns (digest: Option<ByteString>, ghost polls: nat)
    modifies store`calls
    ensures digest.Some? ==> size <= |store.contents| && digest.value == sha256(store.contents[..size])
    ensures digest.Some? ==> forall c :: old(store.calls) <= c < store.calls ==> store.moves(c) > 0
    ensures digest.Some? ==> !Polled(cancelled, polls)
    ensures digest.None? ==>
              || chunkBytes == 0 || size > |store.contents|
              || (exists c :: old(store.calls) <= c < store.calls && store.moves(c) == 0)
              || Polled(cancelled, polls)
    // A finished pass asked often enough, no more often than it was told to, and was never told to stop.
    ensures digest.Some? ==> PollsFit(polls, size, yieldEveryBytes, chunkBytes)
    ensures cancelled(0) && size > yieldEveryBytes + chunkBytes ==> digest.None?
  {
    hide Paced, PollsFit;
    NothingPaced(yieldEveryBytes, chunkBytes, size == 0);
    var buffer := new Byte[chunkBytes];
    var hasher := new Sha256Stream();
    var offset, sinceYield, asked := 0, 0, 0;
    polls := 0;
    while offset < size
      invariant offset <= size && asked == polls
      invariant offset <= |store.contents| && hasher.absorbed == store.contents[..offset]
      invariant old(store.calls) <= store.calls
      invariant forall c :: old(store.calls) <= c < store.calls ==> store.moves(c) > 0
      invariant !Polled(cancelled, polls)
      invariant Paced(polls, offset, sinceYield, yieldEveryBytes, chunkBytes, offset == size)
      decreases size - offset
    {
      var want := if chunkBytes < size - offset then chunkBytes else size - offset;
      var read := store.Read(offset, buffer, 0, want);
      if read == 0 {
        return None, polls;
      }
      assert buffer[..read] == buffer[0..0 + read];
      assert store.contents[..offset] + store.contents[offset..offset + read] == store.contents[..offset + read];
      hasher.Update(buffer[..read]);
      Further(polls, offset, sinceYield, yieldEveryBytes, chunkBytes, read);
      offset := offset + read;
      sinceYield := sinceYield + read;
      if sinceYield >= yieldEveryBytes && offset < size {
        sinceYield := 0;
        polls := polls + 1;
        if cancelled(asked) {
          return None, polls;
        }
        asked := asked + 1;
      }
    }
    PacedFits(polls, offset, sinceYield, yieldEveryBytes, chunkBytes);
    if cancelled(0) {
      FirstPollStops(polls, size, yieldEveryBytes, chunkBytes, cancelled);
    }
    digest := Some(sha256(hasher.absorbed));
  }
}
