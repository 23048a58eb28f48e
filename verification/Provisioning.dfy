/** Where every store ends up, over all interleavings of sessions, provisioning and verification. */
module Provisioning {
  import opened Bytes
  import opened ReceivePipelines

  /** One call to `verify`, from the moment it took hold of the store. Only a compressed transfer inflates. */
  datatype Verification = Verification(store: StoreId, inflating: bool)

  /**
   * `asked` lists the generations whose storage requests are unanswered, `owner` the generation each store handed
   * back was asked for, `calls` everything done to stores, `late` every store discarded when no longer attached, and
   * `retention` what an ending without a reason does.
   */
  datatype World = World(
    pipeline: Pipeline, asked: seq<nat>, owner: map<StoreId, nat>, calls: seq<StoreCall>,
    verifying: seq<Verification>, late: seq<StoreId>, retention: RetentionPolicy)

  datatype Event =
    | Manifest(acceptable: bool)
    | Answered(i: nat, answer: Option<StoreId>, adoptable: bool, allAdopted: bool)
    | Faults
    | Completes
    | Resets(reason: Option<EndReason>)
    | ReleasedAll(reason: Option<EndReason>)
    | Verifies(compressed: bool)
    | Hashes(i: nat)
    | Overtaken(i: nat)
    | ProvenWrong(i: nat)
    | Ends(i: nat)

  function Start(retention: RetentionPolicy): World {
    World(Idle(), [], map[], [], [], [], retention)
  }

  predicate Enabled(w: World, e: Event) {
    match e
    case Answered(i, answer, _, _) => i < |w.asked| && (answer.Some? ==> answer.value !in w.owner)
    case Completes => w.pipeline.hasSession
    case Verifies(_) => CanVerify(w.pipeline)
    case Hashes(i) => i < |w.verifying| && w.verifying[i].inflating
    case Overtaken(i) =>
      // The poll between windows: released, or the store is no longer the session's.
      i < |w.verifying| && w.verifying[i].inflating
      && (w.pipeline.released || w.pipeline.store != Some(w.verifying[i].store))
    case ProvenWrong(i) => i < |w.verifying|
    case Ends(i) => i < |w.verifying|
    case _ => true
  }

  function Without<T>(s: seq<T>, i: nat): seq<T>
    requires i < |s|
  {
    s[..i] + s[i + 1..]
  }

  function Took(w: World, turn: Turn): World {
    w.(pipeline := turn.pipeline, calls := w.calls + turn.calls)
  }

  function DiscardBy(w: World, i: nat): World
    requires i < |w.verifying|
  {
    var store := w.verifying[i].store;
    Took(w.(verifying := Without(w.verifying, i),
            late := if w.pipeline.store == Some(store) then w.late else w.late + [store]),
         DiscardStep(w.pipeline, store))
  }

  function Apply(w: World, e: Event): World
    requires Enabled(w, e)
  {
    match e
    case Manifest(acceptable) =>
      w.(pipeline := BeginStep(w.pipeline, acceptable),
         asked := if CanBegin(w.pipeline) && acceptable then w.asked + [w.pipeline.generation] else w.asked)
    case Answered(i, answer, adoptable, allAdopted) =>
      Took(w.(asked := Without(w.asked, i), owner := if answer.Some? then w.owner[answer.value := w.asked[i]]
              else w.owner),
           ProvisionedStep(w.pipeline, w.asked[i], answer, adoptable, allAdopted))
    case Faults => w.(pipeline := w.pipeline.(fault := true))
    case Completes => w.(pipeline := w.pipeline.(complete := true))
    case Resets(reason) => Took(w, ResetStep(w.pipeline, PolicyFor(w.retention, reason)))
    case ReleasedAll(reason) => Took(w, ReleaseStep(w.pipeline, PolicyFor(w.retention, reason)))
    case Verifies(compressed) => w.(verifying := w.verifying + [Verification(w.pipeline.store.value, compressed)])
    case Hashes(i) => w.(verifying := w.verifying[i := w.verifying[i].(inflating := false)])
    case Overtaken(i) => DiscardBy(w, i)
    case ProvenWrong(i) => DiscardBy(w, i)
    case Ends(i) => w.(verifying := Without(w.verifying, i))
  }

  // ---------------------------------------------------------------- counting what happened to a store

  function One(b: bool): nat {
    if b then 1 else 0
  }

  function Disposals(calls: seq<StoreCall>, store: StoreId): nat {
    if calls == [] then 0
    else
      var last := calls[|calls| - 1];
      Disposals(calls[..|calls| - 1], store) + One(last.Disposes? && last.store == store)
  }

  function Releasings(calls: seq<StoreCall>, store: StoreId): nat {
    if calls == [] then 0
    else
      var last := calls[|calls| - 1];
      Releasings(calls[..|calls| - 1], store) + One(last.Releases? && last.store == store)
  }

  function Lates(late: seq<StoreId>, store: StoreId): nat {
    if late == [] then 0 else Lates(late[..|late| - 1], store) + One(late[|late| - 1] == store)
  }

  /** The two calls that end a store's life here. */
  lemma TwoCalls(calls: seq<StoreCall>, ended: StoreId, policy: RetentionPolicy, store: StoreId)
    ensures Disposals(calls + [Releases(ended), Disposes(ended, policy)], store) == Disposals(calls, store)
              + One(ended == store)
    ensures Releasings(calls + [Releases(ended), Disposes(ended, policy)], store) == Releasings(calls, store)
              + One(ended == store)
  {
    var longer := calls + [Releases(ended), Disposes(ended, policy)];
    assert longer[..|calls| + 1] == calls + [Releases(ended)];
    assert (calls + [Releases(ended)])[..|calls|] == calls;
  }

  lemma OneLate(late: seq<StoreId>, ended: StoreId, store: StoreId)
    ensures Lates(late + [ended], store) == Lates(late, store) + One(ended == store)
  {
    assert (late + [ended])[..|late|] == late;
  }

  // ---------------------------------------------------------------- the invariant

  /** A store attached has been left alone; any other has been ended once, and once more for each late discard. */
  ghost predicate Accounted(w: World, store: StoreId) {
    var ended := if w.pipeline.store == Some(store) || store !in w.owner then 0 else 1;
    && Disposals(w.calls, store) == Releasings(w.calls, store) == ended + Lates(w.late, store)
    && (ended == 0 ==> Lates(w.late, store) == 0)
  }

  ghost predicate Inv(w: World) {
    var p := w.pipeline;
    && (forall i :: 0 <= i < |w.asked| ==> w.asked[i] <= p.generation)
    && (forall i :: 0 <= i < |w.asked| && w.asked[i] == p.generation ==> p.provisioning && p.hasManifest && !p.released)
    && (forall i, j :: 0 <= i < j < |w.asked| ==> w.asked[i] != p.generation || w.asked[j] != p.generation)
    && (p.provisioning ==> p.store.None? && !p.hasSession && p.generation in w.asked)
    && (p.store.Some? ==>
          (p.hasSession || p.fault) && p.store.value in w.owner && w.owner[p.store.value] == p.generation
          && !p.released)
    && (forall v :: v in w.verifying ==> v.store in w.owner)
    && (forall s: StoreId :: Accounted(w, s))
  }

  lemma EndKeepsAccounts(w: World, after: World, ended: StoreId, policy: RetentionPolicy, store: StoreId)
    requires Accounted(w, store)
    requires after.calls == w.calls + [Releases(ended), Disposes(ended, policy)]
    requires after.late == w.late || after.late == w.late + [ended]
    requires store != ended ==>
               (after.pipeline.store == Some(store) <==> w.pipeline.store == Some(store))
               && (store in after.owner <==> store in w.owner)
    requires store == ended ==> store in after.owner && after.pipeline.store != Some(store)
    requires store == ended ==> (after.late == w.late <==> w.pipeline.store == Some(store) || store !in w.owner)
    ensures Accounted(after, store)
  {
    hide Disposals, Releasings, Lates;
    TwoCalls(w.calls, ended, policy, store);
    OneLate(w.late, ended, store);
  }

  /** Nothing was done to any store, and at most a new one was attached. */
  lemma SameAccounts(w: World, after: World, store: StoreId)
    requires Accounted(w, store) && after.calls == w.calls && after.late == w.late
    requires store in w.owner ==>
               store in after.owner && (after.pipeline.store == Some(store) <==> w.pipeline.store == Some(store))
    requires store !in w.owner && store in after.owner ==> after.pipeline.store == Some(store)
    ensures Accounted(after, store)
  {
  }

  lemma AnsweredKeeps(w: World, i: nat, answer: Option<StoreId>, adoptable: bool, allAdopted: bool)
    requires Inv(w) && Enabled(w, Answered(i, answer, adoptable, allAdopted))
    ensures Inv(Apply(w, Answered(i, answer, adoptable, allAdopted)))
  {
    hide Accounted;
    var after := Apply(w, Answered(i, answer, adoptable, allAdopted));
    WithoutKeeps(w.asked, i);
    var stale := w.asked[i] != w.pipeline.generation || w.pipeline.released;
    forall store: StoreId
      ensures Accounted(after, store)
    {
      if stale && answer.Some? {
        EndKeepsAccounts(w, after, answer.value, Discard, store);
      } else {
        SameAccounts(w, after, store);
      }
    }
  }

  lemma WithoutKeeps<T>(s: seq<T>, i: nat)
    requires i < |s|
    ensures forall k :: 0 <= k < i ==> Without(s, i)[k] == s[k]
    ensures forall k :: i <= k < |s| - 1 ==> Without(s, i)[k] == s[k + 1]
    ensures forall x :: x in Without(s, i) ==> x in s
  {
  }

  lemma EndedKeeps(w: World, e: Event)
    requires Inv(w) && Enabled(w, e) && (e.Resets? || e.ReleasedAll?)
    ensures Inv(Apply(w, e))
  {
    hide Accounted;
    var after := Apply(w, e);
    forall store: StoreId
      ensures Accounted(after, store)
    {
      if w.pipeline.store.Some? {
        EndKeepsAccounts(w, after, w.pipeline.store.value, PolicyFor(w.retention, e.reason), store);
      } else {
        SameAccounts(w, after, store);
      }
    }
  }

  lemma DiscardKeeps(w: World, i: nat)
    requires Inv(w) && i < |w.verifying|
    ensures Inv(DiscardBy(w, i))
  {
    hide Accounted;
    WithoutKeeps(w.verifying, i);
    forall store: StoreId
      ensures Accounted(DiscardBy(w, i), store)
    {
      EndKeepsAccounts(w, DiscardBy(w, i), w.verifying[i].store, Discard, store);
    }
  }

  lemma QuietKeeps(w: World, e: Event)
    requires Inv(w) && Enabled(w, e)
    requires e.Manifest? || e.Faults? || e.Completes? || e.Verifies? || e.Hashes? || e.Ends?
    ensures Inv(Apply(w, e))
  {
    hide Accounted;
    var after := Apply(w, e);
    if e.Ends? {
      WithoutKeeps(w.verifying, e.i);
    }
    forall store: StoreId
      ensures Accounted(after, store)
    {
      SameAccounts(w, after, store);
    }
  }

  lemma InvIsInductive(w: World, e: Event)
    requires Inv(w) && Enabled(w, e)
    ensures Inv(Apply(w, e))
  {
    hide Inv;
    match e
    case Answered(i, answer, adoptable, allAdopted) => AnsweredKeeps(w, i, answer, adoptable, allAdopted);
    case Resets(_) => EndedKeeps(w, e);
    case ReleasedAll(_) => EndedKeeps(w, e);
    case Overtaken(i) => DiscardKeeps(w, i);
    case ProvenWrong(i) => DiscardKeeps(w, i);
    case _ => QuietKeeps(w, e);
  }

  ghost predicate IsRun(run: seq<World>, events: seq<Event>) {
    && |run| == |events| + 1 && run[0] == Start(run[0].retention)
    && forall i :: 0 <= i < |events| ==> Enabled(run[i], events[i]) && run[i + 1] == Apply(run[i], events[i])
  }

  lemma {:induction false} RunKeepsInv(run: seq<World>, events: seq<Event>, n: nat)
    requires IsRun(run, events) && n < |run|
    ensures Inv(run[n])
  {
    if n == 0 {
    } else {
      hide Inv, Apply;
      RunKeepsInv(run, events, n - 1);
      InvIsInductive(run[n - 1], events[n - 1]);
    }
  }

  // ---------------------------------------------------------------- what holds of every run

  /** Conservation: a store handed back is attached and untouched, or has been released and disposed exactly once
      and then once more for every verification that discarded it when it was no longer attached. */
  lemma EveryStoreIsAccountedFor(run: seq<World>, events: seq<Event>, n: nat, store: StoreId)
    requires IsRun(run, events) && n < |run| && store in run[n].owner
    ensures var w := run[n];
            && (w.pipeline.store == Some(store) ==>
                  Disposals(w.calls, store) == 0 && w.owner[store] == w.pipeline.generation)
            && (w.pipeline.store != Some(store) ==>
                  Disposals(w.calls, store) == Releasings(w.calls, store) == 1 + Lates(w.late, store))
  {
    RunKeepsInv(run, events, n);
    assert Accounted(run[n], store);
  }

  /** Handing a store over never displaces one that is attached, is never wasted for want of a manifest,
      and attaches it only to the session that asked. */
  lemma HandoverIsSafe(run: seq<World>, events: seq<Event>, n: nat)
    requires IsRun(run, events) && n < |events| && events[n].Answered? && events[n].answer.Some?
    ensures var (w, after, e) := (run[n], run[n + 1], events[n]);
            && (w.asked[e.i] == w.pipeline.generation ==>
                  !w.pipeline.released && w.pipeline.hasManifest && w.pipeline.store.None?
                  && after.pipeline.store == e.answer && !after.pipeline.provisioning && after.calls == w.calls
                  && (after.pipeline.hasSession <==> e.adoptable)
                  && (after.pipeline.fault <==> w.pipeline.fault || !e.adoptable)
                  && (after.pipeline.complete <==> w.pipeline.complete || (e.adoptable && e.allAdopted)))
            && (w.asked[e.i] != w.pipeline.generation ==>
                  after.pipeline == w.pipeline && after.calls == w.calls + Unwanted(e.answer.value))
  {
    RunKeepsInv(run, events, n);
    assert Enabled(run[n], events[n]);
  }

  /** A store is disposed of a second time exactly when a verification discards it after it was detached. */
  lemma SecondDisposalIff(run: seq<World>, events: seq<Event>, n: nat)
    requires IsRun(run, events) && n < |events| && (events[n].Overtaken? || events[n].ProvenWrong?)
    ensures var w := run[n]; var store := w.verifying[events[n].i].store;
            && store in w.owner
            && (Disposals(run[n + 1].calls, store) >= 2 <==> w.pipeline.store != Some(store))
            && (events[n].Overtaken? ==> w.pipeline.store != Some(store))
  {
    hide Disposals, Releasings, Lates;
    RunKeepsInv(run, events, n);
    assert Enabled(run[n], events[n]);
    var store := run[n].verifying[events[n].i].store;
    assert run[n].verifying[events[n].i] in run[n].verifying;
    assert Accounted(run[n], store);
    TwoCalls(run[n].calls, store, Discard, store);
  }

  /** A compressed transfer, received whole, verifying, and interrupted before decompression has polled again. */
  const INTERRUPTION: seq<Event> := [Manifest(true), Answered(0, Some(0), true, true), Verifies(true), 
                                     Resets(Some(EndReason.Interrupted)), Overtaken(0)]

  function Interrupted(n: nat): World {
    match n
    case 0 => Start(Discard)
    case 1 => World(Pipeline(0, true, false, true, false, false, false, None), [0], map[], [], [], [], Discard)
    case 2 => World(Pipeline(0, false, false, true, true, false, true, Some(0)), [], map[0 := 0], [], [], [], Discard)
    case 3 => World(Pipeline(0, false, false, true, true, false, true, Some(0)), [], map[0 := 0], [],
                    [Verification(0, true)], [], Discard)
    case 4 => World(Pipeline(1, false, false, false, false, false, false, None), [], map[0 := 0],
                    [Releases(0), Disposes(0, Retain)], [Verification(0, true)], [], Discard)
    case _ => World(Pipeline(1, false, false, false, false, false, false, None), [], map[0 := 0],
                    [Releases(0), Disposes(0, Retain), Releases(0), Disposes(0, Discard)], [], [0], Discard)
  }

  lemma InterruptedSteps(n: nat)
    requires n < |INTERRUPTION|
    ensures Enabled(Interrupted(n), INTERRUPTION[n]) && Apply(Interrupted(n), INTERRUPTION[n]) == Interrupted(n + 1)
  {
  }

  /** It happens: interrupting a transfer while it decompresses keeps its data, and then deletes it. */
  lemma RetainedThenDiscarded()
    ensures exists run: seq<World> :: IsRun(run, INTERRUPTION)
              && run[5].calls == [Releases(0), Disposes(0, Retain), Releases(0), Disposes(0, Discard)]
  {
    hide Interrupted, Apply, Enabled;
    var run := seq(6, n requires 0 <= n < 6 => Interrupted(n));
    forall n | 0 <= n < |INTERRUPTION|
      ensures Enabled(run[n], INTERRUPTION[n]) && run[n + 1] == Apply(run[n], INTERRUPTION[n])
    {
      InterruptedSteps(n);
    }
    InterruptedEnds();
    assert IsRun(run, INTERRUPTION);
  }

  lemma InterruptedEnds()
    ensures Interrupted(0) == Start(Discard)
    ensures Interrupted(5).calls == [Releases(0), Disposes(0, Retain), Releases(0), Disposes(0, Discard)]
  {
  }

  // ---------------------------------------------------------------- what is kept and what is deleted

  /** An ending that keeps the data: an interruption or a completion, or none given where keeping is the default. */
  predicate KeepsData(retention: RetentionPolicy, reason: Option<EndReason>) {
    reason == Some(EndReason.Interrupted) || reason == Some(Completed) || (reason.None? && retention.Retain?)
  }

  /** This event ends the store's life in the pipeline, under this policy. */
  predicate EndsLife(w: World, e: Event, store: StoreId, policy: RetentionPolicy)
    requires Enabled(w, e)
  {
    match e
    case Resets(reason) => w.pipeline.store == Some(store) && (policy.Retain? <==> KeepsData(w.retention, reason))
    case ReleasedAll(reason) => w.pipeline.store == Some(store) && (policy.Retain? <==> KeepsData(w.retention, reason))
    case Answered(i, answer, _, _) =>
      policy.Discard? && answer == Some(store) && (w.asked[i] != w.pipeline.generation || w.pipeline.released)
    case Overtaken(i) => policy.Discard? && w.verifying[i].store == store
    case ProvenWrong(i) => policy.Discard? && w.verifying[i].store == store
    case _ => false
  }

  lemma EndingDisposes(w: World, e: Event, store: StoreId, policy: RetentionPolicy)
    requires Enabled(w, e)
    ensures Disposes(store, policy) in Apply(w, e).calls <==>
              Disposes(store, policy) in w.calls || EndsLife(w, e, store, policy)
    ensures Apply(w, e).retention == w.retention
  {
  }

  /** Data is deleted exactly where it should be: over any run, a store has been disposed of under a policy exactly when
      some event ended it so. Only an interruption, a completion or a retaining default ever keeps it. */
  lemma {:induction false} DisposedIffEnded(run: seq<World>, events: seq<Event>, n: nat, store: StoreId,
                                            policy: RetentionPolicy)
    requires IsRun(run, events) && n < |run|
    ensures Disposes(store, policy) in run[n].calls <==>
              exists i :: 0 <= i < n && Enabled(run[i], events[i]) && EndsLife(run[i], events[i], store, policy)
    ensures run[n].retention == run[0].retention
  {
    hide Apply, EndsLife, Enabled;
    if n > 0 {
      DisposedIffEnded(run, events, n - 1, store, policy);
      assert Enabled(run[n - 1], events[n - 1]);
      EndingDisposes(run[n - 1], events[n - 1], store, policy);
    }
  }

  // ---------------------------------------------------------------- when it works at all

  /** A verification starts only on a transfer that is whole, sound and still in hand. */
  lemma OnlyWholeTransfersAreVerified(run: seq<World>, events: seq<Event>, n: nat)
    requires IsRun(run, events) && n < |events| && events[n].Verifies?
    ensures var p := run[n].pipeline;
            p.complete && p.hasManifest && p.hasSession && !p.fault && !p.released && p.store.Some?
    ensures run[n + 1].verifying == run[n].verifying + [Verification(run[n].pipeline.store.value, events[n].compressed)]
  {
    assert Enabled(run[n], events[n]);
  }

  /** Once released, and until a reset, a pipeline holds no store, asks for none and takes none. */
  lemma {:induction false} ReleasedIsFinal(run: seq<World>, events: seq<Event>, i: nat, n: nat)
    requires IsRun(run, events) && i < n <= |events| && events[i].ReleasedAll?
    requires forall k :: i < k < n ==> !events[k].Resets?
    ensures run[n].pipeline.released && run[n].pipeline.store.None? && |run[n].asked| <= |run[i + 1].asked|
  {
    assert Enabled(run[n - 1], events[n - 1]);
    if i + 1 < n {
      ReleasedIsFinal(run, events, i, n - 1);
    }
  }
}
