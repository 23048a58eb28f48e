/** The pipeline's one asynchronous seam: storage that is asked for now and handed over, or abandoned, later. */
module ReceivePipelines {
  import opened Bytes

  type StoreId = nat
  datatype RetentionPolicy = Retain | Discard
  datatype EndReason = Cancelled | Failed | Interrupted | Completed

  function RetentionFor(reason: EndReason): RetentionPolicy {
    if reason.Interrupted? || reason.Completed? then Retain else Discard
  }

  /** The policy an ending implies; one without a reason takes the pipeline's own. */
  function PolicyFor(retention: RetentionPolicy, reason: Option<EndReason>): RetentionPolicy {
    if reason.None? then retention else RetentionFor(reason.value)
  }

  /** What the pipeline does to a store it owns, or is handed and does not want. */
  datatype StoreCall = Releases(store: StoreId) | Disposes(store: StoreId, policy: RetentionPolicy)

  datatype Pipeline = Pipeline(
    generation: nat, provisioning: bool, released: bool, hasManifest: bool, hasSession: bool,
    fault: bool, complete: bool, store: Option<StoreId>)

  datatype Turn = Turn(pipeline: Pipeline, calls: seq<StoreCall>)

  function Idle(): Pipeline {
    Pipeline(0, false, false, false, false, false, false, None)
  }

  /** A manifest frame starts a session only here. */
  predicate CanBegin(p: Pipeline) {
    !p.released && !p.complete && !p.hasSession && !p.fault && !p.provisioning
  }

  function BeginStep(p: Pipeline, acceptable: bool): Pipeline {
    if !CanBegin(p) then p
    else if !acceptable then p.(fault := true)
    else p.(provisioning := true, hasManifest := true)
  }

  function Unwanted(store: StoreId): seq<StoreCall> {
    [Releases(store), Disposes(store, Discard)]
  }

  /** Storage has answered the request made in `generation`: with a store, or with a refusal. */
  function ProvisionedStep(p: Pipeline, generation: nat, answer: Option<StoreId>, adoptable: bool,
                           allAdopted: bool): Turn {
    if generation != p.generation || p.released then Turn(p, if answer.Some? then Unwanted(answer.value) else [])
    else
      var ready := p.(provisioning := false);
      if !p.hasManifest then Turn(ready, [])
      else if answer.None? then Turn(ready.(fault := true), [])
      else if !adoptable then Turn(ready.(store := answer, fault := true), [])
      else Turn(ready.(store := answer, hasSession := true, complete := p.complete || allAdopted), [])
  }

  function ResetStep(p: Pipeline, policy: RetentionPolicy): Turn {
    Turn(Pipeline(p.generation + 1, false, false, false, false, false, false, None),
         if p.store.Some? then [Releases(p.store.value), Disposes(p.store.value, policy)] else [])
  }

  function ReleaseStep(p: Pipeline, policy: RetentionPolicy): Turn {
    var turn := ResetStep(p, policy);
    turn.(pipeline := turn.pipeline.(released := true))
  }

  /** Working data that failed verification goes at once, whatever the retention policy. */
  function DiscardStep(p: Pipeline, store: StoreId): Turn {
    Turn(if p.store == Some(store) then p.(store := None) else p, Unwanted(store))
  }

  predicate CanVerify(p: Pipeline) {
    !p.released && !p.fault && p.complete && p.hasManifest && p.hasSession && p.store.Some?
  }

  class ReceivePipeline {
    const retention: RetentionPolicy
    var provisionGeneration: nat
    var provisioning: bool
    var released: bool
    var v2Manifest: bool
    var v2: bool
    var sessionFault: bool
    var complete: bool
    var store: Option<StoreId>

    ghost function View(): Pipeline
      reads this
    {
      Pipeline(provisionGeneration, provisioning, released, v2Manifest, v2, sessionFault, complete, store)
    }

    constructor (retention: RetentionPolicy)
      ensures View() == Idle() && this.retention == retention
    {
      this.retention := retention;
      provisionGeneration, provisioning, released, v2Manifest, v2 := 0, false, false, false, false;
      sessionFault, complete, store := false, false, None;
    }

    /** A manifest frame in `submit`. The generation storage was asked for, if it was. */
    method SubmitManifest(acceptable: bool) returns (asked: Option<nat>)
      modifies this
      ensures View() == BeginStep(old(View()), acceptable)
      ensures asked == if CanBegin(old(View())) && acceptable then Some(provisionGeneration) else None
      ensures asked.Some? ==> provisioning && v2Manifest && !old(provisioning) && store == old(store)
      ensures sessionFault <==> old(sessionFault) || (CanBegin(old(View())) && !acceptable)
    {
      if released || complete || v2 || sessionFault || provisioning {
        return None;
      }
      if !acceptable {
        sessionFault := true;
        return None;
      }
      v2Manifest := true;
      provisioning := true;
      return Some(provisionGeneration);
    }

    method OnProvisioned(generation: nat, answer: Option<StoreId>, adoptable: bool, allAdopted: bool)
      returns (calls: seq<StoreCall>)
      modifies this
      ensures Turn(View(), calls) == ProvisionedStep(old(View()), generation, answer, adoptable, allAdopted)
    {
      if generation != provisionGeneration || released {
        return if answer.Some? then [Releases(answer.value), Disposes(answer.value, Discard)] else [];
      }
      provisioning := false;
      if !v2Manifest {
        return [];
      }
      if answer.None? {
        sessionFault := true;
        return [];
      }
      store := answer;
      if !adoptable {
        sessionFault := true;
        return [];
      }
      v2 := true;
      if allAdopted {
        complete := true;
      }
      return [];
    }

    method Reset(reason: Option<EndReason>) returns (calls: seq<StoreCall>)
      modifies this
      ensures Turn(View(), calls) == ResetStep(old(View()), PolicyFor(retention, reason))
    {
      provisionGeneration := provisionGeneration + 1;
      provisioning, v2, v2Manifest := false, false, false;
      var outgoing := store;
      store := None;
      calls := [];
      if outgoing.Some? {
        var policy := if reason.None? then retention else RetentionFor(reason.value);
        calls := [Releases(outgoing.value), Disposes(outgoing.value, policy)];
      }
      sessionFault, complete, released := false, false, false;
    }

    method Release(reason: Option<EndReason>) returns (calls: seq<StoreCall>)
      modifies this
      ensures Turn(View(), calls) == ReleaseStep(old(View()), PolicyFor(retention, reason))
    {
      calls := Reset(reason);
      released := true;
    }

    method DiscardWorkingData(store: StoreId) returns (calls: seq<StoreCall>)
      modifies this
      ensures Turn(View(), calls) == DiscardStep(old(View()), store)
    {
      if this.store == Some(store) {
        this.store := None;
      }
      return [Releases(store), Disposes(store, Discard)];
    }
  }
}
