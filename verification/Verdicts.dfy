/**
 Why each answer is given, and that it arrives: over whole runs of client and worker, every event and every callback is
 traced to what happened in the worker, and what a session asks for is answered and delivered to it.
 */
module Verdicts {
  import opened Bytes
  import opened ClientWorker
  import opened ReceiverClients
  import opened ReceiveWorkers
  import opened WorkerProtocol

  // ---------------------------------------------------------------- every answer has its cause

  predicate ReportIsDue(w: Worker, now: Moment) {
    now.shape != w.reported || w.lastProgressAt.Never? || now.elapsed - w.lastProgressAt.time >= 120
  }

  predicate EndsFrame(s: System, a: Action, outcome: FrameOutcome)
    requires Enabled(s, a) && a.Handles? && s.toWorker[0].Frame?
  {
    match outcome
    case Stale => !Current(s.worker, s.toWorker[0].epoch) || a.now.wallClock - s.toWorker[0].capturedAt > 250
    case NoCode => a.decoding.NothingFound?
    case Decoded(accepted) =>
      a.decoding == ThrowsLate(accepted) || (a.decoding.Answered? && a.decoding.accepted == accepted)
  }

  /** This action may have posted this event in this state, and for this reason. */
  predicate Causes(s: System, a: Action, e: Event)
    requires Enabled(s, a)
  {
    match e
    case Ready(acceptsBitmap) => a == Boots(acceptsBitmap)
    case FrameDone(epoch, frameId, outcome, staleDropped) =>
      && staleDropped == WorkerStep(s, a).worker.staleDropped
      && a.Handles? && s.toWorker[0].Frame? && s.toWorker[0].epoch == epoch && s.toWorker[0].frameId == frameId
      && EndsFrame(s, a, outcome)
    case Progress(epoch, pipeline, shape) =>
      // At once when a session opens, a transfer completes or a file is verified; otherwise when it is due.
      || (a.Decides? && a.ok && a.now.shape == shape)
      || (a.Handles? && s.toWorker[0].Open? && a.now.shape == shape)
      || (a.Handles? && s.toWorker[0].Frame? && a.decoding.Answered? && a.now.shape == shape
          && (a.decoding.completed || shape.complete || ReportIsDue(s.worker, a.now)))
    case VerifyProgress(epoch, pipeline) => a.Hashes? && s.worker.verifying[a.i] == Verification(epoch, pipeline)
    case Verified(epoch, pipeline) => a.Decides? && a.ok && s.worker.verifying[a.i] == Verification(epoch, pipeline)
    case Failed(epoch, pipeline) => a.Decides? && !a.ok && s.worker.verifying[a.i] == Verification(epoch, pipeline)
    case Fatal(epoch, _) =>
      && a.Handles? && s.toWorker[0].epoch == epoch
      && (a.throws || (s.toWorker[0].Frame? && (a.decoding.ThrowsEarly? || a.decoding.ThrowsLate?)))
  }

  lemma PostedIsCaused(s: System, a: Action, e: Event)
    requires Enabled(s, a) && e in WorkerStep(s, a).posted
    ensures Causes(s, a, e)
  {
  }

  ghost predicate CausedBefore(run: seq<System>, actions: seq<Action>, n: nat, e: Event)
    requires IsRun(run, actions) && n <= |actions|
  {
    exists i :: 0 <= i < n && Causes(run[i], actions[i], e)
  }

  /** Every event on its way to the client was caused. */
  lemma {:induction false} EventsAreCaused(run: seq<System>, actions: seq<Action>, n: nat, e: Event)
    requires IsRun(run, actions) && n < |run| && e in run[n].toClient
    ensures CausedBefore(run, actions, n, e)
  {
    if n == 0 {
      assert false;
    } else {
      hide Causes, WorkerStep, ClientTurn;
      var s, a := run[n - 1], actions[n - 1];
      assert Enabled(s, a);
      if e in s.toClient {
        EventsAreCaused(run, actions, n - 1, e);
        var i :| 0 <= i < n - 1 && Causes(run[i], actions[i], e);
      } else {
        PostedIsCaused(s, a, e);
      }
    }
  }

  /** What each callback goes back to. A file is reported verified only if a verification of that very pipeline, asked
      for in that very session, passed; reported failed only if one did not; and a transfer is reported complete only
      if its pipeline was complete when the worker last looked. */
  lemma CallbacksAreCaused(run: seq<System>, actions: seq<Action>, n: nat, call: Call)
    requires IsRun(run, actions) && n < |actions| && call in ClientTurn(run[n], actions[n]).calls
    ensures call.OnVerified? ==> exists i ::
              && 0 <= i < n && actions[i].Decides? && actions[i].ok
              && actions[i].i < |run[i].worker.verifying|
              && run[i].worker.verifying[actions[i].i] == Verification(run[n].client.epoch, call.pipeline)
    ensures call.OnFailed? ==> exists i ::
              && 0 <= i < n && actions[i].Decides? && !actions[i].ok
              && actions[i].i < |run[i].worker.verifying|
              && run[i].worker.verifying[actions[i].i] == Verification(run[n].client.epoch, call.pipeline)
    ensures call.OnComplete? ==> exists i ::
              0 <= i < n && (actions[i].Handles? || actions[i].Decides?) && actions[i].now.shape.complete
  {
    var s := run[n];
    assert Enabled(s, actions[n]);
    if call.OnVerified? || call.OnFailed? || call.OnComplete? {
      CalledFor(s, actions[n], call);
      EventsAreCaused(run, actions, n, s.toClient[0]);
      var i :| 0 <= i < n && Causes(run[i], actions[i], s.toClient[0]);
      assert Enabled(run[i], actions[i]);
    }
  }

  lemma CalledFor(s: System, a: Action, call: Call)
    requires Enabled(s, a) && call in ClientTurn(s, a).calls
    ensures call.OnVerified? ==> a.Receives? && s.toClient[0] == Verified(s.client.epoch, call.pipeline)
    ensures call.OnFailed? ==> a.Receives? && s.toClient[0] == Failed(s.client.epoch, call.pipeline)
    ensures call.OnComplete? ==>
              a.Receives? && s.toClient[0].Progress? && s.toClient[0].pipeline == call.pipeline
              && s.toClient[0].shape.complete
  {
  }

  /** This action posts this request: what was asked for, in the session it was asked in. */
  predicate Requests(s: System, a: Action, r: Request)
    requires Enabled(s, a)
  {
    match r
    case Open(epoch, resume) => a.Opens? && a.resume == resume && epoch == s.client.epoch + 1
    case Frame(epoch, frameId, capturedAt) =>
      && a.Submits? && a.frame == CapturedFrame(frameId, capturedAt, true)
      && CanAccept(s.client) && epoch == s.client.epoch
    case Verify(epoch) => a.AsksToVerify? && s.client.isOpen && epoch == s.client.epoch
    case Close(epoch) => a.Closes? && s.client.isOpen && epoch == s.client.epoch + 1
  }

  /** Only what was asked for is posted; and it is, unless the platform refuses it. */
  lemma PostedIsRequested(s: System, a: Action, r: Request)
    requires Enabled(s, a) && (s.client.isOpen ==> s.client.worker)
    ensures r in ClientTurn(s, a).sent ==> Requests(s, a, r)
    ensures Requests(s, a, r) && a.posts ==> ClientTurn(s, a).sent == [r]
  {
  }

  /** Every request on its way to the worker was asked for. */
  lemma {:induction false} RequestsAreAskedFor(run: seq<System>, actions: seq<Action>, n: nat, r: Request)
    requires IsRun(run, actions) && n < |run| && r in run[n].toWorker
    ensures exists i :: 0 <= i < n && Requests(run[i], actions[i], r)
  {
    if n == 0 {
      assert false;
    } else {
      hide Requests, WorkerStep, ClientTurn, SlotsHonest, Fenced;
      var s, a := run[n - 1], actions[n - 1];
      assert Enabled(s, a);
      if r in s.toWorker {
        RequestsAreAskedFor(run, actions, n - 1, r);
        var i :| 0 <= i < n - 1 && Requests(run[i], actions[i], r);
      } else {
        OpenHasWorker(run, actions, n - 1);
        PostedIsRequested(s, a, r);
      }
    }
  }

  lemma OpenHasWorker(run: seq<System>, actions: seq<Action>, n: nat)
    requires IsRun(run, actions) && n < |run|
    ensures run[n].client.isOpen ==> run[n].client.worker
  {
    RunIsHonest(run, actions, n);
  }

  /** This frame is of the worker's own session, and too old to decode. */
  predicate TooOld(s: System, a: Action)
    requires Enabled(s, a)
  {
    a.Handles? && s.toWorker[0].Frame? && Current(s.worker, s.toWorker[0].epoch)
    && a.now.wallClock - s.toWorker[0].capturedAt > 250
  }

  /** How many frames the worker has dropped as too old since its session opened. */
  ghost function DroppedSinceOpen(run: seq<System>, actions: seq<Action>, n: nat): nat
    requires IsRun(run, actions) && n < |run|
  {
    if n == 0 || !run[n].client.worker then 0
    else
      assert Enabled(run[n - 1], actions[n - 1]);
      var (s, a) := (run[n - 1], actions[n - 1]);
      if a.Handles? && s.toWorker[0].Open? && !a.throws then 0
      else DroppedSinceOpen(run, actions, n - 1) + One(TooOld(s, a))
  }

  /** The count every frame's event carries is just that. */
  lemma {:induction false} StaleDroppedCounts(run: seq<System>, actions: seq<Action>, n: nat)
    requires IsRun(run, actions) && n < |run|
    ensures run[n].worker.staleDropped == DroppedSinceOpen(run, actions, n)
  {
    hide ClientTurn, WorkerStep, TooOld;
    if n > 0 {
      StaleDroppedCounts(run, actions, n - 1);
      assert Enabled(run[n - 1], actions[n - 1]);
      StaleDroppedMoves(run[n - 1], actions[n - 1]);
    }
  }

  lemma StaleDroppedMoves(s: System, a: Action)
    requires Enabled(s, a)
    ensures var after := WorkerStep(s, a).worker.staleDropped;
            if a.Handles? && s.toWorker[0].Open? && !a.throws then after == 0
            else after == s.worker.staleDropped + One(TooOld(s, a))
  {
    hide Due;
  }

  // ---------------------------------------------------------------- the present session is served

  predicate SentInSession(requests: seq<Request>, epoch: Epoch) {
    forall i :: 0 <= i < |requests| ==> (requests[i].Frame? || requests[i].Verify?) && requests[i].epoch == epoch
  }

  /** The open request of the session is still on its way, and nothing but the session's own requests follow it. */
  predicate StillToOpen(requests: seq<Request>, epoch: Epoch, at: nat) {
    && at < |requests| && requests[at].Open? && requests[at].epoch == epoch && SentInSession(requests[at + 1..], epoch)
    && forall i :: 0 <= i < at ==> requests[i].epoch < epoch
  }

  predicate FailureComing(events: seq<Event>, epoch: Epoch) {
    exists e :: e in events && e.Fatal? && e.epoch == epoch
  }

  ghost predicate Opening(requests: seq<Request>, epoch: Epoch) {
    exists at :: StillToOpen(requests, epoch, at)
  }

  ghost predicate Served(s: System) {
    && (forall r :: r in s.toWorker ==> r.epoch <= s.client.epoch)
    && (s.client.isOpen ==>
          || Opening(s.toWorker, s.client.epoch)
          || (Current(s.worker, s.client.epoch) && SentInSession(s.toWorker, s.client.epoch))
          || FailureComing(s.toClient, s.client.epoch))
  }

  lemma OpensSession(requests: seq<Request>, epoch: Epoch, resume: bool)
    requires forall r :: r in requests ==> r.epoch < epoch
    ensures Opening(requests + [Open(epoch, resume)], epoch)
  {
    var longer := requests + [Open(epoch, resume)];
    assert longer[|requests| + 1..] == [];
    assert StillToOpen(longer, epoch, |requests|);
  }

  lemma OneMoreRequest(requests: seq<Request>, epoch: Epoch, r: Request)
    requires (r.Frame? || r.Verify?) && r.epoch == epoch
    ensures SentInSession(requests, epoch) ==> SentInSession(requests + [r], epoch)
    ensures Opening(requests, epoch) ==> Opening(requests + [r], epoch)
  {
    if Opening(requests, epoch) {
      var at: nat :| StillToOpen(requests, epoch, at);
      assert (requests + [r])[at + 1..] == requests[at + 1..] + [r];
      assert StillToOpen(requests + [r], epoch, at);
    }
  }

  lemma OneRequestLess(requests: seq<Request>, epoch: Epoch)
    requires requests != []
    ensures SentInSession(requests, epoch) ==> SentInSession(requests[1..], epoch)
    ensures Opening(requests, epoch) ==>
              || Opening(requests[1..], epoch)
              || (requests[0].Open? && requests[0].epoch == epoch && SentInSession(requests[1..], epoch))
  {
    if Opening(requests, epoch) {
      var at: nat :| StillToOpen(requests, epoch, at);
      if at > 0 {
        assert requests[1..][at..] == requests[at + 1..];
        assert StillToOpen(requests[1..], epoch, at - 1);
      }
    }
  }

  lemma HandlingServes(s: System, a: Action)
    requires Served(s) && Enabled(s, a) && a.Handles?
    ensures Served(Apply(s, a))
  {
    hide SentInSession, Opening, Due;
    var step, epoch := WorkerStep(s, a), s.client.epoch;
    OneRequestLess(s.toWorker, epoch);
    assert s.toWorker[1..] + [] == s.toWorker[1..];
    if FailureComing(s.toClient, epoch) {
      var e :| e in s.toClient && e.Fatal? && e.epoch == epoch;
      assert e in s.toClient + step.posted;
    }
    if s.toWorker[0].Open? && s.toWorker[0].epoch == epoch && a.throws {
      assert step.posted == [Fatal(epoch, false)];
      assert step.posted[0] in s.toClient + step.posted;
    }
    if SentInSession(s.toWorker, epoch) {
      FirstIsOwn(s.toWorker, epoch);
    }
  }

  lemma FirstIsOwn(requests: seq<Request>, epoch: Epoch)
    requires SentInSession(requests, epoch) && requests != []
    ensures (requests[0].Frame? || requests[0].Verify?) && requests[0].epoch == epoch
  {
  }

  lemma ReceivingServes(s: System)
    requires Served(s) && SlotsHonest(s) && Enabled(s, Receives)
    ensures Served(Apply(s, Receives))
  {
    hide SentInSession, Opening, Unanswered;
    var epoch := s.client.epoch;
    assert s.toWorker + [] == s.toWorker && s.toClient[1..] + [] == s.toClient[1..];
    if FailureComing(s.toClient, epoch) {
      var e :| e in s.toClient && e.Fatal? && e.epoch == epoch;
      assert s.toClient[0] == e || e in s.toClient[1..];
    }
  }

  lemma OnlyRequestsMoveSessions(s: System, a: Action)
    requires Enabled(s, a) && !a.Handles?
    ensures WorkerStep(s, a).worker.epoch == s.worker.epoch && WorkerStep(s, a).worker.isOpen == s.worker.isOpen
  {
  }

  lemma OthersServe(s: System, a: Action)
    requires Served(s) && SlotsHonest(s) && Enabled(s, a) && !a.Handles? && !a.Receives?
    ensures Served(Apply(s, a))
  {
    hide SentInSession, Opening, SlotsHonest, WorkerStep, ClientTurn;
    var turn, step, epoch := ClientTurn(s, a), WorkerStep(s, a), s.client.epoch;
    OnlyRequestsMoveSessions(s, a);
    WhatIsSent(s, a);
    assert s.toWorker + [] == s.toWorker;
    if FailureComing(s.toClient, epoch) {
      var e :| e in s.toClient && e.Fatal? && e.epoch == epoch;
      assert e in s.toClient + step.posted;
    }
    if a.Opens? && turn.client.isOpen {
      OpensSession(s.toWorker, epoch + 1, a.resume);
    } else if turn.client.isOpen && turn.sent != [] {
      assert turn.sent == [turn.sent[0]];
      OneMoreRequest(s.toWorker, epoch, turn.sent[0]);
    }
  }

  /** What the client may post in a session: its open request, or requests of the session it stays in. */
  lemma WhatIsSent(s: System, a: Action)
    requires SlotsHonest(s) && Enabled(s, a) && !a.Handles? && !a.Receives?
    ensures var (turn, epoch) := (ClientTurn(s, a), s.client.epoch);
            && turn.client.epoch >= epoch
            && (turn.client.isOpen ==> turn.client.worker)
            && (forall r :: r in turn.sent ==> r.epoch == turn.client.epoch)
            && (turn.client.isOpen && a.Opens? ==>
                  turn.client.epoch == epoch + 1 && turn.sent == [Open(epoch + 1, a.resume)])
            && (turn.client.isOpen && !a.Opens? ==>
                  && s.client.isOpen && turn.client.epoch == epoch
                  && |turn.sent| <= 1 && forall r :: r in turn.sent ==> r.Frame? || r.Verify?)
  {
    hide Unanswered;
  }

  lemma {:induction false} RunIsServed(run: seq<System>, actions: seq<Action>, n: nat)
    requires IsRun(run, actions) && n < |run|
    ensures Served(run[n])
  {
    if n > 0 {
      hide Served, SlotsHonest, Fenced, Apply, Enabled;
      RunIsServed(run, actions, n - 1);
      RunIsHonest(run, actions, n - 1);
      assert Enabled(run[n - 1], actions[n - 1]);
      if actions[n - 1].Handles? {
        HandlingServes(run[n - 1], actions[n - 1]);
      } else if actions[n - 1].Receives? {
        ReceivingServes(run[n - 1]);
      } else {
        OthersServe(run[n - 1], actions[n - 1]);
      }
    }
  }

  /** In every interleaving, when the worker gets to a frame or a verification asked for in the client's present
      session, it is in that session, unless a failure of that session is already on its way to end it. */
  lemma PresentSessionIsServed(run: seq<System>, actions: seq<Action>, n: nat)
    requires IsRun(run, actions) && n < |actions| && actions[n].Handles?
    ensures Enabled(run[n], actions[n])
    ensures var (s, r) := (run[n], run[n].toWorker[0]);
            s.client.isOpen && r.epoch == s.client.epoch && (r.Frame? || r.Verify?) ==>
              || FailureComing(s.toClient, s.client.epoch)
              || (Current(s.worker, s.client.epoch) && BuiltFor(s.builtFor, s.worker.pipeline, s.client.epoch))
  {
    hide SentInSession, FailureComing;
    RunIsServed(run, actions, n);
    RunIsHonest(run, actions, n);
    assert Enabled(run[n], actions[n]);
    var s := run[n];
    if Opening(s.toWorker, s.client.epoch) {
      var at: nat :| StillToOpen(s.toWorker, s.client.epoch, at);
    }
  }

  /** So a frame of the present session is answered with what decoding it came to, unless it is older than 250 ms; a
      frame that completes the transfer is reported at once; and a verification asked for is begun on the session's
      own pipeline. */
  lemma SessionIsAnswered(run: seq<System>, actions: seq<Action>, n: nat)
    requires IsRun(run, actions) && n < |actions| && actions[n].Handles?
    requires run[n].client.isOpen && !FailureComing(run[n].toClient, run[n].client.epoch)
    ensures Enabled(run[n], actions[n])
    ensures var (s, a, r) := (run[n], actions[n], run[n].toWorker[0]);
            var posted := WorkerStep(s, a).posted;
            && (r.Frame? && r.epoch == s.client.epoch && a.now.wallClock - r.capturedAt <= 250 ==>
                  && (a.decoding.NothingFound? ==>
                        posted == [FrameDone(r.epoch, r.frameId, NoCode, s.worker.staleDropped)])
                  && (a.decoding.Answered? ==>
                        && posted != []
                        && posted[0].FrameDone? && posted[0].frameId == r.frameId && posted[0].epoch == r.epoch
                        && posted[0].outcome == Decoded(a.decoding.accepted)
                        && posted[1..]
                        == if a.decoding.completed || a.now.shape.complete || ReportIsDue(s.worker, a.now) then
                             [Progress(r.epoch, s.worker.pipeline, a.now.shape)] else []))
            && (r.Verify? && r.epoch == s.client.epoch ==>
                  && BuiltFor(s.builtFor, s.worker.pipeline, r.epoch)
                  && WorkerStep(s, a).worker.verifying
                  == s.worker.verifying + [Verification(r.epoch, s.worker.pipeline)])
  {
    hide FailureComing;
    PresentSessionIsServed(run, actions, n);
  }

  // ---------------------------------------------------------------- answers arrive

  function Receipts(actions: seq<Action>, from: nat, to: nat): nat
    requires from <= to <= |actions|
  {
    if from == to then 0 else Receipts(actions, from, to - 1) + One(actions[to - 1].Receives?)
  }

  /** While the worker lives, events arrive in the order they were posted, none lost. */
  lemma {:induction false} FirstInFirstOut(run: seq<System>, actions: seq<Action>, from: nat, to: nat, at: nat)
    requires IsRun(run, actions) && from <= to <= |actions| && at < |run[from].toClient|
    requires forall k :: from <= k <= to ==> run[k].client.worker
    requires Receipts(actions, from, to) <= at
    ensures at - Receipts(actions, from, to) < |run[to].toClient|
    ensures run[to].toClient[at - Receipts(actions, from, to)] == run[from].toClient[at]
  {
    hide ClientTurn, WorkerStep, Apply;
    if from < to {
      FirstInFirstOut(run, actions, from, to - 1, at);
      assert Enabled(run[to - 1], actions[to - 1]);
      OneMovesUp(run[to - 1], actions[to - 1]);
    }
  }

  /** While the worker lives, channels are taken from at the front and added to at the back. */
  lemma OneMovesUp(s: System, a: Action)
    requires Enabled(s, a) && Apply(s, a).client.worker
    ensures (if a.Receives? then s.toClient[1..] else s.toClient) <= Apply(s, a).toClient
    ensures (if a.Handles? then s.toWorker[1..] else s.toWorker) <= Apply(s, a).toWorker
  {
    hide ClientTurn, WorkerStep;
  }

  /** A report on the transfer that arrives in the session it belongs to makes its callback, and no other. */
  lemma ReportIsCalled(run: seq<System>, actions: seq<Action>, from: nat, to: nat, at: nat)
    requires IsRun(run, actions) && from <= to < |actions| && at < |run[from].toClient| && actions[to].Receives?
    requires forall k :: from <= k <= to ==> run[k].client.worker
    requires Receipts(actions, from, to) == at
    ensures Enabled(run[to], actions[to])
    ensures var (e, calls) := (run[from].toClient[at], ClientTurn(run[to], actions[to]).calls);
            AboutTransfer(e) && e.epoch == run[to].client.epoch ==>
              match e
              case Progress(_, p, shape) =>
                calls == [OnProgress(p, shape)] + (if shape.complete then [OnComplete(p)] else [])
              case VerifyProgress(_, p) => calls == [OnVerifyProgress(p)]
              case Verified(_, p) => calls == [OnVerified(p)]
              case Failed(_, p) => calls == [OnFailed(p)]
              case _ => true
    ensures var (e, after) := (run[from].toClient[at], ClientTurn(run[to], actions[to]).client);
            && (e.Ready? ==> after == run[to].client.(acceptsBitmap := e.acceptsBitmap))
            && (e.Progress? && e.epoch == run[to].client.epoch ==> after == run[to].client.(progress := Some(e.shape)))
  {
    hide ClientTurn;
    FirstInFirstOut(run, actions, from, to, at);
    assert Enabled(run[to], actions[to]);
    HeadIsCalled(run[to]);
  }

  lemma HeadIsCalled(s: System)
    requires Enabled(s, Receives)
    ensures var (e, turn) := (s.toClient[0], ClientTurn(s, Receives));
            && (AboutTransfer(e) && e.epoch == s.client.epoch ==>
                  match e
                  case Progress(_, p, shape) =>
                    turn.calls == [OnProgress(p, shape)] + (if shape.complete then [OnComplete(p)] else [])
                  case VerifyProgress(_, p) => turn.calls == [OnVerifyProgress(p)]
                  case Verified(_, p) => turn.calls == [OnVerified(p)]
                  case Failed(_, p) => turn.calls == [OnFailed(p)]
                  case _ => true)
            && (e.Ready? ==> turn.client == s.client.(acceptsBitmap := e.acceptsBitmap))
            && (e.Progress? && e.epoch == s.client.epoch ==> turn.client == s.client.(progress := Some(e.shape)))
  {
  }

  /** A verdict reached in a session that is still the client's when it arrives is reported, and as what it was. */
  lemma VerdictIsDelivered(run: seq<System>, actions: seq<Action>, n: nat, to: nat)
    requires IsRun(run, actions) && n < to < |actions| && actions[n].Decides? && actions[to].Receives?
    requires forall k :: n <= k <= to ==> run[k].client.worker
    requires Receipts(actions, n + 1, to) == |run[n].toClient|
    ensures actions[n].i < |run[n].worker.verifying|
    ensures var v := run[n].worker.verifying[actions[n].i];
            Current(run[n].worker, v.epoch) && run[to].client.epoch == v.epoch ==>
              ClientTurn(run[to], actions[to]).calls
              == [if actions[n].ok then OnVerified(v.pipeline) else OnFailed(v.pipeline)]
  {
    assert Enabled(run[n], actions[n]) && Enabled(run[to], actions[to]);
    var v := run[n].worker.verifying[actions[n].i];
    if Current(run[n].worker, v.epoch) {
      VerdictIsPosted(run[n], actions[n]);
      ReportIsCalled(run, actions, n + 1, to, |run[n].toClient|);
    }
  }

  /** Each report is remembered with its time, so that the next can wait its turn. */
  lemma ReportsAreNoted(s: System, a: Action)
    requires Enabled(s, a)
    ensures var (step, w) := (WorkerStep(s, a), s.worker);
            if step.posted != [] && step.posted[|step.posted| - 1].Progress? then
              && (a.Handles? || a.Decides?) && step.posted[|step.posted| - 1].shape == a.now.shape
              && step.worker.lastProgressAt == At(a.now.elapsed) && step.worker.reported == a.now.shape
            else
              && step.worker.lastProgressAt == w.lastProgressAt && step.worker.reported == w.reported
              && forall e :: e in step.posted ==> !e.Progress?
  {
  }

  /** A hash reports how far it has got exactly while its session is the worker's own. */
  lemma HashingIsPosted(s: System, a: Action)
    requires Enabled(s, a) && a.Hashes?
    ensures var v := s.worker.verifying[a.i];
            WorkerStep(s, a).posted == if Current(s.worker, v.epoch) then [VerifyProgress(v.epoch, v.pipeline)] else []
  {
  }

  /** A verdict of the worker's own session is posted at once, and is the only one posted; of any other, none is. */
  lemma VerdictIsPosted(s: System, a: Action)
    requires Enabled(s, a) && a.Decides?
    ensures var (v, posted) := (s.worker.verifying[a.i], WorkerStep(s, a).posted);
            && (Current(s.worker, v.epoch) ==>
                  && posted != []
                  && posted[0] == (if a.ok then Verified(v.epoch, v.pipeline) else Failed(v.epoch, v.pipeline))
                  && forall e :: e in posted[1..] ==> !e.Verified? && !e.Failed?)
            && (!Current(s.worker, v.epoch) ==> posted == [])
  {
  }

  // ---------------------------------------------------------------- requests arrive

  function Handlings(actions: seq<Action>, from: nat, to: nat): nat
    requires from <= to <= |actions|
  {
    if from == to then 0 else Handlings(actions, from, to - 1) + One(actions[to - 1].Handles?)
  }

  /** While the worker lives, it is handed the requests in the order they were posted, none lost. */
  lemma {:induction false} RequestsInOrder(run: seq<System>, actions: seq<Action>, from: nat, to: nat, at: nat)
    requires IsRun(run, actions) && from <= to <= |actions| && at < |run[from].toWorker|
    requires forall k :: from <= k <= to ==> run[k].client.worker
    requires Handlings(actions, from, to) <= at
    ensures at - Handlings(actions, from, to) < |run[to].toWorker|
    ensures run[to].toWorker[at - Handlings(actions, from, to)] == run[from].toWorker[at]
  {
    hide ClientTurn, WorkerStep, Apply;
    if from < to {
      RequestsInOrder(run, actions, from, to - 1, at);
      assert Enabled(run[to - 1], actions[to - 1]);
      OneMovesUp(run[to - 1], actions[to - 1]);
    }
  }

  lemma VerifyIsQueued(s: System, a: Action)
    requires Enabled(s, a) && a == AsksToVerify(true) && s.client.isOpen && s.client.worker
    ensures Apply(s, a).toWorker == s.toWorker + [Verify(s.client.epoch)]
  {
  }

  /** A verification asked for in a session that is still the client's when the worker comes to it is begun, on the
      pipeline of that session. */
  lemma VerificationIsBegun(run: seq<System>, actions: seq<Action>, n: nat, to: nat)
    requires IsRun(run, actions) && n < to < |actions| && actions[n] == AsksToVerify(true) && run[n].client.isOpen
    requires forall k :: n <= k <= to ==> run[k].client.worker
    requires actions[to].Handles? && Handlings(actions, n + 1, to) == |run[n].toWorker|
    requires run[to].client.isOpen && run[to].client.epoch == run[n].client.epoch
    requires !FailureComing(run[to].toClient, run[to].client.epoch)
    ensures Enabled(run[to], actions[to])
    ensures var w := run[to].worker;
            && BuiltFor(run[to].builtFor, w.pipeline, run[n].client.epoch)
            && WorkerStep(run[to], actions[to]).worker.verifying
            == w.verifying + [Verification(run[n].client.epoch, w.pipeline)]
  {
    hide FailureComing, BuiltFor, ClientTurn, WorkerStep, Apply;
    assert Enabled(run[n], actions[n]) && Enabled(run[to], actions[to]);
    VerifyIsQueued(run[n], actions[n]);
    RequestsInOrder(run, actions, n + 1, to, |run[n].toWorker|);
    SessionIsAnswered(run, actions, to);
  }

  // ---------------------------------------------------------------- silence

  lemma {:induction false} StaysClosed(run: seq<System>, actions: seq<Action>, i: nat, n: nat)
    requires IsRun(run, actions) && i <= n <= |actions| && !run[i].client.isOpen
    requires forall k :: i <= k < n ==> !actions[k].Opens?
    ensures !run[n].client.isOpen
  {
    hide WorkerStep, ClientTurn;
    if i < n {
      StaysClosed(run, actions, i, n - 1);
      assert Enabled(run[n - 1], actions[n - 1]);
      OnlyOpensOpen(run[n - 1], actions[n - 1]);
    }
  }

  lemma OnlyOpensOpen(s: System, a: Action)
    requires Enabled(s, a) && !a.Opens?
    ensures ClientTurn(s, a).client.isOpen ==> s.client.isOpen
  {
  }

  /** From a close until the next open the client hears nothing of any transfer, whatever is still on its way. */
  lemma ClosedIsSilent(run: seq<System>, actions: seq<Action>, i: nat, n: nat, call: Call)
    requires IsRun(run, actions) && i < n < |actions| && actions[i].Closes?
    requires forall k :: i < k <= n ==> !actions[k].Opens?
    requires call in ClientTurn(run[n], actions[n]).calls
    ensures call.OnFatal?
  {
    hide WorkerStep;
    assert Enabled(run[i], actions[i]);
    assert !run[i + 1].client.isOpen;
    StaysClosed(run, actions, i + 1, n);
    if !call.OnFatal? {
      AnswersAreFenced(run, actions, n, call);
    }
  }

  lemma {:induction false} StaysDisposed(run: seq<System>, actions: seq<Action>, i: nat, n: nat)
    requires IsRun(run, actions) && i <= n <= |actions| && run[i].client.disposed && !run[i].client.worker
    ensures run[n].client.disposed && !run[n].client.worker
  {
    hide WorkerStep;
    if i < n {
      StaysDisposed(run, actions, i, n - 1);
      RunIsHonest(run, actions, n - 1);
      assert Enabled(run[n - 1], actions[n - 1]);
    }
  }

  /** A client disposed of makes no callback ever again, and has no worker. */
  lemma DisposedIsSilent(run: seq<System>, actions: seq<Action>, i: nat, n: nat)
    requires IsRun(run, actions) && i < n < |actions| && actions[i].Disposes?
    ensures Enabled(run[n], actions[n]) && !run[n].client.worker && ClientTurn(run[n], actions[n]).calls == []
  {
    hide WorkerStep;
    RunIsHonest(run, actions, i);
    assert Enabled(run[i], actions[i]);
    StaysDisposed(run, actions, i + 1, n);
    RunIsHonest(run, actions, n);
    assert Enabled(run[n], actions[n]);
  }

  lemma {:induction false} WorkerStaysClosed(run: seq<System>, actions: seq<Action>, i: nat, n: nat)
    requires IsRun(run, actions) && i <= n <= |actions| && !run[i].worker.isOpen
    requires forall k :: i <= k < n ==> !(actions[k].Handles? && run[k].toWorker != [] && run[k].toWorker[0].Open?)
    ensures !run[n].worker.isOpen
  {
    hide ClientTurn, Due;
    if i < n {
      WorkerStaysClosed(run, actions, i, n - 1);
      assert Enabled(run[n - 1], actions[n - 1]);
    }
  }

  /** A worker that has handled a close says nothing of any transfer until it opens again, even when a hash it was
      waiting for comes in. */
  lemma ClosedWorkerIsSilent(run: seq<System>, actions: seq<Action>, i: nat, n: nat, e: Event)
    requires IsRun(run, actions) && i < n < |actions| && run[i].client.worker
    requires actions[i].Handles? && run[i].toWorker != [] && run[i].toWorker[0].Close? && !actions[i].throws
    requires forall k :: i < k <= n ==> !(actions[k].Handles? && run[k].toWorker != [] && run[k].toWorker[0].Open?)
    ensures Enabled(run[n], actions[n])
    ensures e in WorkerStep(run[n], actions[n]).posted ==> !AboutTransfer(e)
  {
    hide Due;
    assert Enabled(run[i], actions[i]);
    assert !run[i + 1].worker.isOpen;
    WorkerStaysClosed(run, actions, i + 1, n);
    assert Enabled(run[n], actions[n]);
  }
}
