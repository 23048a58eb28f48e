/**
 Client and worker joined by two first-in-first-out channels, in every interleaving.
 Slots never leak and never over-count, and no answer crosses a session boundary.
 */
module ClientWorker {
  import opened ReceiverClients
  import opened ReceiveWorkers
  import opened WorkerProtocol

  /**
   `builtFor` records the epoch of the open request each pipeline was built for, `latestOpen` the epoch of the
   client's latest open (0 before any), `abandoned` the slots given up by session ends under this worker, `absorbed`
   the frames settled since without freeing a slot, and `thrown` the epochs of close requests that threw in a worker.
   */
  datatype System = System(
    client: Client, worker: Worker, toWorker: seq<Request>, toClient: seq<Event>,
    builtFor: map<PipelineId, Epoch>, latestOpen: Epoch,
    abandoned: nat, absorbed: nat, thrown: set<Epoch>)

  datatype Action =
    | Opens(resume: bool, posts: bool)
    | Closes(posts: bool)
    | AsksToVerify(posts: bool)
    | Submits(frame: CapturedFrame, posts: bool)
    | Disposes
    | LosesWorker
    | Boots(acceptsBitmap: bool)
    | Receives
    | Handles(built: PipelineId, decoding: Decoding, throws: bool, now: Moment)
    | Hashes(i: nat)
    | Decides(i: nat, ok: bool, now: Moment)

  function Initial(maxInFlight: nat): System {
    System(Created(maxInFlight), Booted(), [], [], map[], 0, 0, 0, {})
  }

  predicate Enabled(s: System, a: Action) {
    match a
    case Opens(_, _) => !s.client.disposed
    case LosesWorker => s.client.worker
    case Boots(_) => s.client.worker
    case Receives => s.client.worker && s.toClient != []
    case Handles(built, _, _, _) => s.client.worker && s.toWorker != [] && built !in s.builtFor
    case Hashes(i) => s.client.worker && i < |s.worker.verifying|
    case Decides(i, _, _) => s.client.worker && i < |s.worker.verifying|
    case _ => true
  }

  function ClientTurn(s: System, a: Action): Turn
    requires Enabled(s, a)
  {
    match a
    case Opens(resume, posts) => OpenTurn(s.client, resume, posts)
    case Closes(posts) => CloseTurn(s.client, posts)
    case AsksToVerify(posts) => VerifyTurn(s.client, posts)
    case Submits(frame, posts) => SubmitTurn(s.client, frame, posts)
    case Disposes => DisposeTurn(s.client)
    case LosesWorker => Lose(s.client)
    case Receives => ReceiveTurn(s.client, s.toClient[0])
    case _ => Turn(s.client, [], [])
  }

  function WorkerStep(s: System, a: Action): Step
    requires Enabled(s, a)
  {
    match a
    case Handles(built, decoding, throws, now) => HandleStep(s.worker, s.toWorker[0], built, decoding, throws, now)
    case Boots(acceptsBitmap) => Step(s.worker, [Ready(acceptsBitmap)])
    case Hashes(i) => HashingStep(s.worker, i)
    case Decides(i, ok, now) => VerdictStep(s.worker, i, ok, now)
    case _ => Step(s.worker, [])
  }

  /** A worker that is torn down takes both channels with it, and the one that replaces it starts from nothing. */
  function Apply(s: System, a: Action): System
    requires Enabled(s, a)
  {
    var turn, step := ClientTurn(s, a), WorkerStep(s, a);
    if !turn.client.worker then
      s.(client := turn.client, worker := Booted(), toWorker := [], toClient := [], latestOpen := NextOpen(s, a),
          abandoned := 0, absorbed := 0, thrown := NextThrown(s, a))
    else
      System(turn.client, step.worker,
             (if a.Handles? then s.toWorker[1..] else s.toWorker) + turn.sent,
             (if a.Receives? then s.toClient[1..] else s.toClient) + step.posted,
             if a.Handles? && s.toWorker[0].Open? && !a.throws then s.builtFor[a.built := s.toWorker[0].epoch]
             else s.builtFor,
             NextOpen(s, a),
             if a.Opens? || (a.Closes? && s.client.isOpen) then s.abandoned + s.client.inFlight else s.abandoned,
             s.absorbed + One(a.Receives? && Settles(s.toClient[0], 0) && turn.client.inFlight == s.client.inFlight),
             NextThrown(s, a))
  }

  function NextThrown(s: System, a: Action): set<Epoch>
    requires Enabled(s, a)
  {
    if a.Handles? && s.toWorker[0].Close? && a.throws then s.thrown + {s.toWorker[0].epoch} else s.thrown
  }

  function NextOpen(s: System, a: Action): Epoch {
    if a.Opens? then s.client.epoch + 1 else s.latestOpen
  }

  ghost predicate IsRun(run: seq<System>, actions: seq<Action>) {
    && |run| == |actions| + 1
    && (exists maxInFlight :: run[0] == Initial(maxInFlight))
    && forall i :: 0 <= i < |actions| ==> Enabled(run[i], actions[i]) && run[i + 1] == Apply(run[i], actions[i])
  }

  // ---------------------------------------------------------------- frames that are posted but not answered

  function One(b: bool): nat {
    if b then 1 else 0
  }

  predicate Asks(r: Request, since: Epoch) {
    r.Frame? && r.epoch >= since
  }

  /** The event ends a frame: with its result, or with the failure that swallowed it. */
  predicate Settles(e: Event, since: Epoch) {
    (e.FrameDone? || (e.Fatal? && e.dropsFrame)) && e.epoch >= since
  }

  /** Frames of epoch `since` or later that the worker has still to handle. */
  function Waiting(requests: seq<Request>, since: Epoch): nat {
    if requests == [] then 0
    else Waiting(requests[..|requests| - 1], since) + One(Asks(requests[|requests| - 1], since))
  }

  /** Frames of epoch `since` or later whose answer has still to reach the client. */
  function Arriving(events: seq<Event>, since: Epoch): nat {
    if events == [] then 0
    else Arriving(events[..|events| - 1], since) + One(Settles(events[|events| - 1], since))
  }

  function Unanswered(s: System, since: Epoch): nat {
    Waiting(s.toWorker, since) + Arriving(s.toClient, since)
  }

  lemma {:induction false} WaitingSplits(a: seq<Request>, b: seq<Request>, since: Epoch)
    ensures Waiting(a + b, since) == Waiting(a, since) + Waiting(b, since)
  {
    if b == [] {
      assert a + b == a;
    } else {
      WaitingSplits(a, b[..|b| - 1], since);
      assert (a + b)[..|a + b| - 1] == a + b[..|b| - 1];
    }
  }

  lemma {:induction false} ArrivingSplits(a: seq<Event>, b: seq<Event>, since: Epoch)
    ensures Arriving(a + b, since) == Arriving(a, since) + Arriving(b, since)
  {
    if b == [] {
      assert a + b == a;
    } else {
      ArrivingSplits(a, b[..|b| - 1], since);
      assert (a + b)[..|a + b| - 1] == a + b[..|b| - 1];
    }
  }

  lemma ShortWaits(q: seq<Request>, since: Epoch)
    ensures q == [] ==> Waiting(q, since) == 0
    ensures |q| == 1 ==> Waiting(q, since) == One(Asks(q[0], since))
  {
  }

  lemma ShortArrivals(q: seq<Event>, since: Epoch)
    ensures q == [] ==> Arriving(q, since) == 0
    ensures |q| == 1 ==> Arriving(q, since) == One(Settles(q[0], since))
    ensures |q| == 2 ==> Arriving(q, since) == One(Settles(q[0], since)) + One(Settles(q[1], since))
  {
    if |q| == 2 {
      assert q[..1] == [q[0]];
    }
  }

  lemma WaitingHead(q: seq<Request>, since: Epoch)
    requires q != []
    ensures Waiting(q, since) == One(Asks(q[0], since)) + Waiting(q[1..], since)
  {
    assert q == [q[0]] + q[1..];
    WaitingSplits([q[0]], q[1..], since);
    ShortWaits([q[0]], since);
  }

  lemma ArrivingHead(q: seq<Event>, since: Epoch)
    requires q != []
    ensures Arriving(q, since) == One(Settles(q[0], since)) + Arriving(q[1..], since)
  {
    assert q == [q[0]] + q[1..];
    ArrivingSplits([q[0]], q[1..], since);
    ShortArrivals([q[0]], since);
  }

  lemma {:induction false} WaitingFalls(q: seq<Request>, a: Epoch, b: Epoch)
    requires a <= b
    ensures Waiting(q, b) <= Waiting(q, a)
  {
    if q != [] {
      WaitingFalls(q[..|q| - 1], a, b);
    }
  }

  lemma {:induction false} ArrivingFalls(q: seq<Event>, a: Epoch, b: Epoch)
    requires a <= b
    ensures Arriving(q, b) <= Arriving(q, a)
  {
    if q != [] {
      ArrivingFalls(q[..|q| - 1], a, b);
    }
  }

  /** Handling a request answers exactly the frame it carries, if it carries one. */
  lemma HandlingAnswers(w: Worker, r: Request, built: PipelineId, decoding: Decoding, throws: bool, now: Moment,
                        since: Epoch)
    ensures Arriving(HandleStep(w, r, built, decoding, throws, now).posted, since) == One(Asks(r, since))
  {
    hide Arriving, Due;
    ShortArrivals(HandleStep(w, r, built, decoding, throws, now).posted, since);
  }

  /** A verification answers no frame. */
  lemma VerdictsAnswerNothing(w: Worker, i: nat, ok: bool, now: Moment, since: Epoch)
    requires i < |w.verifying|
    ensures Arriving(VerdictStep(w, i, ok, now).posted, since) == 0 && Arriving(HashingStep(w, i).posted, since) == 0
  {
    hide Arriving, Due;
    ShortArrivals(VerdictStep(w, i, ok, now).posted, since);
    ShortArrivals(HashingStep(w, i).posted, since);
  }

  /** What one action does to the number of unanswered frames. */
  lemma UnansweredAfter(s: System, a: Action, since: Epoch)
    requires Enabled(s, a)
    ensures var turn, after := ClientTurn(s, a), Unanswered(Apply(s, a), since);
            && (!turn.client.worker ==> after == 0)
            && (turn.client.worker && a.Receives? ==>
                  Unanswered(s, since) == after + One(Settles(s.toClient[0], since)))
            && (turn.client.worker && !a.Receives? ==> after == Unanswered(s, since) + Waiting(turn.sent, since))
  {
    hide HandleStep, VerdictStep, HashingStep, OpenTurn, CloseTurn, VerifyTurn, SubmitTurn, DisposeTurn, Lose,
         ReceiveTurn, Asks, Settles;
    var turn, step := ClientTurn(s, a), WorkerStep(s, a);
    ShortWaits([], since);
    ShortArrivals(step.posted, since);
    if turn.client.worker {
      match a
      case Receives =>
        ArrivingHead(s.toClient, since);
        ReceivingSendsNothing(s.client, s.toClient[0]);
        assert s.toClient[1..] + [] == s.toClient[1..] && s.toWorker + [] == s.toWorker;
      case Handles(built, decoding, throws, now) =>
        WaitingHead(s.toWorker, since);
        ArrivingSplits(s.toClient, step.posted, since);
        HandlingAnswers(s.worker, s.toWorker[0], built, decoding, throws, now, since);
        assert s.toWorker[1..] + [] == s.toWorker[1..];
      case _ =>
        WaitingSplits(s.toWorker, turn.sent, since);
        ArrivingSplits(s.toClient, step.posted, since);
        OthersAnswerNothing(s, a, since);
    }
  }

  lemma ReceivingSendsNothing(c: Client, e: Event)
    ensures ReceiveTurn(c, e).sent == []
  {
  }

  lemma OthersAnswerNothing(s: System, a: Action, since: Epoch)
    requires Enabled(s, a) && !a.Handles?
    ensures Arriving(WorkerStep(s, a).posted, since) == 0
  {
    hide HandleStep, VerdictStep, HashingStep, Arriving;
    ShortArrivals(WorkerStep(s, a).posted, since);
    match a
    case Hashes(i) => VerdictsAnswerNothing(s.worker, i, false, Moment(0, 0, IDLE_SHAPE), since);
    case Decides(i, ok, now) => VerdictsAnswerNothing(s.worker, i, ok, now, since);
    case _ =>
  }

  // ---------------------------------------------------------------- slots

  /** The counter never exceeds what is still unanswered in the present session. All that is unanswered is accounted
      for: by the slots claimed, and by the slots session ends gave up whose frames have not been settled since. */
  ghost predicate SlotsHonest(s: System) {
    && s.client.inFlight <= s.client.maxInFlight
    && s.client.inFlight <= Unanswered(s, s.client.epoch)
    && Unanswered(s, 0) + s.absorbed == s.client.inFlight + s.abandoned
    && Unanswered(s, s.client.epoch + 1) == 0
    && (!s.client.worker ==> s.toWorker == [] && s.toClient == [] && s.client.inFlight == 0)
    && (s.client.isOpen ==> s.client.worker)
    && (s.client.disposed ==> !s.client.worker)
  }

  lemma SlotsKept(s: System, a: Action)
    requires SlotsHonest(s) && Enabled(s, a)
    ensures SlotsHonest(Apply(s, a))
  {
    hide Waiting, Arriving, Unanswered, WorkerStep;
    var turn := ClientTurn(s, a);
    UnansweredAfter(s, a, 0);
    UnansweredAfter(s, a, turn.client.epoch);
    UnansweredAfter(s, a, turn.client.epoch + 1);
    ShortWaits(turn.sent, 0);
    ShortWaits(turn.sent, turn.client.epoch);
    ShortWaits(turn.sent, turn.client.epoch + 1);
    UnansweredFalls(s, s.client.epoch + 1, turn.client.epoch + 1);
  }

  lemma UnansweredFalls(s: System, a: Epoch, b: Epoch)
    requires a <= b
    ensures Unanswered(s, b) <= Unanswered(s, a)
  {
    WaitingFalls(s.toWorker, a, b);
    ArrivingFalls(s.toClient, a, b);
  }

  // ---------------------------------------------------------------- session fencing

  type Ledger = map<PipelineId, Epoch>

  /** `pipeline` was built when the worker handled the open request of this epoch. */
  predicate BuiltFor(b: Ledger, pipeline: PipelineId, epoch: Epoch) {
    pipeline in b && b[pipeline] == epoch
  }

  ghost predicate WorkerTagged(b: Ledger, w: Worker) {
    && (w.isOpen ==> BuiltFor(b, w.pipeline, w.epoch))
    && forall v :: v in w.verifying ==> BuiltFor(b, v.pipeline, v.epoch)
  }

  ghost predicate EventsTagged(b: Ledger, events: seq<Event>) {
    forall e :: e in events && AboutTransfer(e) ==> BuiltFor(b, e.pipeline, e.epoch)
  }

  /** Open requests still on their way are later than every pipeline built, and in order. */
  ghost predicate OpensAreNew(b: Ledger, requests: seq<Request>, latest: Epoch) {
    forall i {:trigger requests[i]} :: 0 <= i < |requests| && requests[i].Open? ==>
      && 1 <= requests[i].epoch <= latest
      && (forall q :: q in b ==> b[q] < requests[i].epoch)
      && (forall j {:trigger requests[j]} :: i < j < |requests| && requests[j].Open? ==>
            requests[i].epoch < requests[j].epoch)
  }

  ghost predicate OnePerOpen(b: Ledger, latest: Epoch) {
    && (forall q :: q in b ==> 1 <= b[q] <= latest)
    && (forall p, q :: p in b && q in b && b[p] == b[q] ==> p == q)
  }

  ghost predicate Fenced(s: System) {
    && s.latestOpen <= s.client.epoch
    && (s.client.isOpen ==> s.latestOpen == s.client.epoch && !s.client.disposed)
    && (!s.client.isOpen ==> s.latestOpen < s.client.epoch || s.latestOpen == 0)
    && OnePerOpen(s.builtFor, s.latestOpen)
    && OpensAreNew(s.builtFor, s.toWorker, s.latestOpen)
    && WorkerTagged(s.builtFor, s.worker)
    && EventsTagged(s.builtFor, s.toClient)
  }

  lemma HandlingTags(b: Ledger, w: Worker, r: Request, built: PipelineId, decoding: Decoding, throws: bool, now: Moment)
    requires WorkerTagged(b, w) && built !in b
    ensures var step := HandleStep(w, r, built, decoding, throws, now);
            var after := if r.Open? && !throws then b[built := r.epoch] else b;
            WorkerTagged(after, step.worker) && EventsTagged(after, step.posted)
  {
    hide Due;
  }

  lemma VerdictTags(b: Ledger, w: Worker, i: nat, ok: bool, now: Moment)
    requires WorkerTagged(b, w) && i < |w.verifying|
    ensures WorkerTagged(b, VerdictStep(w, i, ok, now).worker) && EventsTagged(b, VerdictStep(w, i, ok, now).posted)
    ensures EventsTagged(b, HashingStep(w, i).posted)
  {
    hide Due;
    assert w.verifying[i] in w.verifying;
  }

  /** Handling an open request moves its epoch from the channel to the ledger. */
  lemma OpenHandled(b: Ledger, requests: seq<Request>, latest: Epoch, built: PipelineId)
    requires OnePerOpen(b, latest) && OpensAreNew(b, requests, latest) && requests != [] && built !in b
    ensures OpensAreNew(b, requests[1..], latest)
    ensures requests[0].Open? ==>
              OnePerOpen(b[built := requests[0].epoch], latest)
              && OpensAreNew(b[built := requests[0].epoch], requests[1..], latest)
  {
  }

  lemma FenceKept(s: System, a: Action)
    requires Fenced(s) && Enabled(s, a)
    ensures Fenced(Apply(s, a))
  {
    match a
    case Handles(built, decoding, throws, now) =>
      hide HandleStep, OpensAreNew, OnePerOpen, WorkerTagged;
      HandlingTags(s.builtFor, s.worker, s.toWorker[0], built, decoding, throws, now);
      OpenHandled(s.builtFor, s.toWorker, s.latestOpen, built);
      assert s.toWorker[1..] + [] == s.toWorker[1..];
    case Hashes(i) =>
      hide HashingStep, OpensAreNew, OnePerOpen, WorkerTagged;
      VerdictTags(s.builtFor, s.worker, i, false, Moment(0, 0, IDLE_SHAPE));
      assert s.toWorker + [] == s.toWorker;
    case Decides(i, ok, now) =>
      hide VerdictStep, OpensAreNew, OnePerOpen, WorkerTagged;
      VerdictTags(s.builtFor, s.worker, i, ok, now);
      assert s.toWorker + [] == s.toWorker;
    case _ => ClientKeepsFence(s, a);
  }

  /** Posting keeps the order of open requests: a new one is later than every other and than the whole ledger. */
  lemma PostingKeepsOrder(b: Ledger, requests: seq<Request>, latest: Epoch, r: Request)
    requires OnePerOpen(b, latest) && OpensAreNew(b, requests, latest)
    ensures !r.Open? ==> OpensAreNew(b, requests + [r], latest)
    ensures r.Open? && latest < r.epoch ==> OnePerOpen(b, r.epoch) && OpensAreNew(b, requests + [r], r.epoch)
  {
  }

  lemma LaterBound(b: Ledger, latest: Epoch, later: Epoch)
    requires OnePerOpen(b, latest) && latest <= later
    ensures OnePerOpen(b, later) && OpensAreNew(b, [], later)
  {
  }

  lemma ClientKeepsFence(s: System, a: Action)
    requires Fenced(s) && Enabled(s, a) && !a.Handles? && !a.Hashes? && !a.Decides?
    ensures Fenced(Apply(s, a))
  {
    hide WorkerTagged, OpensAreNew, OnePerOpen, EventsTagged;
    var turn := ClientTurn(s, a);
    NothingTagged(s.builtFor);
    LaterBound(s.builtFor, s.latestOpen, NextOpen(s, a));
    assert s.toWorker + [] == s.toWorker && s.toClient + [] == s.toClient;
    if turn.sent != [] {
      PostingKeepsOrder(s.builtFor, s.toWorker, s.latestOpen, turn.sent[0]);
      assert turn.sent == [turn.sent[0]];
    }
    if a.Receives? {
      TailTagged(s.builtFor, s.toClient);
      assert s.toClient[1..] + [] == s.toClient[1..];
    }
    if a.Boots? {
      ReadyTagged(s.builtFor, s.toClient, a.acceptsBitmap);
    }
  }

  lemma TailTagged(b: Ledger, events: seq<Event>)
    requires EventsTagged(b, events) && events != []
    ensures EventsTagged(b, events[1..])
  {
  }

  lemma ReadyTagged(b: Ledger, events: seq<Event>, acceptsBitmap: bool)
    requires EventsTagged(b, events)
    ensures EventsTagged(b, events + [Ready(acceptsBitmap)])
  {
  }

  lemma NothingTagged(b: Ledger)
    ensures WorkerTagged(b, Booted()) && EventsTagged(b, [])
  {
  }

  // ---------------------------------------------------------------- whole runs

  lemma {:induction false} RunIsHonest(run: seq<System>, actions: seq<Action>, n: nat)
    requires IsRun(run, actions) && n < |run|
    ensures SlotsHonest(run[n]) && Fenced(run[n])
  {
    if n == 0 {
    } else {
      hide SlotsHonest, Fenced, Apply, Enabled;
      RunIsHonest(run, actions, n - 1);
      assert Enabled(run[n - 1], actions[n - 1]);
      SlotsKept(run[n - 1], actions[n - 1]);
      FenceKept(run[n - 1], actions[n - 1]);
    }
  }

  /** In every interleaving: the count of frames in flight is within its bound and never above what is unanswered, and
      exactly what is unanswered but for the slots given up at session ends less the frames settled without a slot. */
  lemma SlotsNeverLeak(run: seq<System>, actions: seq<Action>, n: nat)
    requires IsRun(run, actions) && n < |run|
    ensures var s := run[n];
            && s.client.inFlight <= s.client.maxInFlight
            && Unanswered(s, 0) + s.absorbed == s.client.inFlight + s.abandoned
            && s.client.inFlight <= Unanswered(s, 0) <= s.client.inFlight + s.abandoned
            && (s.client.inFlight == Unanswered(s, 0) <==> s.absorbed == s.abandoned)
  {
    RunIsHonest(run, actions, n);
    UnansweredFalls(run[n], 0, run[n].client.epoch);
  }

  /** A session that cannot take a frame is waiting for one of its own, so capture never wedges. */
  lemma CaptureNeverWedges(run: seq<System>, actions: seq<Action>, n: nat)
    requires IsRun(run, actions) && n < |run| && run[n].client.isOpen && run[n].client.maxInFlight > 0
    ensures CanAccept(run[n].client) || Unanswered(run[n], run[n].client.epoch) > 0
    ensures run[n].toWorker == [] && run[n].toClient == [] ==> CanAccept(run[n].client) && run[n].client.inFlight == 0
  {
    RunIsHonest(run, actions, n);
  }

  /** Frames of the present session that are unanswered but not counted. */
  function Gap(s: System): int {
    Unanswered(s, s.client.epoch) - s.client.inFlight
  }

  predicate ReceivesResult(s: System, a: Action)
    requires Enabled(s, a)
  {
    a.Receives? && s.toClient[0].FrameDone?
  }

  /** Within a session the counter falls behind exactly when an answer from an earlier one takes a slot, and catches up
      exactly when an answer of its own finds none to take; whatever else happens leaves the gap alone. */
  lemma StaleAnswerTakesASlot(run: seq<System>, actions: seq<Action>, n: nat)
    requires IsRun(run, actions) && n < |actions|
    ensures Enabled(run[n], actions[n])
    ensures var (s, after, result) := (run[n], run[n + 1], ReceivesResult(run[n], actions[n]));
            && (result ==> s.toClient[0].epoch <= s.client.epoch == after.client.epoch)
            && (after.client.epoch == s.client.epoch ==>
                  Gap(after) == Gap(s) + One(result && s.toClient[0].epoch < s.client.epoch && s.client.inFlight > 0)
                                - One(result && s.toClient[0].epoch == s.client.epoch && s.client.inFlight == 0))
  {
    RunIsHonest(run, actions, n);
    assert Enabled(run[n], actions[n]);
    GapMoves(run[n], actions[n]);
  }

  lemma GapMoves(s: System, a: Action)
    requires SlotsHonest(s) && Enabled(s, a)
    ensures var (after, result) := (Apply(s, a), ReceivesResult(s, a));
            && (result ==> s.toClient[0].epoch <= s.client.epoch == after.client.epoch)
            && (after.client.epoch == s.client.epoch ==>
                  Gap(after) == Gap(s) + One(result && s.toClient[0].epoch < s.client.epoch && s.client.inFlight > 0)
                                - One(result && s.toClient[0].epoch == s.client.epoch && s.client.inFlight == 0))
  {
    hide Waiting, Arriving, WorkerStep;
    var turn := ClientTurn(s, a);
    UnansweredAfter(s, a, s.client.epoch);
    UnansweredAfter(s, a, s.client.epoch + 1);
    ShortWaits(turn.sent, s.client.epoch);
    ShortWaits([], s.client.epoch);
    ShortArrivals([], s.client.epoch);
  }

  /** The counter does fall behind: a session that ends with a frame on its way has none counted and one unanswered. */
  const ENDS_EARLY: seq<Action> := [Opens(false, true), Submits(CapturedFrame(0, 0, true), true), Closes(true)]

  function EndedEarly(n: nat): System {
    match n
    case 0 => Initial(1)
    case 1 => Initial(1).(client := Created(1).(epoch := 1, isOpen := true), toWorker := [Open(1, false)],
                          latestOpen := 1)
    case 2 => Initial(1).(client := Created(1).(epoch := 1, isOpen := true, inFlight := 1),
                          toWorker := [Open(1, false), Frame(1, 0, 0)], latestOpen := 1)
    case _ => Initial(1).(client := Created(1).(epoch := 2),
                          toWorker := [Open(1, false), Frame(1, 0, 0), Close(2)], latestOpen := 1, abandoned := 1)
  }

  lemma EndedEarlySteps(n: nat)
    requires n < |ENDS_EARLY|
    ensures Enabled(EndedEarly(n), ENDS_EARLY[n]) && Apply(EndedEarly(n), ENDS_EARLY[n]) == EndedEarly(n + 1)
  {
  }

  lemma CounterCanTrail()
    ensures exists run: seq<System> ::
              IsRun(run, ENDS_EARLY) && run[3].client.inFlight == 0 && Unanswered(run[3], 0) == 1
  {
    hide EndedEarly, Apply, Enabled, Unanswered;
    var run := seq(4, n requires 0 <= n < 4 => EndedEarly(n));
    forall n | 0 <= n < |ENDS_EARLY|
      ensures Enabled(run[n], ENDS_EARLY[n]) && run[n + 1] == Apply(run[n], ENDS_EARLY[n])
    {
      EndedEarlySteps(n);
    }
    EarlyEnd();
    assert IsRun(run, ENDS_EARLY);
    assert run[3].abandoned == 1 && run[3].absorbed == 0 && run[3].client.inFlight == 0;
    SlotsNeverLeak(run, ENDS_EARLY, 3);
  }

  lemma EarlyEnd()
    ensures EndedEarly(0) == Initial(1)
    ensures EndedEarly(3).abandoned == 1 && EndedEarly(3).absorbed == 0 && EndedEarly(3).client.inFlight == 0
  {
  }

  function WorkLeft(s: System): nat {
    3 * |s.toWorker| + |s.toClient|
  }

  predicate Delivers(a: Action) {
    a.Handles? || a.Receives?
  }

  lemma DeliveryShrinksWork(s: System, a: Action)
    requires Enabled(s, a) && Delivers(a)
    ensures WorkLeft(Apply(s, a)) < WorkLeft(s)
  {
    hide Due;
  }

  /** Left to deliver, the channels run dry in a bounded number of steps. */
  lemma {:induction false} DeliveryEnds(run: seq<System>, actions: seq<Action>, from: nat, to: nat)
    requires IsRun(run, actions) && from <= to < |run|
    requires forall i :: from <= i < to ==> Delivers(actions[i])
    ensures to - from + WorkLeft(run[to]) <= WorkLeft(run[from])
  {
    hide Apply, Enabled, WorkLeft;
    if from < to {
      DeliveryEnds(run, actions, from, to - 1);
      assert Enabled(run[to - 1], actions[to - 1]);
      DeliveryShrinksWork(run[to - 1], actions[to - 1]);
    }
  }

  /** Every callback about a transfer, in every interleaving, is made in an open session and comes from the one
      pipeline the worker built for the client's latest `open`. After a close there is none until the next open. */
  lemma AnswersAreFenced(run: seq<System>, actions: seq<Action>, n: nat, call: Call)
    requires IsRun(run, actions) && n < |actions| && call in ClientTurn(run[n], actions[n]).calls && !call.OnFatal?
    ensures run[n].client.isOpen && run[n].latestOpen == run[n].client.epoch
    ensures BuiltFor(run[n].builtFor, call.pipeline, run[n].latestOpen)
    ensures forall q :: BuiltFor(run[n].builtFor, q, run[n].latestOpen) ==> q == call.pipeline
  {
    RunIsHonest(run, actions, n);
    var s := run[n];
    assert Enabled(s, actions[n]);
    CallsComeFromEvents(s, actions[n], call);
    assert s.toClient[0] in s.toClient;
  }

  lemma CallsComeFromEvents(s: System, a: Action, call: Call)
    requires Enabled(s, a) && call in ClientTurn(s, a).calls && !call.OnFatal?
    ensures a.Receives? && AboutTransfer(s.toClient[0]) && s.toClient[0].epoch == s.client.epoch
            && s.toClient[0].pipeline == call.pipeline
  {
  }

  // ---------------------------------------------------------------- `onFatal`

  /** Requests other than a close carry the epoch of some open; a failure under any other epoch is a close's. */
  ghost predicate FatalsTraced(s: System) {
    && (s.client.isOpen ==> s.latestOpen >= 1)
    && (forall r :: r in s.toWorker && !r.Close? ==> 1 <= r.epoch <= s.latestOpen)
    && (forall r :: r in s.toWorker ==> r.epoch >= 1)
    && (forall e :: e in s.toClient && e.Fatal? ==> e.epoch >= 1 && (e.epoch <= s.latestOpen || e.epoch in s.thrown))
  }

  lemma FatalsTracedKept(s: System, a: Action)
    requires Fenced(s) && FatalsTraced(s) && Enabled(s, a)
    ensures FatalsTraced(Apply(s, a))
  {
    hide WorkerTagged, OpensAreNew, OnePerOpen, EventsTagged, Due;
    var after := Apply(s, a);
    forall e | e in after.toClient && e.Fatal?
      ensures e.epoch >= 1 && (e.epoch <= after.latestOpen || e.epoch in after.thrown)
    {
      if e !in s.toClient {
        assert e in WorkerStep(s, a).posted;
        assert s.toWorker[0] in s.toWorker;
      }
    }
    forall r | r in after.toWorker
      ensures r.epoch >= 1 && (!r.Close? ==> r.epoch <= after.latestOpen)
    {
      if r !in s.toWorker {
        assert r in ClientTurn(s, a).sent;
      }
    }
  }

  lemma {:induction false} RunIsTraced(run: seq<System>, actions: seq<Action>, n: nat)
    requires IsRun(run, actions) && n < |run|
    ensures FatalsTraced(run[n])
  {
    if n == 0 {
    } else {
      hide FatalsTraced, Fenced, SlotsHonest, Apply, Enabled;
      RunIsTraced(run, actions, n - 1);
      RunIsHonest(run, actions, n - 1);
      assert Enabled(run[n - 1], actions[n - 1]);
      FatalsTracedKept(run[n - 1], actions[n - 1]);
    }
  }

  /** Outside a session, in every interleaving, `onFatal` is called exactly when the platform loses the worker, when
      the post of the next open is refused, or when a failure arrives under the client's present epoch; and that
      failure can only be of the very close that ended the session. */
  lemma FatalOutsideASession(run: seq<System>, actions: seq<Action>, n: nat)
    requires IsRun(run, actions) && n < |actions| && !run[n].client.isOpen
    ensures var (s, a) := (run[n], actions[n]);
            && (OnFatal in ClientTurn(s, a).calls <==>
                 || a.LosesWorker?
                 || (a.Opens? && !a.posts)
                 || (a.Receives? && s.toClient[0].Fatal? && s.toClient[0].epoch == s.client.epoch))
            && (a.Receives? && s.toClient[0].Fatal? && s.toClient[0].epoch == s.client.epoch ==>
                  s.client.epoch in s.thrown)
  {
    RunIsHonest(run, actions, n);
    RunIsTraced(run, actions, n);
    var s := run[n];
    assert Enabled(s, actions[n]);
    if actions[n].Receives? {
      assert s.toClient[0] in s.toClient;
    }
  }

  /** So `onFatal` is outside the fence: here the worker fails while it handles the close itself. */
  const CLOSE_THROWS: seq<Action> := [
    Opens(false, true), Closes(true), Handles(0, NothingFound, false, Moment(0, 0, IDLE_SHAPE)), Receives,
    Handles(1, NothingFound, true, Moment(0, 0, IDLE_SHAPE)), Receives]

  function CloseThrown(n: nat): System {
    var closed := Initial(1).(client := Created(1).(epoch := 2), latestOpen := 1);
    var heard := closed.(worker := Worker(1, true, 0, 0, IDLE_SHAPE, At(0), []), builtFor := map[0 := 1]);
    match n
    case 0 => Initial(1)
    case 1 => Initial(1).(client := Created(1).(epoch := 1, isOpen := true), toWorker := [Open(1, false)],
                          latestOpen := 1)
    case 2 => closed.(toWorker := [Open(1, false), Close(2)])
    case 3 => heard.(toWorker := [Close(2)], toClient := [Progress(1, 0, IDLE_SHAPE)])
    case 4 => heard.(toWorker := [Close(2)])
    case 5 => heard.(toClient := [Fatal(2, false)], thrown := {2})
    case _ => closed.(client := Created(1).(epoch := 3, worker := false), builtFor := map[0 := 1], thrown := {2})
  }

  lemma CloseThrownSteps(n: nat)
    requires n < |CLOSE_THROWS|
    ensures Enabled(CloseThrown(n), CLOSE_THROWS[n]) && Apply(CloseThrown(n), CLOSE_THROWS[n]) == CloseThrown(n + 1)
  {
  }

  lemma FatalCanFollowAClose()
    ensures exists run: seq<System> ::
              IsRun(run, CLOSE_THROWS) && !run[5].client.isOpen && OnFatal in ClientTurn(run[5], CLOSE_THROWS[5]).calls
  {
    hide CloseThrown, Apply, Enabled, ClientTurn;
    var run := seq(7, n requires 0 <= n < 7 => CloseThrown(n));
    forall n | 0 <= n < |CLOSE_THROWS|
      ensures Enabled(run[n], CLOSE_THROWS[n]) && run[n + 1] == Apply(run[n], CLOSE_THROWS[n])
    {
      CloseThrownSteps(n);
    }
    CloseThrownEnds();
    assert IsRun(run, CLOSE_THROWS);
    FatalOutsideASession(run, CLOSE_THROWS, 5);
  }

  lemma CloseThrownEnds()
    ensures CloseThrown(0) == Initial(1)
    ensures !CloseThrown(5).client.isOpen && CloseThrown(5).client.epoch == 2
            && CloseThrown(5).toClient == [Fatal(2, false)]
  {
  }
}
