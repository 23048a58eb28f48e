/** The worker's side: one session at a time, one terminal event for every frame it is given. */
module ReceiveWorkers {
  import opened WorkerProtocol

  const STALE_FRAME_MS: int := 250
  const PROGRESS_INTERVAL_MS: int := 120

  /** A verification that is waiting on the hash: the session it was asked for, and the pipeline it runs on. */
  datatype Verification = Verification(epoch: Epoch, pipeline: PipelineId)

  /** `lastProgressAt` is None before the session's first report. */
  datatype Worker = Worker(
    epoch: Epoch, isOpen: bool, pipeline: PipelineId, staleDropped: nat,
    reported: Shape, lastProgressAt: LastReport, verifying: seq<Verification>)

  datatype LastReport = Never | At(time: int)

  /** What decoding one frame comes to: no code, an answer of the pipeline, or an exception
      before or after the frame's own event has been posted. */
  datatype Decoding =
    | NothingFound | Answered(accepted: bool, completed: bool) | ThrowsEarly | ThrowsLate(accepted: bool)

  /** Clock readings and the pipeline's state while a message is handled. */
  datatype Moment = Moment(wallClock: int, elapsed: int, shape: Shape)

  datatype Step = Step(worker: Worker, posted: seq<Event>)

  const IDLE_SHAPE: Shape := Shape(false, false, false)

  function Booted(): Worker {
    Worker(0, false, 0, 0, IDLE_SHAPE, Never, [])
  }

  predicate Current(w: Worker, epoch: Epoch) {
    w.isOpen && epoch == w.epoch
  }

  predicate Due(w: Worker, force: bool, now: Moment) {
    force || now.shape != w.reported || w.lastProgressAt.Never?
    || now.elapsed - w.lastProgressAt.time >= PROGRESS_INTERVAL_MS
  }

  function ReportStep(w: Worker, force: bool, now: Moment): Step {
    if !Due(w, force, now) then Step(w, [])
    else Step(w.(lastProgressAt := At(now.elapsed), reported := now.shape), [Progress(w.epoch, w.pipeline, now.shape)])
  }

  function Then(earlier: seq<Event>, later: Step): Step {
    Step(later.worker, earlier + later.posted)
  }

  function OpenStep(w: Worker, epoch: Epoch, built: PipelineId, now: Moment): Step {
    ReportStep(Worker(epoch, true, built, 0, IDLE_SHAPE, Never, w.verifying), true, now)
  }

  function FrameStep(w: Worker, epoch: Epoch, frameId: nat, capturedAt: int, decoding: Decoding, now: Moment): Step {
    if !Current(w, epoch) then Step(w, [FrameDone(epoch, frameId, Stale, w.staleDropped)])
    else if now.wallClock - capturedAt > STALE_FRAME_MS then
      Step(w.(staleDropped := w.staleDropped + 1), [FrameDone(epoch, frameId, Stale, w.staleDropped + 1)])
    else
      match decoding
      case NothingFound => Step(w, [FrameDone(epoch, frameId, NoCode, w.staleDropped)])
      case Answered(accepted, completed) =>
        Then([FrameDone(epoch, frameId, Decoded(accepted), w.staleDropped)],
             ReportStep(w, completed || now.shape.complete, now))
      case ThrowsEarly => Step(w, [Fatal(epoch, true)])
      case ThrowsLate(accepted) =>
        Step(w, [FrameDone(epoch, frameId, Decoded(accepted), w.staleDropped), Fatal(epoch, false)])
  }

  function VerifyStep(w: Worker, epoch: Epoch): Step {
    if !Current(w, epoch) then Step(w, [])
    else Step(w.(verifying := w.verifying + [Verification(epoch, w.pipeline)]), [])
  }

  /** Handling one request; `throws` covers an exception out of ending the previous session. */
  function HandleStep(w: Worker, request: Request, built: PipelineId, decoding: Decoding, throws: bool,
                      now: Moment): Step {
    match request
    case Open(epoch, _) => if throws then Step(w, [Fatal(epoch, false)]) else OpenStep(w, epoch, built, now)
    case Frame(epoch, frameId, capturedAt) => FrameStep(w, epoch, frameId, capturedAt, decoding, now)
    case Verify(epoch) => VerifyStep(w, epoch)
    case Close(epoch) => if throws then Step(w, [Fatal(epoch, false)]) else Step(w.(isOpen := false), [])
  }

  /** The hash of verification `i` reports how far it has got. */
  function HashingStep(w: Worker, i: nat): Step
    requires i < |w.verifying|
  {
    var v := w.verifying[i];
    Step(w, if Current(w, v.epoch) then [VerifyProgress(v.epoch, v.pipeline)] else [])
  }

  /** Verification `i` has its answer. */
  function VerdictStep(w: Worker, i: nat, ok: bool, now: Moment): Step
    requires i < |w.verifying|
  {
    var v := w.verifying[i];
    var rest := w.(verifying := w.verifying[..i] + w.verifying[i + 1..]);
    if !Current(w, v.epoch) then Step(rest, [])
    else if !ok then Step(rest, [Failed(v.epoch, v.pipeline)])
    else Then([Verified(v.epoch, v.pipeline)], ReportStep(rest, true, now))
  }

  // ---------------------------------------------------------------- the worker itself

  class ReceiveWorker {
    var epoch: Epoch
    var isOpen: bool
    var pipeline: PipelineId
    var staleDropped: nat
    var reported: Shape
    var lastProgressAt: LastReport
    var verifying: seq<Verification>

    ghost function View(): Worker
      reads this
    {
      Worker(epoch, isOpen, pipeline, staleDropped, reported, lastProgressAt, verifying)
    }

    constructor ()
      ensures View() == Booted()
    {
      epoch, isOpen, pipeline, staleDropped := 0, false, 0, 0;
      reported, lastProgressAt, verifying := IDLE_SHAPE, Never, [];
    }

    method Handle(request: Request, built: PipelineId, decoding: Decoding, throws: bool, now: Moment)
      returns (posted: seq<Event>)
      modifies this
      ensures Step(View(), posted) == HandleStep(old(View()), request, built, decoding, throws, now)
    {
      match request
      case Open(e, _) =>
        if throws {
          return [Fatal(e, false)];
        }
        posted := OnOpen(e, built, now);
      case Frame(e, frameId, capturedAt) => posted := OnFrame(e, frameId, capturedAt, decoding, now);
      case Verify(e) =>
        OnVerify(e);
        posted := [];
      case Close(e) =>
        if throws {
          return [Fatal(e, false)];
        }
        isOpen := false;
        posted := [];
    }

    method OnOpen(epoch: Epoch, built: PipelineId, now: Moment) returns (posted: seq<Event>)
      modifies this
      ensures Step(View(), posted) == OpenStep(old(View()), epoch, built, now)
    {
      this.epoch := epoch;
      staleDropped := 0;
      lastProgressAt := Never;
      reported := IDLE_SHAPE;
      pipeline := built;
      isOpen := true;
      posted := PostProgress(true, now);
    }

    method OnFrame(epoch: Epoch, frameId: nat, capturedAt: int, decoding: Decoding, now: Moment)
      returns (posted: seq<Event>)
      modifies this
      ensures Step(View(), posted) == FrameStep(old(View()), epoch, frameId, capturedAt, decoding, now)
    {
      if !(isOpen && epoch == this.epoch) {
        return [FrameDone(epoch, frameId, Stale, staleDropped)];
      }
      var age := now.wallClock - capturedAt;
      if age > STALE_FRAME_MS {
        staleDropped := staleDropped + 1;
        return [FrameDone(epoch, frameId, Stale, staleDropped)];
      }
      posted := Process(epoch, frameId, capturedAt, decoding, now);
    }

    method Process(epoch: Epoch, frameId: nat, capturedAt: int, decoding: Decoding, now: Moment)
      returns (posted: seq<Event>)
      requires Current(View(), epoch) && now.wallClock - capturedAt <= STALE_FRAME_MS
      modifies this
      ensures Step(View(), posted) == FrameStep(old(View()), epoch, frameId, capturedAt, decoding, now)
    {
      match decoding
      case NothingFound => posted := [FrameDone(epoch, frameId, NoCode, staleDropped)];
      case ThrowsEarly => posted := [Fatal(epoch, true)];
      case ThrowsLate(accepted) => posted := [FrameDone(epoch, frameId, Decoded(accepted), staleDropped),
                                              Fatal(epoch, false)];
      case Answered(accepted, completed) =>
        posted := [FrameDone(epoch, frameId, Decoded(accepted), staleDropped)];
        var report := PostProgress(completed || now.shape.complete, now);
        posted := posted + report;
    }

    /** The part of `onVerify` that runs before it waits for the hash. */
    method OnVerify(epoch: Epoch)
      modifies this`verifying
      ensures Step(View(), []) == VerifyStep(old(View()), epoch)
    {
      if !(isOpen && epoch == this.epoch) {
        return;
      }
      verifying := verifying + [Verification(epoch, pipeline)];
    }

    /** The part of `onVerify` that runs once the hash has answered. */
    method OnVerdict(i: nat, ok: bool, now: Moment) returns (posted: seq<Event>)
      requires i < |verifying|
      modifies this
      ensures Step(View(), posted) == VerdictStep(old(View()), i, ok, now)
    {
      var v := verifying[i];
      verifying := verifying[..i] + verifying[i + 1..];
      if !(isOpen && v.epoch == epoch) {
        return [];
      }
      if !ok {
        return [Failed(v.epoch, v.pipeline)];
      }
      posted := [Verified(v.epoch, v.pipeline)];
      var report := PostProgress(true, now);
      posted := posted + report;
    }

    method PostProgress(force: bool, now: Moment) returns (posted: seq<Event>)
      modifies this`lastProgressAt, this`reported
      ensures Step(View(), posted) == ReportStep(old(View()), force, now)
    {
      var structural := now.shape.active != reported.active || now.shape.complete != reported.complete
                        || now.shape.faulted != reported.faulted;
      if !force && !structural && lastProgressAt.At? && now.elapsed - lastProgressAt.time < PROGRESS_INTERVAL_MS {
        return [];
      }
      lastProgressAt := At(now.elapsed);
      reported := now.shape;
      posted := [Progress(epoch, pipeline, now.shape)];
    }
  }
}
