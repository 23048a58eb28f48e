/** The messages that cross between the capture thread and the receive worker. */
module WorkerProtocol {
  type Epoch = nat

  /** Each receive pipeline ever built has its own number; messages about its transfer carry it. */
  type PipelineId = nat

  datatype Request =
    | Open(epoch: Epoch, resume: bool)
    | Frame(epoch: Epoch, frameId: nat, capturedAt: int)
    | Verify(epoch: Epoch)
    | Close(epoch: Epoch)

  datatype FrameOutcome = NoCode | Stale | Decoded(accepted: bool)

  /** The three transitions that beat the progress throttle. */
  datatype Shape = Shape(active: bool, complete: bool, faulted: bool)

  /** `dropsFrame` is not on the wire: it marks a failure that leaves the frame it happened on unanswered. */
  datatype Event =
    | Ready(acceptsBitmap: bool)
    | FrameDone(epoch: Epoch, frameId: nat, outcome: FrameOutcome, staleDropped: nat)
    | Progress(epoch: Epoch, pipeline: PipelineId, shape: Shape)
    | VerifyProgress(epoch: Epoch, pipeline: PipelineId)
    | Verified(epoch: Epoch, pipeline: PipelineId)
    | Failed(epoch: Epoch, pipeline: PipelineId)
    | Fatal(epoch: Epoch, dropsFrame: bool)

  /** Reports on a transfer: the ones a session boundary has to fence. */
  predicate AboutTransfer(e: Event) {
    e.Progress? || e.VerifyProgress? || e.Verified? || e.Failed?
  }
}
