/** The capture thread's side: slots for frames in flight, and the epoch that fences a session's answers. */
module ReceiverClients {
  import opened Bytes
  import opened WorkerProtocol

  datatype CapturedFrame = CapturedFrame(frameId: nat, capturedAt: int, hasBuffer: bool)

  datatype Call =
    | OnProgress(pipeline: PipelineId, shape: Shape)
    | OnComplete(pipeline: PipelineId)
    | OnVerifyProgress(pipeline: PipelineId)
    | OnVerified(pipeline: PipelineId)
    | OnFailed(pipeline: PipelineId)
    | OnFatal

  datatype Client = Client(
    maxInFlight: nat, epoch: Epoch, isOpen: bool, inFlight: nat, worker: bool,
    acceptsBitmap: bool, disposed: bool, progress: Option<Shape>)

  /** A client after one call or message: what it posted and which callbacks it made. */
  datatype Turn = Turn(client: Client, sent: seq<Request>, calls: seq<Call>)

  function Created(maxInFlight: nat): Client {
    Client(maxInFlight, 0, false, 0, true, false, false, None)
  }

  predicate CanAccept(c: Client) {
    c.isOpen && !c.disposed && c.worker && c.inFlight < c.maxInFlight
  }

  function Lose(c: Client): Turn {
    if c.disposed then Turn(c, [], [])
    else Turn(c.(worker := false, acceptsBitmap := false, inFlight := 0, isOpen := false, epoch := c.epoch + 1), [],
              [OnFatal])
  }

  /** Posts a request, unless there is no worker; `posts` is whether the platform takes it. */
  function SendTo(c: Client, request: Request, posts: bool): Turn {
    if !c.worker then Turn(c, [], [])
    else if posts then Turn(c, [request], [])
    else Lose(if request.Frame? && c.inFlight > 0 then c.(inFlight := c.inFlight - 1) else c)
  }

  function OpenTurn(c: Client, resume: bool, posts: bool): Turn {
    if c.disposed then Turn(c, [], [])
    else
      var begun := c.(epoch := c.epoch + 1, inFlight := 0, progress := None, worker := true, isOpen := true);
      SendTo(begun, Open(begun.epoch, resume), posts)
  }

  function CloseTurn(c: Client, posts: bool): Turn {
    if !c.isOpen then Turn(c, [], [])
    else
      var ended := c.(isOpen := false, epoch := c.epoch + 1, inFlight := 0, progress := None);
      SendTo(ended, Close(ended.epoch), posts)
  }

  function VerifyTurn(c: Client, posts: bool): Turn {
    if !c.isOpen then Turn(c, [], []) else SendTo(c, Verify(c.epoch), posts)
  }

  function SubmitTurn(c: Client, frame: CapturedFrame, posts: bool): Turn {
    if !CanAccept(c) || !frame.hasBuffer then Turn(c, [], [])
    else
      var claimed := c.(inFlight := c.inFlight + 1);
      SendTo(claimed, Frame(c.epoch, frame.frameId, frame.capturedAt), posts)
  }

  function DisposeTurn(c: Client): Turn {
    if c.disposed then Turn(c, [], [])
    else Turn(c.(disposed := true, isOpen := false, epoch := c.epoch + 1, inFlight := 0, worker := false,
                 acceptsBitmap := false), [], [])
  }

  function ReceiveTurn(c: Client, e: Event): Turn {
    match e
    case Ready(acceptsBitmap) => Turn(c.(acceptsBitmap := acceptsBitmap), [], [])
    case FrameDone(_, _, _, _) => Turn(if c.inFlight > 0 then c.(inFlight := c.inFlight - 1) else c, [], [])
    case _ =>
      if e.epoch != c.epoch then Turn(c, [], [])
      else
        match e
        case Progress(_, pipeline, shape) =>
          Turn(c.(progress := Some(shape)), [],
               [OnProgress(pipeline, shape)] + (if shape.complete then [OnComplete(pipeline)] else []))
        case VerifyProgress(_, pipeline) => Turn(c, [], [OnVerifyProgress(pipeline)])
        case Verified(_, pipeline) => Turn(c, [], [OnVerified(pipeline)])
        case Failed(_, pipeline) => Turn(c, [], [OnFailed(pipeline)])
        case _ => Lose(c)
  }

  class ReceiverClient {
    const maxInFlight: nat
    var epoch: Epoch
    var isOpen: bool
    var inFlight: nat
    var worker: bool
    var acceptsBitmap: bool
    var disposed: bool
    var progressState: Option<Shape>

    ghost function View(): Client
      reads this
    {
      Client(maxInFlight, epoch, isOpen, inFlight, worker, acceptsBitmap, disposed, progressState)
    }

    constructor (maxInFlight: nat)
      ensures View() == Created(maxInFlight)
    {
      this.maxInFlight := maxInFlight;
      epoch, isOpen, inFlight, worker, acceptsBitmap, disposed, progressState := 0, false, 0, true, false, false, None;
    }

    predicate CanAcceptFrame()
      reads this
      ensures CanAcceptFrame() == CanAccept(View())
    {
      isOpen && !disposed && worker && inFlight < maxInFlight
    }

    /** None stands for the error a disposed client throws. */
    method OpenSession(resume: bool, posts: bool) returns (session: Option<Epoch>, sent: seq<Request>, calls: seq<Call>)
      modifies this
      ensures Turn(View(), sent, calls) == OpenTurn(old(View()), resume, posts)
      ensures session == if disposed then None else Some(epoch)
    {
      if disposed {
        return None, [], [];
      }
      epoch := epoch + 1;
      inFlight := 0;
      progressState := None;
      EnsureWorker();
      isOpen := true;
      sent, calls := Send(Open(epoch, resume), posts);
      session := Some(epoch);
    }

    method CloseSession(posts: bool) returns (sent: seq<Request>, calls: seq<Call>)
      modifies this
      ensures Turn(View(), sent, calls) == CloseTurn(old(View()), posts)
    {
      if !isOpen {
        return [], [];
      }
      isOpen := false;
      epoch := epoch + 1;
      inFlight := 0;
      progressState := None;
      sent, calls := Send(Close(epoch), posts);
    }

    method RequestVerification(posts: bool) returns (sent: seq<Request>, calls: seq<Call>)
      modifies this
      ensures Turn(View(), sent, calls) == VerifyTurn(old(View()), posts)
    {
      if !isOpen {
        return [], [];
      }
      sent, calls := Send(Verify(epoch), posts);
    }

    /** `taken` is false when the frame's buffer stays with the caller. */
    method Submit(frame: CapturedFrame, posts: bool) returns (taken: bool, sent: seq<Request>, calls: seq<Call>)
      modifies this
      ensures Turn(View(), sent, calls) == SubmitTurn(old(View()), frame, posts)
      ensures taken <==> CanAccept(old(View())) && frame.hasBuffer
    {
      if !CanAcceptFrame() || !frame.hasBuffer {
        return false, [], [];
      }
      inFlight := inFlight + 1;
      sent, calls := Send(Frame(epoch, frame.frameId, frame.capturedAt), posts);
      taken := true;
    }

    method Dispose()
      modifies this
      ensures Turn(View(), [], []) == DisposeTurn(old(View()))
    {
      if disposed {
        return;
      }
      disposed := true;
      isOpen := false;
      epoch := epoch + 1;
      inFlight := 0;
      TeardownWorker();
    }

    method OnMessage(event: Event) returns (calls: seq<Call>)
      modifies this
      ensures Turn(View(), [], calls) == ReceiveTurn(old(View()), event)
    {
      calls := [];
      if event.Ready? {
        acceptsBitmap := event.acceptsBitmap;
        return;
      }
      if event.FrameDone? {
        if inFlight > 0 {
          inFlight := inFlight - 1;
        }
        return;
      }
      if event.epoch != epoch {
        return;
      }
      match event
      case Progress(_, pipeline, shape) =>
        progressState := Some(shape);
        calls := [OnProgress(pipeline, shape)];
        if shape.complete {
          calls := calls + [OnComplete(pipeline)];
        }
      case VerifyProgress(_, pipeline) => calls := [OnVerifyProgress(pipeline)];
      case Verified(_, pipeline) => calls := [OnVerified(pipeline)];
      case Failed(_, pipeline) => calls := [OnFailed(pipeline)];
      case Fatal(_, _) => calls := OnWorkerLost();
    }

    method OnWorkerLost() returns (calls: seq<Call>)
      modifies this
      ensures Turn(View(), [], calls) == Lose(old(View()))
    {
      if disposed {
        return [];
      }
      TeardownWorker();
      inFlight := 0;
      isOpen := false;
      epoch := epoch + 1;
      calls := [OnFatal];
    }

    method Send(request: Request, posts: bool) returns (sent: seq<Request>, calls: seq<Call>)
      modifies this
      ensures Turn(View(), sent, calls) == SendTo(old(View()), request, posts)
    {
      if !worker {
        return [], [];
      }
      if posts {
        return [request], [];
      }
      if request.Frame? && inFlight > 0 {
        inFlight := inFlight - 1;
      }
      calls := OnWorkerLost();
      sent := [];
    }

    method EnsureWorker()
      modifies this`worker
      ensures worker == (old(worker) || !disposed)
    {
      if worker || disposed {
        return;
      }
      worker := true;
    }

    method TeardownWorker()
      modifies this`worker, this`acceptsBitmap
      ensures !worker && !acceptsBitmap
    {
      worker := false;
      acceptsBitmap := false;
    }
  }
}
