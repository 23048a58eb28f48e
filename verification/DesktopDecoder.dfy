/** The desktop fountain decoder: belief propagation over a mutable frame table. */
module DesktopDecoder {
  import opened Bytes
  import opened DecoderNodes
  import opened Frames
  import opened Peeling

  datatype ReceiveError = PayloadTooLong | BlocksTooLarge | InconsistentMetadata

  class FountainDecoder {
    const code: Code

    var sessionId: int
    var blockCount: int
    var blockSize: int
    var totalPayloadLength: int
    var frames: map<nat, DecoderNode>
    var decodedBlocks: seq<Option<ByteString>>
    var solvedCount: nat
    var isComplete: bool

    /** The equations the frame table holds, the nodes that may be in it, and every frame taken into the session. */
    ghost var graph: map<nat, Equation>
    ghost var nodes: set<DecoderNode>
    ghost var log: set<Heard>

    /** The sequence number of every frame of this session that has arrived, before completion or after it. */
    ghost var arrived: set<nat>

    ghost predicate Open()
      reads this`sessionId, this`blockCount, this`blockSize, this`totalPayloadLength
    {
      sessionId >= 0 && blockCount > 0 && blockSize >= 0 && totalPayloadLength >= 0
    }

    ghost function Solved(): set<nat>
      reads this`decodedBlocks
    {
      Known(decodedBlocks)
    }

    /** Once complete, the frames left in the table are never looked at again. */
    ghost function View(): Core
      reads this`sessionId, this`blockCount, this`blockSize, this`totalPayloadLength
      reads this`isComplete, this`graph, this`decodedBlocks
      requires Open()
    {
      Core(blockCount, blockSize, if isComplete then map[] else graph, decodedBlocks)
    }

    /** What holds between any two steps of the ripple, except that `stale` equations still list block `b`. */
    ghost predicate Settling(stale: set<nat>, b: nat)
      reads this`sessionId, this`blockCount, this`blockSize, this`totalPayloadLength
      reads this`isComplete, this`graph, this`decodedBlocks, this`solvedCount, this`log
    {
      && Open() && Lawful(code)
      && Good(code, View(), log, stale, b)
      && solvedCount == |Solved()|
      && blockCount * blockSize <= MAX_FILE_SIZE + blockSize
    }

    ghost predicate Valid()
      reads this, nodes
    {
      && Lawful(code)
      && Linked(frames, graph, nodes)
      && (!Open() ==>
            sessionId == -1 && frames == map[] && decodedBlocks == [] && solvedCount == 0 && !isComplete
            && log == {})
      && (Open() ==> Settling({}, 0) && (isComplete <==> solvedCount == blockCount))
      && (Open() && !isComplete ==> forall s :: s in graph ==> |graph[s].left| >= 2)
    }

    /** Until it is complete the decoder takes in everything that arrives; after that it listens to nothing. */
    ghost predicate Listens()
      reads this
    {
      && (!Open() ==> arrived == {} && !isComplete)
      && Sequences(log) <= arrived && (!isComplete ==> Sequences(log) == arrived)
    }

    /** Between two deliveries, while blocks are still missing. */
    ghost predicate Ready()
      reads this, nodes
    {
      && Settling({}, 0) && Linked(frames, graph, nodes) && !isComplete && solvedCount < blockCount
      && forall s :: s in graph ==> |graph[s].left| >= 2
    }

    constructor (code: Code)
      requires Lawful(code)
      ensures Valid() && Listens() && !Open() && arrived == {} && nodes == {} && this.code == code
    {
      this.code := code;
      sessionId, blockCount, blockSize, totalPayloadLength := -1, -1, -1, -1;
      frames, decodedBlocks, solvedCount, isComplete := map[], [], 0, false;
      log, graph, nodes, arrived := {}, map[], {}, {};
    }

    ghost predicate Matches(h: FrameHeader)
      reads this`sessionId, this`blockCount, this`blockSize, this`totalPayloadLength
    {
      sessionId == h.sessionId && blockCount == h.blockCount && blockSize == h.blockSize
      && totalPayloadLength == h.totalPayloadLength
    }

    /** The bounds a session's first frame has to meet. */
    static predicate WithinBounds(h: FrameHeader) {
      h.totalPayloadLength <= MAX_FILE_SIZE && h.blockCount * h.blockSize <= MAX_FILE_SIZE + h.blockSize
    }

    method ReceiveFrame(frame: Frame) returns (r: Result<bool, ReceiveError>)
      requires Valid() && Listens()
      requires |frame.payload| == frame.header.blockSize && frame.header.blockCount > 0
      modifies this, nodes
      ensures Valid() && Listens() && fresh(nodes - old(nodes))
      ensures old(isComplete) ==>
                r == Success(true) && isComplete && log == old(log) && decodedBlocks == old(decodedBlocks)
      ensures old(Open()) ==>
                Open() && sessionId == old(sessionId) && blockCount == old(blockCount)
                && blockSize == old(blockSize) && totalPayloadLength == old(totalPayloadLength)
      ensures !old(isComplete) ==>
                (r.Success? <==> if old(Open()) then old(Matches(frame.header)) else WithinBounds(frame.header))
      ensures r.Failure? ==> unchanged(this)
      ensures r.Success? ==> Open() && r.value == isComplete
      ensures r.Success? && !old(isComplete) ==>
                Matches(frame.header) && log == old(log) + {Heard(frame.header.sequenceNumber, frame.payload)}
      ensures arrived == old(arrived)
                + (if r.Success? && Matches(frame.header) then {frame.header.sequenceNumber} else {})
      // The solved blocks are what peeling can reach from all that has arrived, and nothing else.
      ensures r.Success? ==> Solved() == Closure(code, blockCount, arrived)
      ensures r.Success? ==> (isComplete <==> Closure(code, blockCount, arrived) == UpTo(blockCount))
    {
      hide Linked, Closure, Sequences, UpTo, FountainDecoder.WithinBounds, FountainDecoder.Settling;
      if isComplete {
        arrived := arrived + if Matches(frame.header) then {frame.header.sequenceNumber} else {};
        ArrivalsDecide();
        return Success(true);
      }
      r := Accept(frame);
      if r.Success? {
        arrived := arrived + {frame.header.sequenceNumber};
        OneMoreSequence(old(log), Heard(frame.header.sequenceNumber, frame.payload));
        ArrivalsDecide();
      }
    }

    /** What has arrived decides what is solved, although a complete decoder no longer takes anything in. */
    lemma ArrivalsDecide()
      requires Valid() && Open() && Listens()
      ensures Solved() == Closure(code, blockCount, arrived)
      ensures isComplete <==> Closure(code, blockCount, arrived) == UpTo(blockCount)
    {
      Settle();
      if isComplete {
        ClosureStaysFull(code, blockCount, Sequences(log), arrived);
      }
    }

    /** A delivery to a decoder that still wants frames. */
    method Accept(frame: Frame) returns (r: Result<bool, ReceiveError>)
      requires Valid() && !isComplete
      requires |frame.payload| == frame.header.blockSize && frame.header.blockCount > 0
      modifies this, nodes
      ensures Valid() && fresh(nodes - old(nodes))
      ensures arrived == old(arrived)
      ensures r.Success? <==> if old(Open()) then old(Matches(frame.header)) else WithinBounds(frame.header)
      ensures r.Failure? ==> unchanged(this)
      ensures r.Success? ==> r.value == isComplete && Open() && Matches(frame.header)
      ensures r.Success? ==> log == old(log) + {Heard(frame.header.sequenceNumber, frame.payload)}
    {
      var refused := Enter(frame.header);
      if refused.Some? {
        return Failure(refused.value);
      }
      Take(frame.header.sequenceNumber, frame.payload);
      return Success(isComplete);
    }

    /** Checks the first frame's bounds and adopts its metadata; after that, refuses metadata that differs. */
    method Enter(header: FrameHeader) returns (refused: Option<ReceiveError>)
      requires Valid() && header.blockCount > 0 && !isComplete
      modifies this
      ensures Valid() && !isComplete && log == old(log) && nodes == old(nodes)
      ensures arrived == old(arrived)
      ensures refused.None? ==> Open() && Matches(header)
      ensures refused.Some? || old(Open()) ==> unchanged(this)
      ensures refused.None? <==> if old(Open()) then old(Matches(header)) else WithinBounds(header)
    {
      if sessionId == -1 {
        if header.totalPayloadLength > MAX_FILE_SIZE {
          return Some(PayloadTooLong);
        }
        if header.blockCount * header.blockSize > MAX_FILE_SIZE + header.blockSize {
          return Some(BlocksTooLarge);
        }
        Begin(header);
      } else if sessionId != header.sessionId || blockCount != header.blockCount || blockSize != header.blockSize
                || totalPayloadLength != header.totalPayloadLength {
        return Some(InconsistentMetadata);
      }
      return None;
    }

    /** Adopts a session's parameters from its first frame. */
    method Begin(header: FrameHeader)
      requires Valid() && !Open() && header.blockCount > 0 && WithinBounds(header)
      modifies this
      ensures Valid() && Open() && Matches(header) && !isComplete && log == {} && nodes == old(nodes)
      ensures arrived == old(arrived)
    {
      sessionId := header.sessionId;
      blockCount := header.blockCount;
      blockSize := header.blockSize;
      totalPayloadLength := header.totalPayloadLength;
      decodedBlocks := seq(header.blockCount, _ => None);
      GoodStart(code, View());
    }

    /** The part of a delivery that runs once the metadata has been accepted. */
    method Take(sequence: nat, payload: ByteString)
      requires Valid() && Open() && !isComplete && |payload| == blockSize
      modifies this`frames, this`graph, this`nodes, this`decodedBlocks, this`solvedCount, this`isComplete,
               this`log, nodes
      ensures Valid() && log == old(log) + {Heard(sequence, payload)} && fresh(nodes - old(nodes))
    {
      FullSetBound(Solved(), blockCount);
      if sequence in frames {
        Spend(sequence, payload);
      } else {
        TakeNew(sequence, payload);
      }
    }

    method TakeNew(sequence: nat, payload: ByteString)
      requires Ready() && |payload| == blockSize && sequence !in frames
      modifies this`frames, this`graph, this`nodes, this`decodedBlocks, this`solvedCount, this`isComplete,
               this`log, nodes
      ensures Valid() && log == old(log) + {Heard(sequence, payload)} && fresh(nodes - old(nodes))
    {
      hide Good, Linked, Lined, QueueFits, Unknown, Neighbors, Reduced;
      var node := NewNode(sequence, payload);
      if node.degree == 0 {
        Spend(sequence, payload);
      } else {
        Keep(node, payload);
        if node.degree == 1 {
          ProcessRipple(node);
        }
      }
    }

    /** A repeat, or a frame with nothing left to tell: only the log grows. */
    method Spend(sequence: nat, payload: ByteString)
      requires Ready()
      requires sequence in graph || Unknown(decodedBlocks, Neighbors(code, blockCount, sequence)) == []
      modifies this`log
      ensures Ready() && log == old(log) + {Heard(sequence, payload)}
    {
      SpentIsKnown(code, View(), sequence);
      GoodSpent(code, View(), log, Heard(sequence, payload));
      log := log + {Heard(sequence, payload)};
    }

    /** Buffers a new node; when it lists a single block it is the whole ripple queue. */
    method Keep(node: DecoderNode, payload: ByteString)
      requires Ready()
      requires node.sequenceNumber !in frames && node.degree == |node.neighbors| && node.neighbors != []
               && |payload| == blockSize
      requires node.neighbors == Unknown(decodedBlocks, Neighbors(code, blockCount, node.sequenceNumber))
      requires node.payload == Reduced(decodedBlocks, Neighbors(code, blockCount, node.sequenceNumber), payload)
      modifies this`frames, this`graph, this`nodes, this`log
      ensures nodes == old(nodes) + {node} && log == old(log) + {Heard(node.sequenceNumber, payload)}
      ensures if node.degree == 1 then Rippling([node]) else Ready()
    {
      hide Good, Unknown, Neighbors, Reduced, Lawful;
      if node.degree == 1 {
        QueueStart(graph, node.sequenceNumber, Equation(node.neighbors, node.payload));
        assert KeysOf([node]) == [node.sequenceNumber];
      }
      NewDistinct(code, blockCount, node.sequenceNumber);
      GoodInsert(code, View(), log, Heard(node.sequenceNumber, payload));
      Store(node, Insert(code, View(), Heard(node.sequenceNumber, payload)).graph, Heard(node.sequenceNumber, payload));
    }

    method Store(node: DecoderNode, ghost larger: map<nat, Equation>, ghost heard: Heard)
      requires Linked(frames, graph, nodes)
      requires node.sequenceNumber !in frames && node.degree == |node.neighbors|
      requires larger == graph[node.sequenceNumber := Equation(node.neighbors, node.payload)]
      modifies this`frames, this`graph, this`nodes, this`log
      ensures Linked(frames, graph, nodes) && frames == old(frames)[node.sequenceNumber := node]
      ensures graph == larger && nodes == old(nodes) + {node} && log == old(log) + {heard}
    {
      frames := frames[node.sequenceNumber := node];
      graph := larger;
      nodes := nodes + {node};
      log := log + {heard};
    }

    method NewNode(sequence: nat, payload: ByteString) returns (node: DecoderNode)
      requires Settling({}, 0) && |payload| == blockSize
      ensures fresh(node) && node.sequenceNumber == sequence && node.degree == |node.neighbors|
      ensures node.neighbors == Unknown(decodedBlocks, Neighbors(code, blockCount, sequence))
      ensures node.payload == Reduced(decodedBlocks, Neighbors(code, blockCount, sequence), payload)
    {
      NewDistinct(code, blockCount, sequence);
      var neighbors := Neighbors(code, blockCount, sequence);
      node := new DecoderNode(sequence, |neighbors|, neighbors, payload);
      Eliminate(node, decodedBlocks);
    }

    /** The blocks joined and cut to the declared length, or how many are missing. */
    method ReconstructPayload() returns (r: Result<ByteString, int>)
      requires Valid()
      ensures r.Success? <==> isComplete
      ensures isComplete ==> Open()
      ensures r.Success? ==> r.value == Prefix(Join(Values(decodedBlocks), blockSize), totalPayloadLength)
      ensures r.Failure? ==> r.error == blockCount - |Solved()|
    {
      if !isComplete {
        return Failure(blockCount - solvedCount);
      }
      hide Good, Linked, Closure, Join, Known, UpTo, Prefix;
      Settle();
      AllKnown(decodedBlocks);
      var full := Concatenate(decodedBlocks, blockSize);
      return Success(Prefix(full, totalPayloadLength));
    }

    /** Whatever headers arrive, the blocks of a session never take more than 64 MiB and one block. */
    lemma MemoryIsBounded()
      requires Valid() && Open()
      ensures |decodedBlocks| * blockSize <= 64 * 1024 * 1024 + blockSize
    {
      Settle();
    }

    lemma Settle()
      requires Open() && Valid()
      ensures Solved() == Closure(code, blockCount, Sequences(log))
      ensures isComplete <==> Solved() == UpTo(blockCount)
      ensures |decodedBlocks| == blockCount
    {
      QuiescentIsClosure(code, View(), log);
    }

    // ---------------------------------------------------------------- the ripple

    ghost predicate Queued(queue: seq<DecoderNode>)
      reads this, nodes
    {
      Linked(frames, graph, nodes) && Lined(frames, queue, nodes) && QueueFits(graph, KeysOf(queue))
    }

    ghost predicate Rippling(queue: seq<DecoderNode>)
      reads this, nodes
    {
      Settling({}, 0) && !isComplete && solvedCount < blockCount && Queued(queue)
    }

    method ProcessRipple(initialNode: DecoderNode)
      requires Rippling([initialNode])
      modifies this`frames, this`graph, this`decodedBlocks, this`solvedCount, this`isComplete, nodes
      ensures Valid()
    {
      var queue: seq<DecoderNode> := [initialNode];
      while |queue| > 0
        invariant Rippling(queue)
        decreases blockCount - solvedCount, |queue|
      {
        queue := RippleOnce(queue);
        if isComplete {
          return;
        }
      }
      EmptyQueue(graph);
    }

    /** One turn of the queue. */
    method RippleOnce(queue: seq<DecoderNode>) returns (longer: seq<DecoderNode>)
      requires Rippling(queue) && |queue| > 0
      modifies this`frames, this`graph, this`decodedBlocks, this`solvedCount, this`isComplete, nodes
      ensures isComplete ==> Valid()
      ensures !isComplete ==> Rippling(longer)
      // Either a block was solved or the queue is shorter.
      ensures solvedCount == old(solvedCount) + 1 || (solvedCount == old(solvedCount) && |longer| < |queue|)
    {
      var node := queue[0];
      QueuePop(graph, KeysOf(queue));
      assert KeysOf(queue)[1..] == KeysOf(queue[1..]);
      longer := queue[1..];
      if node.degree == 1 {
        SolvableIsUnknown(code, View(), log, node.sequenceNumber);
        ghost var core := View();
        ghost var order;
        longer, order := SolveAndSweep(node, longer);
        if isComplete {
          GoodLast(code, core, log, node.sequenceNumber);
        } else {
          GoodRipple(code, core, log, node.sequenceNumber, order);
        }
      }
    }

    /** Solves the block a degree-one node lists and, unless it was the last, XORs it out of every frame. */
    method SolveAndSweep(node: DecoderNode, queue: seq<DecoderNode>)
      returns (longer: seq<DecoderNode>, ghost order: seq<nat>)
      requires Open() && Linked(frames, graph, nodes) && Lined(frames, queue, nodes) && !isComplete
      requires node.sequenceNumber in frames && frames[node.sequenceNumber] == node && node.degree == 1
      requires QueueFits(graph - {node.sequenceNumber}, KeysOf(queue)) && node.sequenceNumber !in KeysOf(queue)
      requires node.neighbors[0] < |decodedBlocks| && decodedBlocks[node.neighbors[0]].None?
      requires solvedCount < blockCount && Sized(graph, blockSize)
      modifies this`frames, this`graph, this`decodedBlocks, this`solvedCount, this`isComplete, nodes
      ensures Linked(frames, graph, nodes) && solvedCount == old(solvedCount) + 1
      ensures isComplete <==> solvedCount == blockCount
      ensures isComplete ==> View() == old(Solve(View(), node.sequenceNumber)).(graph := map[])
      ensures !isComplete ==> Visits(order, old(graph).Keys - {node.sequenceNumber}) && Queued(longer)
      ensures !isComplete ==> View() == old(Rippled(View(), node.sequenceNumber, order))
    {
      hide QueueFits, SweptAll;
      var sequence, blockIndex := node.sequenceNumber, node.neighbors[0];
      longer, order := queue, [];
      if decodedBlocks[blockIndex].Some? {
        assert false; // a node of degree one never lists a solved block
      } else {
        decodedBlocks := decodedBlocks[blockIndex := Some(node.payload)];
        solvedCount := solvedCount + 1;
        frames := frames - {sequence};
        graph := graph - {sequence};
        if solvedCount == blockCount {
          isComplete := true;
          return;
        }
        longer, order := Propagate(blockIndex, node.payload, queue);
      }
    }

    /** XORs a newly solved block out of every frame that lists it, in whatever order the table is walked. */
    method Propagate(blockIndex: nat, block: ByteString, queue: seq<DecoderNode>)
      returns (longer: seq<DecoderNode>, ghost order: seq<nat>)
      requires Queued(queue) && Sized(graph, |block|)
      modifies this`frames, this`graph, nodes
      ensures Queued(longer)
      ensures graph == SweptAll(old(graph), order, blockIndex, block) && Visits(order, old(graph).Keys)
    {
      longer, order := queue, [];
      var todo := frames.Keys;
      while todo != {}
        invariant Queued(longer)
        invariant Sweeping(old(graph), order, todo, blockIndex, block, graph)
      {
        var s :| s in todo;
        SweepingStep(old(graph), order, todo, blockIndex, block, graph, s);
        longer := Sweep(s, blockIndex, block, longer);
        order := order + [s];
        todo := todo - {s};
      }
    }

    /** One entry of the table: queue the node if it is left with one neighbour. */
    method Sweep(s: nat, blockIndex: nat, block: ByteString, queue: seq<DecoderNode>) returns (longer: seq<DecoderNode>)
      requires Queued(queue) && s in frames && |graph[s].value| == |block|
      modifies this`frames, this`graph, frames[s]
      ensures Queued(longer)
      ensures graph == Swept(old(graph), s, blockIndex, block)
    {
      hide QueueFits;
      var other := frames[s];
      QueueSweep(graph, KeysOf(queue), s, blockIndex, block);
      longer := queue;
      match IndexOf(other.neighbors, blockIndex)
      case None =>
      case Some(at) =>
        RemoveFrom(s, at, block, queue);
        if other.degree == 1 {
          longer := longer + [other];
          assert KeysOf(longer) == KeysOf(queue) + [s];
        }
    }

    /** XORs the block out of one frame and deletes the frame if it is left with nothing. */
    method RemoveFrom(s: nat, at: nat, block: ByteString, ghost queue: seq<DecoderNode>)
      requires Linked(frames, graph, nodes) && Lined(frames, queue, nodes) && s in frames && |graph[s].value| == |block|
      requires at < |graph[s].left| && IndexOf(graph[s].left, graph[s].left[at]) == Some(at)
      modifies this`frames, this`graph, frames[s]
      ensures Linked(frames, graph, nodes) && Lined(frames, queue, nodes)
      ensures graph == Swept(old(graph), s, old(graph[s].left[at]), block)
      ensures old(frames[s]).degree == |old(graph)[s].left| - 1
      ensures frames == if |old(graph)[s].left| == 1 then old(frames) - {s} else old(frames)
    {
      var other := frames[s];
      other.Remove(at, block);
      graph := Swept(graph, s, graph[s].left[at], block);
      if other.degree == 0 {
        frames := frames - {s};
      }
    }
  }
}
