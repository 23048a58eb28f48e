/** The PWA's fountain decoder: written separately, bounded, and without an early exit from its ripple. */
module PwaDecoder {
  import opened Bytes
  import opened DecoderNodes
  import opened Frames
  import opened Peeling

  const MAX_SEEN_FRAMES: nat := 131_072
  const MAX_UNSOLVED_BYTES: nat := 16 * 1024 * 1024

  datatype Outcome = Accepted | Duplicate | Complete
  datatype ReceiveError = SessionMismatch | InvalidFrame | ConflictingDuplicate | ResourceLimitExceeded
  type Answer = Result<Outcome, ReceiveError>

  /** A parsed frame together with the hash the parser took of its raw bytes. */
  datatype DeqrFrame = DeqrFrame(header: FrameHeader, payload: ByteString, fingerprint: nat)

  predicate SameShape(a: FrameHeader, b: FrameHeader) {
    a.blockCount == b.blockCount && a.blockSize == b.blockSize && a.totalPayloadLength == b.totalPayloadLength
  }

  /** What a floor division tells about a product. */
  lemma QuotientFits(room: nat, size: nat, n: nat)
    requires size > 0
    ensures n <= room / size <==> n * size <= room
  {
    var q := room / size;
    assert room == q * size + room % size;
    if n <= q {
      ProductGrows(n, q, size);
    } else {
      ProductGrows(q + 1, n, size);
    }
  }

  lemma ProductGrows(a: nat, b: nat, size: nat)
    requires a <= b
    ensures a * size <= b * size
  {
  }

  class FountainDecoder {
    const code: Code

    var header: Option<FrameHeader>
    var unsolved: map<nat, DecoderNode>
    var seen: map<nat, nat>
    var blocks: seq<Option<ByteString>>
    var solved: nat

    /** The equations `unsolved` holds, the nodes that may be in it, the frames taken in, and the
        sequence numbers whose frames were thrown away for want of buffer space. */
    ghost var graph: map<nat, Equation>
    ghost var nodes: set<DecoderNode>
    ghost var log: set<Heard>
    ghost var dropped: set<nat>

    ghost predicate Open()
      reads this`header
    {
      header.Some? && header.value.blockCount > 0 && header.value.blockSize > 0
    }

    ghost function Solved(): set<nat>
      reads this`blocks
    {
      Known(blocks)
    }

    /** Every sequence number dealt with, one way or the other. */
    ghost function Taken(): set<nat>
      reads this`log, this`dropped
    {
      Sequences(log) + dropped
    }

    ghost function View(): Core
      reads this`header, this`graph, this`blocks
      requires Open()
    {
      Core(header.value.blockCount, header.value.blockSize, graph, blocks)
    }

    ghost predicate Settling(stale: set<nat>, b: nat)
      reads this`header, this`graph, this`blocks, this`solved, this`log
    {
      && Open() && Lawful(code)
      && Good(code, View(), log, stale, b)
      && solved == |Solved()|
    }

    ghost predicate Valid()
      reads this, nodes
    {
      && Lawful(code)
      && seen.Keys == Taken()
      && (header.None? ==>
            Linked(unsolved, graph, nodes) && unsolved == map[] && seen == map[] && blocks == [] && solved == 0
            && log == {} && dropped == {})
      && (header.Some? ==> Ready() && Bounded())
    }

    /** What one transfer may make the decoder hold. */
    ghost predicate Bounded()
      reads this`header, this`seen, this`unsolved
      requires Open()
    {
      |seen| <= MaximumSeenFrames() && |unsolved| <= MaximumUnsolvedFrames()
    }

    constructor (code: Code)
      requires Lawful(code)
      ensures Valid() && header.None? && this.code == code && nodes == {} && seen == map[] && dropped == {}
    {
      this.code := code;
      header, unsolved, seen, blocks, solved := None, map[], map[], [], 0;
      graph, nodes, log, dropped := map[], {}, {}, {};
    }

    function MaximumSeenFrames(): nat
      reads this`header
      requires header.Some?
    {
      var k := header.value.blockCount;
      var wanted := k + (if k > 1024 then k else 1024);
      if wanted < MAX_SEEN_FRAMES then wanted else MAX_SEEN_FRAMES
    }

    function MaximumUnsolvedFrames(): nat
      reads this`header
      requires Open()
    {
      var fit := MAX_UNSOLVED_BYTES / header.value.blockSize;
      if fit > 1 then fit else 1
    }

    /** The buffer is full, and the frame would have to wait in it for a block that is still missing. */
    ghost predicate NoRoom(sequence: nat)
      reads this`header, this`unsolved, this`blocks
      requires Open()
    {
      && |unsolved| >= MaximumUnsolvedFrames()
      && exists b :: b in Neighbors(code, header.value.blockCount, sequence) && b !in Solved()
    }

    /** Why a frame would be refused, if it would be. The first frame of all never is. */
    ghost function Refusal(frame: DeqrFrame): Option<ReceiveError>
      reads this, nodes
      requires Valid()
    {
      var sequence := frame.header.sequenceNumber;
      if header.None? then None
      else if header.value.sessionId != frame.header.sessionId then Some(SessionMismatch)
      else if !SameShape(header.value, frame.header) then Some(InvalidFrame)
      else if sequence in seen then (if seen[sequence] == frame.fingerprint then None else Some(ConflictingDuplicate))
      else if |seen| >= MaximumSeenFrames() || NoRoom(sequence) then Some(ResourceLimitExceeded)
      else None
    }

    /** The answer a frame is owed. What peeling can reach with it decides whether that completes the transfer. */
    ghost function AnswerTo(frame: DeqrFrame): Answer
      reads this, nodes
      requires Valid()
    {
      var sequence, refusal := frame.header.sequenceNumber, Refusal(frame);
      var k := if header.Some? then header.value.blockCount else frame.header.blockCount;
      if refusal.Some? then Failure(refusal.value)
      else if sequence in seen then Success(Duplicate)
      else if Closure(code, k, Sequences(log + {Heard(sequence, frame.payload)})) == UpTo(k) then Success(Complete)
      else Success(Accepted)
    }

    method Receive(frame: DeqrFrame) returns (r: Result<Outcome, ReceiveError>)
      requires Valid()
      requires |frame.payload| == frame.header.blockSize > 0 && frame.header.blockCount > 0
      modifies this, nodes
      ensures Valid() && fresh(nodes - old(nodes))
      ensures header == if old(header).Some? then old(header) else Some(frame.header)
      ensures r == old(AnswerTo(frame))
      // A session is never mixed with another, and a refused frame leaves it alone.
      ensures r.Failure? ==> log == old(log) && solved == old(solved) && (old(header).Some? ==> blocks == old(blocks))
      ensures r == Success(Duplicate) || (r.Failure? && r.error != ResourceLimitExceeded) ==> unchanged(this)
      ensures r.Success? && r.value != Duplicate ==>
                log == old(log) + {Heard(frame.header.sequenceNumber, frame.payload)}
      ensures r.Success? ==> dropped == old(dropped) && seen.Keys == old(seen.Keys) + {frame.header.sequenceNumber}
      ensures r.Success? ==> seen == old(seen)[frame.header.sequenceNumber := frame.fingerprint]
      // The solved blocks are what peeling can reach, and nothing else.
      ensures Solved() == Closure(code, header.value.blockCount, Sequences(log))
    {
      hide Linked, Sequences, Closure, UpTo, FountainDecoder.Ready, FountainDecoder.Taken, FountainDecoder.Solved,
           FountainDecoder.NoRoom, FountainDecoder.Refusal, FountainDecoder.AnswerTo, SameShape;
      AnswerCases(frame);
      var refused := Enter(frame.header);
      RoomWhenEmpty(frame.header.sequenceNumber);
      if refused.Some? {
        Settle();
        return Failure(refused.value);
      }
      r := Record(frame.header.sequenceNumber, frame.payload, frame.fingerprint);
      Settle();
    }

    lemma AnswerCases(frame: DeqrFrame)
      requires Valid()
      ensures var (sequence, answer) := (frame.header.sequenceNumber, AnswerTo(frame));
              var k := if header.Some? then header.value.blockCount else frame.header.blockCount;
              var all := Closure(code, k, Sequences(log + {Heard(sequence, frame.payload)})) == UpTo(k);
              if header.Some? && header.value.sessionId != frame.header.sessionId then
                answer == Failure(SessionMismatch)
              else if header.Some? && !SameShape(header.value, frame.header) then answer == Failure(InvalidFrame)
              else if sequence in seen then
                answer == if seen[sequence] == frame.fingerprint then Success(Duplicate)
                          else Failure(ConflictingDuplicate)
              else if header.Some? && (|seen| >= MaximumSeenFrames() || NoRoom(sequence)) then
                answer == Failure(ResourceLimitExceeded)
              else answer == Success(if all then Complete else Accepted)
    {
    }

    /** What an answer tells of the frame that got it. */
    lemma AnswerMeans(frame: DeqrFrame)
      requires Valid()
      ensures var (sequence, answer) := (frame.header.sequenceNumber, AnswerTo(frame));
              var own := header.Some? ==>
                header.value.sessionId == frame.header.sessionId && SameShape(header.value, frame.header);
              && (answer in {Failure(SessionMismatch), Failure(InvalidFrame)} <==> !own)
              && (answer in {Failure(ConflictingDuplicate), Success(Duplicate)} <==> own && sequence in seen)
    {
      hide FountainDecoder.NoRoom, FountainDecoder.MaximumSeenFrames, Closure, UpTo;
    }

    lemma OwnSessionMatches(frame: DeqrFrame)
      requires Valid() && (header.Some? ==> header.value.sessionId == frame.header.sessionId)
      ensures AnswerTo(frame) != Failure(SessionMismatch)
    {
      hide FountainDecoder.NoRoom, Closure;
    }

    lemma RoomWhenEmpty(sequence: nat)
      requires Valid() && header.Some?
      ensures unsolved == map[] ==> !NoRoom(sequence)
    {
    }

    /** The limits bound what one transfer may hold: its bookkeeping, and the bytes of the frames that wait. */
    lemma MemoryIsBounded()
      requires Valid() && header.Some?
      ensures |seen| <= 131_072
      ensures |unsolved| <= 1 || |unsolved| * header.value.blockSize <= 16 * 1024 * 1024
    {
      var size := header.value.blockSize;
      QuotientFits(MAX_UNSOLVED_BYTES, size, |unsolved|);
    }

    /** Yet they refuse only a new frame of a transfer that has already heard 1024 frames more than it has blocks, or
        holds so many waiting frames that one more would not fit in 16 MiB. */
    lemma RefusedOnlyForRoom(frame: DeqrFrame)
      requires Valid() && (header.Some? ==> header.value.blockCount <= 65535)
      ensures AnswerTo(frame) == Failure(ResourceLimitExceeded) ==>
                && header.Some? && header.value.sessionId == frame.header.sessionId
                && SameShape(header.value, frame.header) && frame.header.sequenceNumber !in seen
                && (|| |seen| >= header.value.blockCount + 1024
                    || (unsolved != map[] && (|unsolved| + 1) * header.value.blockSize > 16 * 1024 * 1024))
    {
      hide Linked, Good, FountainDecoder.Taken, Closure;
      if header.Some? {
        RoomWhenEmpty(frame.header.sequenceNumber);
        QuotientFits(MAX_UNSOLVED_BYTES, header.value.blockSize, |unsolved| + 1);
      }
    }

    /** Source blocks' own frames never wait. */
    lemma SystematicFramesNeverWait()
      requires Valid() && header.Some? && forall n :: n in seen ==> n < header.value.blockCount
      ensures unsolved == map[]
    {
      hide Good;
      UnsolvedWereSeen();
      if s :| s in unsolved {
        SystematicListsOne(code, View(), log, s);
        assert false;
      }
    }

    /** Adopts the first frame's metadata; after that, refuses metadata that differs. */
    method Enter(offered: FrameHeader) returns (refused: Option<ReceiveError>)
      requires Valid() && offered.blockCount > 0 && offered.blockSize > 0
      modifies this`header, this`blocks
      ensures Valid() && header == if old(header).Some? then old(header) else Some(offered)
      ensures refused == (
                if header.value.sessionId != offered.sessionId then Some(SessionMismatch)
                else if !SameShape(header.value, offered) then Some(InvalidFrame) else None)
      ensures refused.None? ==> header.value.blockSize == offered.blockSize
      ensures old(header).Some? ==> unchanged(this)
      ensures old(header).None? ==> refused.None? && solved == 0
    {
      if header.None? {
        Begin(offered);
      } else if header.value.sessionId != offered.sessionId {
        return Some(SessionMismatch);
      } else if !SameShape(header.value, offered) {
        return Some(InvalidFrame);
      }
      return None;
    }

    /** The part of a delivery that runs once the metadata has been accepted. */
    method Record(sequence: nat, payload: ByteString, fingerprint: nat) returns (r: Result<Outcome, ReceiveError>)
      requires Valid() && header.Some? && |payload| == header.value.blockSize
      modifies this`unsolved, this`seen, this`graph, this`nodes, this`blocks, this`solved, this`log, this`dropped, nodes
      ensures Valid() && fresh(nodes - old(nodes))
      ensures r.Failure? ==> log == old(log) && blocks == old(blocks) && solved == old(solved)
      ensures r.Failure? ==> r.error == ConflictingDuplicate || r.error == ResourceLimitExceeded
      ensures r == Failure(ConflictingDuplicate) || r == Success(Duplicate) ==> unchanged(this)
      ensures r == Failure(ConflictingDuplicate) <==> sequence in old(seen) && old(seen)[sequence] != fingerprint
      ensures r == Success(Duplicate) <==> sequence in old(seen) && old(seen)[sequence] == fingerprint
      ensures r == Failure(ResourceLimitExceeded) <==>
                sequence !in old(seen) && (|old(seen)| >= MaximumSeenFrames() || old(NoRoom(sequence)))
      ensures r.Success? && r.value != Duplicate ==> log == old(log) + {Heard(sequence, payload)}
      ensures r.Success? && r.value != Duplicate ==> (r.value == Complete <==> solved == |blocks|)
      ensures r.Success? ==> dropped == old(dropped) && seen.Keys == old(seen.Keys) + {sequence}
      ensures r.Success? ==> seen == old(seen)[sequence := fingerprint]
    {
      hide Linked, Sequences, Closure, UpTo, FountainDecoder.Ready, FountainDecoder.Taken, FountainDecoder.Solved,
           FountainDecoder.NoRoom;
      if sequence in seen {
        return if seen[sequence] != fingerprint then Failure(ConflictingDuplicate) else Success(Duplicate);
      }
      if |seen| >= MaximumSeenFrames() {
        return Failure(ResourceLimitExceeded);
      }
      var kept := Admit(sequence, payload, fingerprint);
      if !kept {
        return Failure(ResourceLimitExceeded);
      }
      return Success(if solved == |blocks| then Complete else Accepted);
    }

    /** Remembers a new sequence number and takes its frame in; false when there is no room to buffer it. */
    method Admit(sequence: nat, payload: ByteString, fingerprint: nat) returns (kept: bool)
      requires Valid() && header.Some? && |payload| == header.value.blockSize && sequence !in seen
      requires |seen| < MaximumSeenFrames()
      modifies this`unsolved, this`seen, this`graph, this`nodes, this`blocks, this`solved, this`log, this`dropped, nodes
      ensures Valid() && fresh(nodes - old(nodes)) && seen == old(seen)[sequence := fingerprint]
      ensures kept ==> log == old(log) + {Heard(sequence, payload)} && dropped == old(dropped)
      ensures kept <==> !old(NoRoom(sequence))
      ensures !kept ==> log == old(log) && blocks == old(blocks) && solved == old(solved)
    {
      hide Linked, Sequences, Lawful, FountainDecoder.Ready, FountainDecoder.Taken, FountainDecoder.NoRoom,
           FountainDecoder.MaximumUnsolvedFrames, FountainDecoder.MaximumSeenFrames, FountainDecoder.Solved;
      UnsolvedWereSeen();
      seen := seen[sequence := fingerprint];
      assert seen.Keys == old(seen).Keys + {sequence};
      kept := Take(sequence, payload);
    }

    lemma UnsolvedWereSeen()
      requires Valid() && header.Some?
      ensures unsolved.Keys <= seen.Keys
    {
    }

    method Begin(first: FrameHeader)
      requires Valid() && header.None? && first.blockCount > 0 && first.blockSize > 0
      modifies this`header, this`blocks
      ensures Valid() && header == Some(first) && solved == 0 && Solved() == {}
    {
      header := Some(first);
      blocks := seq(first.blockCount, _ => None);
      GoodStart(code, View());
    }

    lemma Settle()
      requires Valid() && header.Some?
      ensures Solved() == Closure(code, header.value.blockCount, Sequences(log))
      ensures solved == |blocks| <==> Solved() == UpTo(header.value.blockCount)
      ensures |blocks| == header.value.blockCount
    {
      QuiescentIsClosure(code, View(), log);
    }

    /** While no frame was thrown away, what has been seen decides what is solved. */
    lemma ArrivalsDecide()
      requires Valid() && header.Some? && dropped == {}
      ensures Solved() == Closure(code, header.value.blockCount, seen.Keys)
      ensures solved == |blocks| <==> Closure(code, header.value.blockCount, seen.Keys) == UpTo(header.value.blockCount)
    {
      Settle();
      assert seen.Keys == Sequences(log);
    }

    /** Everything except the `seen` table, which already lists the new sequence number. */
    ghost predicate Ready()
      reads this`header, this`unsolved, this`graph, this`nodes, this`blocks, this`solved, this`log, nodes
    {
      Settling({}, 0) && Linked(unsolved, graph, nodes) && forall s :: s in graph ==> |graph[s].left| >= 2
    }

    /** Eliminates, buffers and ripples one new frame; false when there is no room to buffer it. */
    method Take(sequence: nat, payload: ByteString) returns (kept: bool)
      requires Ready() && |payload| == header.value.blockSize && sequence !in unsolved
      requires |unsolved| <= MaximumUnsolvedFrames()
      modifies this`unsolved, this`graph, this`nodes, this`blocks, this`solved, this`log, this`dropped, nodes
      ensures Ready() && |unsolved| <= MaximumUnsolvedFrames() && fresh(nodes - old(nodes))
      ensures kept ==> log == old(log) + {Heard(sequence, payload)} && dropped == old(dropped)
      ensures Taken() == old(Taken()) + {sequence}
      ensures kept <==> !old(NoRoom(sequence))
      ensures !kept ==>
                log == old(log) && dropped == old(dropped) + {sequence} && blocks == old(blocks)
                && solved == old(solved)
    {
      hide Good, Linked, Lined, QueueFits, Unknown, Neighbors, Reduced, Sequences, Lawful,
           FountainDecoder.MaximumUnsolvedFrames;
      OneMoreSequence(log, Heard(sequence, payload));
      kept := true;
      SomethingUnknown(sequence);
      var node := NewNode(sequence, payload);
      if |node.neighbors| == 0 {
        node.Wipe();
        Spend(sequence, payload);
      } else if |unsolved| >= MaximumUnsolvedFrames() {
        node.Wipe();
        dropped := dropped + {sequence};
        kept := false;
      } else {
        Keep(node, payload);
        if |node.neighbors| == 1 {
          Ripple(node);
        }
      }
    }

    lemma SomethingUnknown(sequence: nat)
      requires Settling({}, 0)
      ensures Unknown(blocks, Neighbors(code, header.value.blockCount, sequence)) != []
         <==> exists b :: b in Neighbors(code, header.value.blockCount, sequence) && b !in Solved()
    {
      var around := Neighbors(code, header.value.blockCount, sequence);
      NewDistinct(code, header.value.blockCount, sequence);
      UnknownIsResidual(blocks, around);
      var unknown := Unknown(blocks, around);
      if unknown != [] {
        assert unknown[0] in unknown;
      }
    }

    /** A frame with nothing left to tell: only the log grows. */
    method Spend(sequence: nat, payload: ByteString)
      requires Ready()
      requires Unknown(blocks, Neighbors(code, header.value.blockCount, sequence)) == []
      modifies this`log
      ensures Ready() && log == old(log) + {Heard(sequence, payload)}
    {
      SpentIsKnown(code, View(), sequence);
      GoodSpent(code, View(), log, Heard(sequence, payload));
      log := log + {Heard(sequence, payload)};
    }

    /** Buffers a new node; when it lists a single block it is the whole ripple queue. */
    method Keep(node: DecoderNode, payload: ByteString)
      requires Ready() && |payload| == header.value.blockSize
      requires node.sequenceNumber !in unsolved && node.degree == |node.neighbors| && node.neighbors != []
      requires node.neighbors == Unknown(blocks, Neighbors(code, header.value.blockCount, node.sequenceNumber))
      requires node.payload == Reduced(blocks, Neighbors(code, header.value.blockCount, node.sequenceNumber), payload)
      modifies this`unsolved, this`graph, this`nodes, this`log
      ensures nodes == old(nodes) + {node} && log == old(log) + {Heard(node.sequenceNumber, payload)}
      ensures unsolved == old(unsolved)[node.sequenceNumber := node]
      ensures if |node.neighbors| == 1 then Settling({}, 0) && Queued([node]) else Ready()
    {
      hide Good, Unknown, Neighbors, Reduced, Lawful;
      if |node.neighbors| == 1 {
        QueueStart(graph, node.sequenceNumber, Equation(node.neighbors, node.payload));
        assert KeysOf([node]) == [node.sequenceNumber];
      }
      NewDistinct(code, header.value.blockCount, node.sequenceNumber);
      GoodInsert(code, View(), log, Heard(node.sequenceNumber, payload));
      Store(node, Insert(code, View(), Heard(node.sequenceNumber, payload)).graph, Heard(node.sequenceNumber, payload));
    }

    method NewNode(sequence: nat, payload: ByteString) returns (node: DecoderNode)
      requires Settling({}, 0) && |payload| == header.value.blockSize
      ensures fresh(node) && node.sequenceNumber == sequence && node.degree == |node.neighbors|
      ensures node.neighbors == Unknown(blocks, Neighbors(code, header.value.blockCount, sequence))
      ensures node.payload == Reduced(blocks, Neighbors(code, header.value.blockCount, sequence), payload)
    {
      NewDistinct(code, header.value.blockCount, sequence);
      var neighbors := Neighbors(code, header.value.blockCount, sequence);
      node := new DecoderNode(sequence, |neighbors|, neighbors, payload);
      Eliminate(node, blocks);
    }

    method Store(node: DecoderNode, ghost larger: map<nat, Equation>, ghost heard: Heard)
      requires Linked(unsolved, graph, nodes)
      requires node.sequenceNumber !in unsolved && node.degree == |node.neighbors|
      requires larger == graph[node.sequenceNumber := Equation(node.neighbors, node.payload)]
      modifies this`unsolved, this`graph, this`nodes, this`log
      ensures Linked(unsolved, graph, nodes) && unsolved == old(unsolved)[node.sequenceNumber := node]
      ensures graph == larger && nodes == old(nodes) + {node} && log == old(log) + {heard}
    {
      unsolved := unsolved[node.sequenceNumber := node];
      graph := larger;
      nodes := nodes + {node};
      log := log + {heard};
    }

    // ---------------------------------------------------------------- the ripple

    ghost predicate Queued(queue: seq<DecoderNode>)
      reads this, nodes
    {
      Linked(unsolved, graph, nodes) && Lined(unsolved, queue, nodes) && QueueFits(graph, KeysOf(queue))
    }

    method Ripple(initial: DecoderNode)
      requires Settling({}, 0) && Queued([initial])
      modifies this`unsolved, this`graph, this`blocks, this`solved, nodes
      ensures Ready() && |unsolved| <= |old(unsolved)|
    {
      FullSetBound(Solved(), |blocks|);
      var queue: seq<DecoderNode> := [initial];
      while |queue| > 0
        invariant Settling({}, 0) && Queued(queue) && solved <= |blocks| && unsolved.Keys <= old(unsolved).Keys
        decreases |blocks| - solved, |queue|
      {
        queue := RippleOnce(queue);
      }
      EmptyQueue(graph);
      SubsetSize(unsolved.Keys, old(unsolved).Keys);
    }

    method RippleOnce(queue: seq<DecoderNode>) returns (longer: seq<DecoderNode>)
      requires Settling({}, 0) && Queued(queue) && |queue| > 0
      modifies this`unsolved, this`graph, this`blocks, this`solved, nodes
      ensures Settling({}, 0) && Queued(longer) && |blocks| == old(|blocks|) && unsolved.Keys <= old(unsolved).Keys
      ensures solved == old(solved) + 1 <= |blocks| || (solved == old(solved) && |longer| < |queue|)
    {
      var node := queue[0];
      QueuePop(graph, KeysOf(queue));
      assert KeysOf(queue)[1..] == KeysOf(queue[1..]);
      longer := queue[1..];
      if |node.neighbors| == 1 {
        ghost var core := View();
        SolvableIsUnknown(code, core, log, node.sequenceNumber);
        ghost var order;
        longer, order := SolveAndSweep(node, longer);
        GoodRipple(code, core, log, node.sequenceNumber, order);
        RippledShrinks(core, node.sequenceNumber, order);
      }
    }

    /** Solves the block a degree-one node lists and XORs it out of every frame, even if it was the last. */
    method SolveAndSweep(node: DecoderNode, queue: seq<DecoderNode>)
      returns (longer: seq<DecoderNode>, ghost order: seq<nat>)
      requires Open() && Linked(unsolved, graph, nodes) && Lined(unsolved, queue, nodes)
      requires node.sequenceNumber in unsolved && unsolved[node.sequenceNumber] == node && |node.neighbors| == 1
      requires QueueFits(graph - {node.sequenceNumber}, KeysOf(queue)) && node.sequenceNumber !in KeysOf(queue)
      requires node.neighbors[0] < |blocks| && blocks[node.neighbors[0]].None?
      requires Sized(graph, header.value.blockSize)
      modifies this`unsolved, this`graph, this`blocks, this`solved, nodes
      ensures solved == old(solved) + 1
      ensures Visits(order, old(graph).Keys - {node.sequenceNumber}) && Queued(longer)
      ensures View() == old(Rippled(View(), node.sequenceNumber, order))
    {
      hide QueueFits, SweptAll;
      var sequence, index := node.sequenceNumber, node.neighbors[0];
      longer, order := queue, [];
      if blocks[index].Some? {
        assert false; // a node with one neighbour never lists a solved block
      } else {
        var block := node.payload;
        blocks := blocks[index := Some(block)];
        solved := solved + 1;
        unsolved := unsolved - {sequence};
        graph := graph - {sequence};
        node.Wipe();
        longer, order := Propagate(index, block, queue);
      }
    }

    method Propagate(index: nat, block: ByteString, queue: seq<DecoderNode>)
      returns (longer: seq<DecoderNode>, ghost order: seq<nat>)
      requires Queued(queue) && Sized(graph, |block|)
      modifies this`unsolved, this`graph, nodes
      ensures Queued(longer)
      ensures graph == SweptAll(old(graph), order, index, block) && Visits(order, old(graph).Keys)
    {
      longer, order := queue, [];
      var todo := unsolved.Keys;
      while todo != {}
        invariant Queued(longer)
        invariant Sweeping(old(graph), order, todo, index, block, graph)
      {
        var s :| s in todo;
        SweepingStep(old(graph), order, todo, index, block, graph, s);
        longer := Sweep(s, index, block, longer);
        order := order + [s];
        todo := todo - {s};
      }
    }

    method Sweep(s: nat, index: nat, block: ByteString, queue: seq<DecoderNode>) returns (longer: seq<DecoderNode>)
      requires Queued(queue) && s in unsolved && |graph[s].value| == |block|
      modifies this`unsolved, this`graph, unsolved[s]
      ensures Queued(longer)
      ensures graph == Swept(old(graph), s, index, block)
    {
      hide QueueFits;
      var other := unsolved[s];
      QueueSweep(graph, KeysOf(queue), s, index, block);
      longer := queue;
      match IndexOf(other.neighbors, index)
      case None =>
      case Some(position) =>
        RemoveFrom(s, position, block, queue);
        if |other.neighbors| == 1 {
          longer := longer + [other];
          assert KeysOf(longer) == KeysOf(queue) + [s];
        }
    }

    method RemoveFrom(s: nat, position: nat, block: ByteString, ghost queue: seq<DecoderNode>)
      requires Linked(unsolved, graph, nodes) && Lined(unsolved, queue, nodes) && s in unsolved
               && |graph[s].value| == |block|
      requires position < |graph[s].left| && IndexOf(graph[s].left, graph[s].left[position]) == Some(position)
      modifies this`unsolved, this`graph, unsolved[s]
      ensures Linked(unsolved, graph, nodes) && Lined(unsolved, queue, nodes)
      ensures graph == Swept(old(graph), s, old(graph[s].left[position]), block)
      ensures |old(unsolved[s]).neighbors| == |old(graph)[s].left| - 1
      ensures unsolved == if |old(graph)[s].left| == 1 then old(unsolved) - {s} else old(unsolved)
    {
      hide IndexOf, Linked, Lined;
      XorOut(s, position, block, queue);
      if |unsolved[s].neighbors| == 0 {
        Delete(s, queue);
      }
    }

    /** Drops a frame with nothing left to tell. */
    method Delete(s: nat, ghost queue: seq<DecoderNode>)
      requires Linked(unsolved, graph, nodes) && Lined(unsolved, queue, nodes)
      requires s in unsolved && |unsolved[s].neighbors| == 0
      modifies this`unsolved, this`graph, unsolved[s]
      ensures Linked(unsolved, graph, nodes) && Lined(unsolved, queue, nodes)
      ensures unsolved == old(unsolved) - {s} && graph == old(graph) - {s}
      ensures old(unsolved[s]).neighbors == []
    {
      var node := unsolved[s];
      unsolved := unsolved - {s};
      graph := graph - {s};
      node.Wipe();
    }

    /** XORs the block out of one frame that lists it. */
    method XorOut(s: nat, position: nat, block: ByteString, ghost queue: seq<DecoderNode>)
      requires Linked(unsolved, graph, nodes) && Lined(unsolved, queue, nodes) && s in unsolved
      requires |graph[s].value| == |block| && position < |graph[s].left|
      modifies this`graph, unsolved[s]
      ensures Linked(unsolved, graph, nodes) && Lined(unsolved, queue, nodes)
      ensures graph == old(graph)[s := Spliced(old(graph)[s], position, block)]
      ensures unsolved[s].neighbors == graph[s].left
    {
      unsolved[s].Remove(position, block);
      graph := graph[s := Spliced(graph[s], position, block)];
    }

    /** The recovered blocks joined and cut to the declared length; None while any is missing. */
    method Reconstruct() returns (r: Option<ByteString>)
      requires Valid()
      ensures r.Some? <==> header.Some? && Solved() == UpTo(header.value.blockCount)
      ensures r.Some? ==> r.value == Prefix(Join(Values(blocks), header.value.blockSize),
                                            header.value.totalPayloadLength)
    {
      hide Good, Linked, Closure, Join;
      if header.None? || solved != |blocks| {
        if header.Some? {
          Settle();
        }
        return None;
      }
      Settle();
      AllKnown(blocks);
      var joined := Concatenate(blocks, header.value.blockSize);
      return Some(Prefix(joined, header.value.totalPayloadLength));
    }
  }
}
