/** What the fountain code is for: both decoders, fed any selection of one encoder's frames in any order. */
module FountainCode {
  import opened Bytes
  import opened DecoderNodes
  import opened FountainEncoders
  import opened Frames
  import opened Peeling
  import Desktop = DesktopDecoder
  import Pwa = PwaDecoder

  /** The log holds nothing but frames of this payload's encoder. */
  ghost predicate Delivered(code: Code, payload: ByteString, size: nat, log: set<Heard>)
    requires size > 0
  {
    forall h :: h in log ==> h.payload == Encoded(code, payload, size, h.sequence)
  }

  lemma DeliveredIsExplained(code: Code, payload: ByteString, size: nat, log: set<Heard>)
    requires size > 0 && Delivered(code, payload, size, log)
    ensures Explains(code, CeilDiv(|payload|, size), size, log, Split(payload, CeilDiv(|payload|, size), size))
  {
  }

  /** A core that is truthful about a delivered log holds the payload's own blocks. */
  lemma TruthfulBlocks(code: Code, core: Core, log: set<Heard>, payload: ByteString)
    requires core.size > 0 && core.k == CeilDiv(|payload|, core.size)
    requires Good(code, core, log, {}, 0) && Delivered(code, payload, core.size, log)
    ensures forall b :: b in Known(core.blocks) ==> core.blocks[b].value == PaddedBlock(payload, b, core.size)
    ensures Known(core.blocks) == UpTo(core.k) ==> Prefix(Join(Values(core.blocks), core.size), |payload|) == payload
  {
    hide Join, Prefix, Delivered;
    var source := Split(payload, core.k, core.size);
    DeliveredIsExplained(code, payload, core.size, log);
    assert Agrees(core, source);
    if Known(core.blocks) == UpTo(core.k) {
      AllHeld(core, source);
      CeilDivCovers(|payload|, core.size);
      JoinSplit(payload, core.k, core.size);
    }
  }

  lemma AllHeld(core: Core, source: seq<ByteString>)
    requires Agrees(core, source) && |core.blocks| == core.k == |source| && Known(core.blocks) == UpTo(core.k)
    requires forall b :: 0 <= b < |source| ==> |source[b]| == core.size
    ensures Values(core.blocks) == source
  {
    forall b | 0 <= b < core.k
      ensures Values(core.blocks)[b] == source[b]
    {
      assert b in Known(core.blocks);
    }
  }

  /** Any delivery of an encoder's frames, however lossy, repeated or reordered, decodes to its blocks;
      a complete decoder reconstructs exactly its payload. */
  lemma DesktopDecodes(d: Desktop.FountainDecoder, payload: ByteString)
    requires d.Valid() && d.Open() && d.blockSize > 0
    requires d.blockCount == CeilDiv(|payload|, d.blockSize) && d.totalPayloadLength == |payload|
    requires Delivered(d.code, payload, d.blockSize, d.log)
    ensures forall b :: b in d.Solved() ==> d.decodedBlocks[b].value == PaddedBlock(payload, b, d.blockSize)
    ensures d.isComplete ==> Prefix(Join(Values(d.decodedBlocks), d.blockSize), d.totalPayloadLength) == payload
  {
    TruthfulBlocks(d.code, d.View(), d.log, payload);
    if d.isComplete {
      d.Settle();
    }
  }

  lemma PwaDecodes(p: Pwa.FountainDecoder, payload: ByteString)
    requires p.Valid() && p.header.Some?
    requires p.header.value.blockSize > 0 && p.header.value.blockCount == CeilDiv(|payload|, p.header.value.blockSize)
    requires p.header.value.totalPayloadLength == |payload|
    requires Delivered(p.code, payload, p.header.value.blockSize, p.log)
    ensures forall b :: b in p.Solved() ==> p.blocks[b].value == PaddedBlock(payload, b, p.header.value.blockSize)
    ensures p.solved == |p.blocks| ==>
              Prefix(Join(Values(p.blocks), p.header.value.blockSize), p.header.value.totalPayloadLength) == payload
  {
    TruthfulBlocks(p.code, p.View(), p.log, payload);
    p.Settle();
  }

  // ---------------------------------------------------------------- what arrived decides what is solved

  /** Which blocks are solved, and whether decoding is complete, depend only on which frames arrived: not on their
      order, their repeats, or on when the decoder stopped listening. */
  lemma OrderDoesNotMatter(d: Desktop.FountainDecoder, e: Desktop.FountainDecoder)
    requires d.Valid() && d.Open() && d.Listens() && e.Valid() && e.Open() && e.Listens()
    requires d.code == e.code && d.blockCount == e.blockCount && d.arrived == e.arrived
    ensures d.Solved() == e.Solved() && d.isComplete == e.isComplete
  {
    d.ArrivalsDecide();
    e.ArrivalsDecide();
  }

  /** More arrivals never solve less. */
  lemma MoreFramesSolveMore(d: Desktop.FountainDecoder, e: Desktop.FountainDecoder)
    requires d.Valid() && d.Open() && d.Listens() && e.Valid() && e.Open() && e.Listens()
    requires d.code == e.code && d.blockCount == e.blockCount && d.arrived <= e.arrived
    ensures d.Solved() <= e.Solved() && (d.isComplete ==> e.isComplete)
  {
    d.ArrivalsDecide();
    e.ArrivalsDecide();
    ClosureGrows(d.code, d.blockCount, d.arrived, e.arrived);
  }

  /** The two decoders agree, block for block, on the same arrivals, while the PWA has thrown nothing away. */
  lemma DecodersAgree(d: Desktop.FountainDecoder, p: Pwa.FountainDecoder, source: seq<ByteString>)
    requires d.Valid() && d.Open() && d.Listens() && p.Valid() && p.header.Some? && p.dropped == {}
    requires d.code == p.code && d.blockCount == p.header.value.blockCount && d.blockSize == p.header.value.blockSize
    requires d.arrived == p.seen.Keys
    ensures d.Solved() == p.Solved()
    ensures d.isComplete <==> p.solved == |p.blocks|
    ensures Explains(d.code, d.blockCount, d.blockSize, d.log, source)
            && Explains(d.code, d.blockCount, d.blockSize, p.log, source) ==>
              d.decodedBlocks == p.blocks
  {
    hide Good, Linked, Closure;
    d.ArrivalsDecide();
    p.ArrivalsDecide();
    SameBlocks(d.code, d.View(), d.log, p.View(), p.log, source);
  }

  lemma SameBlocks(code: Code, c: Core, cLog: set<Heard>, d: Core, dLog: set<Heard>, source: seq<ByteString>)
    requires Good(code, c, cLog, {}, 0) && Good(code, d, dLog, {}, 0) && c.k == d.k && c.size == d.size
    requires Known(c.blocks) == Known(d.blocks)
    ensures Explains(code, c.k, c.size, cLog, source) && Explains(code, c.k, c.size, dLog, source) ==>
              c.blocks == d.blocks
  {
    if Explains(code, c.k, c.size, cLog, source) && Explains(code, c.k, c.size, dLog, source) {
      assert Agrees(c, source) && Agrees(d, source);
      forall b | 0 <= b < c.k
        ensures c.blocks[b] == d.blocks[b]
      {
        assert b in Known(c.blocks) <==> b in Known(d.blocks);
      }
    }
  }

  /** The arrival of every source block's own frame is enough. */
  lemma SystematicFramesComplete(d: Desktop.FountainDecoder)
    requires d.Valid() && d.Open() && d.Listens()
    requires forall b: nat :: b < d.blockCount ==> b in d.arrived
    ensures d.isComplete
  {
    d.ArrivalsDecide();
    SystematicFramesSuffice(d.code, d.blockCount, d.arrived);
  }

  lemma SystematicFramesSuffice(code: Code, k: nat, arrived: set<nat>)
    requires Lawful(code) && 0 < k && forall b: nat :: b < k ==> b in arrived
    ensures Closure(code, k, arrived) == UpTo(k)
  {
    hide Closure, Lawful;
    var solved := Closure(code, k, arrived);
    ClosureIsClosed(code, k, arrived);
    ClosureFits(code, k, arrived);
    forall b: nat | b < k
      ensures b in solved
    {
      OwnFrameYields(code, k, solved, b);
    }
  }

  lemma OwnFrameYields(code: Code, k: nat, solved: set<nat>, b: nat)
    requires b < k
    ensures Yields(Neighbors(code, k, b), solved, b)
  {
  }

  // ---------------------------------------------------------------- whole deliveries

  predicate SameSession(h: FrameHeader, g: FrameHeader) {
    && h.sessionId == g.sessionId && h.blockCount == g.blockCount && h.blockSize == g.blockSize
    && h.totalPayloadLength == g.totalPayloadLength
  }

  /** The number of one frame, if it is of this session. */
  function NumberOf(header: FrameHeader, h: FrameHeader): set<nat> {
    if SameSession(header, h) then {header.sequenceNumber} else {}
  }

  /** The sequence numbers of this session's frames in a delivery. */
  function Numbers(headers: seq<FrameHeader>, h: FrameHeader): set<nat> {
    if headers == [] then {}
    else
      var last := headers[|headers| - 1];
      Numbers(headers[..|headers| - 1], h) + NumberOf(last, h)
  }

  /** Only the set of headers delivered counts. */
  lemma {:induction false} NumbersAre(headers: seq<FrameHeader>, h: FrameHeader, n: nat)
    ensures n in Numbers(headers, h) <==>
              exists i :: 0 <= i < |headers| && SameSession(headers[i], h) && headers[i].sequenceNumber == n
  {
    if headers != [] {
      NumbersAre(headers[..|headers| - 1], h, n);
    }
  }

  function Headers(frames: seq<Frame>): seq<FrameHeader> {
    seq(|frames|, i requires 0 <= i < |frames| => frames[i].header)
  }

  /** What a delivery's first `n` frames say about this session's equations. */
  function HeardIn(frames: seq<Frame>, h: FrameHeader, n: nat): set<Heard>
    requires n <= |frames|
  {
    set i | 0 <= i < n && SameSession(frames[i].header, h) :: Heard(frames[i].header.sequenceNumber, frames[i].payload)
  }

  /** What one frame says: nothing, if it is of another session. */
  function HeardFrom(frame: Frame, h: FrameHeader): set<Heard> {
    if SameSession(frame.header, h) then {Heard(frame.header.sequenceNumber, frame.payload)} else {}
  }

  lemma HearsNext(frames: seq<Frame>, h: FrameHeader, i: nat)
    requires i < |frames|
    ensures HeardIn(frames, h, i + 1) == HeardIn(frames, h, i) + HeardFrom(frames[i], h)
  {
  }

  /** A payload as long as its header says, for a session of at least one block. */
  predicate Whole(frame: Frame) {
    |frame.payload| == frame.header.blockSize > 0 && frame.header.blockCount > 0
  }

  /** Hands a decoder a whole delivery: frames of session `h` in any order, with any losses and repeats, among frames
      of other sessions. A decoder that has not begun begins with the first. */
  method DeliverToDesktop(d: Desktop.FountainDecoder, frames: seq<Frame>, h: FrameHeader)
    requires d.Valid() && d.Listens() && forall i :: 0 <= i < |frames| ==> Whole(frames[i])
    requires if d.Open() then d.Matches(h)
             else frames != [] && SameSession(frames[0].header, h) && Desktop.FountainDecoder.WithinBounds(h)
    modifies d, d.nodes
    ensures d.Valid() && d.Listens() && d.Open() && d.Matches(h) && fresh(d.nodes - old(d.nodes))
    ensures d.arrived == old(d.arrived) + Numbers(Headers(frames), h)
    ensures d.log <= old(d.log) + HeardIn(frames, h, |frames|)
    ensures d.Solved() == Closure(d.code, h.blockCount, d.arrived)
    ensures d.isComplete <==> Closure(d.code, h.blockCount, d.arrived) == UpTo(h.blockCount)
  {
    hide Closure, HeardIn, Numbers, NumberOf, Desktop.FountainDecoder.Valid, Desktop.FountainDecoder.Listens,
         Desktop.FountainDecoder.Solved;
    var i := 0;
    NoHeaders(frames, h);
    while i < |frames|
      invariant 0 <= i <= |frames| && d.Valid() && d.Listens() && fresh(d.nodes - old(d.nodes))
      invariant if i > 0 || old(d.Open()) then d.Open() && d.Matches(h) else !d.Open()
      invariant d.arrived == old(d.arrived) + Numbers(Headers(frames)[..i], h)
      invariant d.log <= old(d.log) + HeardIn(frames, h, i)
    {
      NextHeader(frames, h, i);
      HearsNext(frames, h, i);
      DeliverOne(d, frames[i], h);
      i := i + 1;
    }
    assert Headers(frames)[..i] == Headers(frames);
    d.ArrivalsDecide();
  }

  method DeliverOne(d: Desktop.FountainDecoder, frame: Frame, h: FrameHeader)
    requires d.Valid() && d.Listens() && Whole(frame)
    requires if d.Open() then d.Matches(h) else SameSession(frame.header, h) && Desktop.FountainDecoder.WithinBounds(h)
    modifies d, d.nodes
    ensures d.Valid() && d.Listens() && d.Open() && d.Matches(h) && fresh(d.nodes - old(d.nodes))
    ensures d.arrived == old(d.arrived) + NumberOf(frame.header, h)
    ensures d.log <= old(d.log) + HeardFrom(frame, h)
  {
    hide Closure, Desktop.FountainDecoder.Valid, Desktop.FountainDecoder.Solved;
    assert d.Open() ==> d.Matches(frame.header) == SameSession(frame.header, h);
    var r := d.ReceiveFrame(frame);
  }

  lemma NoHeaders(frames: seq<Frame>, h: FrameHeader)
    ensures Numbers(Headers(frames)[..0], h) == {}
  {
  }

  lemma NextHeader(frames: seq<Frame>, h: FrameHeader, i: nat)
    requires i < |frames|
    ensures Numbers(Headers(frames)[..i + 1], h)
         == Numbers(Headers(frames)[..i], h)
           + NumberOf(frames[i].header, h)
  {
    assert Headers(frames)[..i + 1][..i] == Headers(frames)[..i];
  }

  /** A PWA has room for all of these numbers: no more than 1024 above the block count, and either only source blocks'
      own frames or few enough that all of them could wait in 16 MiB. */
  predicate HasRoom(numbers: set<nat>, h: FrameHeader) {
    && h.blockCount <= 65535 && |numbers| <= h.blockCount + 1024
    && ((forall n :: n in numbers ==> n < h.blockCount) || |numbers| * h.blockSize <= 16 * 1024 * 1024)
  }

  lemma RoomForFewer(numbers: set<nat>, more: set<nat>, h: FrameHeader)
    requires numbers <= more && HasRoom(more, h)
    ensures HasRoom(numbers, h)
  {
    SubsetSize(numbers, more);
    Pwa.ProductGrows(|numbers|, |more|, h.blockSize);
  }

  /** No frame was refused for want of room. */
  predicate Unlimited(answers: seq<Pwa.Answer>) {
    forall i :: 0 <= i < |answers| ==> answers[i] != Failure(Pwa.ResourceLimitExceeded)
  }

  /** Hands the PWA's decoder a whole delivery, and gives its answers in order. */
  method DeliverToPwa(p: Pwa.FountainDecoder, frames: seq<Frame>, h: FrameHeader, fingerprint: Frame -> nat)
    returns (answers: seq<Pwa.Answer>)
    requires p.Valid() && p.dropped == {} && forall i :: 0 <= i < |frames| ==> Whole(frames[i])
    requires if p.header.Some? then SameSession(p.header.value, h) else frames != [] && SameSession(frames[0].header, h)
    modifies p, p.nodes
    ensures p.Valid() && p.header.Some? && SameSession(p.header.value, h) && fresh(p.nodes - old(p.nodes))
    ensures |answers| == |frames|
    ensures p.log <= old(p.log) + HeardIn(frames, h, |frames|)
    ensures Unlimited(answers) ==> p.dropped == {} && p.seen.Keys == old(p.seen.Keys) + Numbers(Headers(frames), h)
    ensures Unlimited(answers) ==> p.Solved() == Closure(p.code, h.blockCount, p.seen.Keys)
    ensures Unlimited(answers) ==>
              (p.solved == |p.blocks| <==> Closure(p.code, h.blockCount, p.seen.Keys) == UpTo(h.blockCount))
    ensures HasRoom(old(p.seen.Keys) + Numbers(Headers(frames), h), h) ==> Unlimited(answers)
  {
    hide HasRoom, Closure, Unlimited, Numbers, HeardIn, Pwa.FountainDecoder.Valid, Pwa.FountainDecoder.Solved;
    var i := 0;
    answers := [];
    NoHeaders(frames, h);
    assert Headers(frames)[..0] == [];
    NoAnswers();
    while i < |frames|
      invariant 0 <= i <= |frames| && |answers| == i && p.Valid() && fresh(p.nodes - old(p.nodes))
      invariant i > 0 || old(p.header).Some? ==> p.header.Some? && SameSession(p.header.value, h)
      invariant i == 0 ==> p.header == old(p.header)
      invariant p.log <= old(p.log) + HeardIn(frames, h, i)
      invariant Unlimited(answers) ==>
                  p.dropped == {} && p.seen.Keys == old(p.seen.Keys) + Numbers(Headers(frames)[..i], h)
      invariant HasRoom(old(p.seen.Keys) + Numbers(Headers(frames), h), h) ==> Unlimited(answers)
    {
      NextHeader(frames, h, i);
      HearsNext(frames, h, i);
      var r := DeliverOneToPwa(p, frames[i], h, fingerprint(frames[i]));
      OneMoreAnswer(answers, r);
      StillRoom(old(p.seen.Keys), frames, h, i);
      answers := answers + [r];
      i := i + 1;
    }
    assert Headers(frames)[..i] == Headers(frames);
    if Unlimited(answers) {
      p.ArrivalsDecide();
    }
  }

  method DeliverOneToPwa(p: Pwa.FountainDecoder, frame: Frame, h: FrameHeader, fingerprint: nat) returns (r: Pwa.Answer)
    requires p.Valid() && Whole(frame)
    requires if p.header.Some? then SameSession(p.header.value, h) else SameSession(frame.header, h)
    modifies p, p.nodes
    ensures p.Valid() && p.header.Some? && SameSession(p.header.value, h) && fresh(p.nodes - old(p.nodes))
    ensures p.log <= old(p.log) + HeardFrom(frame, h)
    ensures HasRoom(old(p.seen.Keys) + NumberOf(frame.header, h), h) ==> r != Failure(Pwa.ResourceLimitExceeded)
    ensures r != Failure(Pwa.ResourceLimitExceeded) ==>
              && p.dropped == old(p.dropped)
              && p.seen.Keys == old(p.seen.Keys) + NumberOf(frame.header, h)
  {
    hide HasRoom, Closure, Pwa.FountainDecoder.AnswerTo, Pwa.FountainDecoder.NoRoom, Pwa.FountainDecoder.Valid,
         Pwa.FountainDecoder.Solved;
    var given := Pwa.DeqrFrame(frame.header, frame.payload, fingerprint);
    p.AnswerMeans(given);
    if HasRoom(p.seen.Keys + NumberOf(frame.header, h), h) {
      RoomIsEnough(p, given, h);
    }
    r := p.Receive(given);
  }

  /** A decoder with room for one number more does not refuse its frame for want of it. */
  lemma RoomIsEnough(p: Pwa.FountainDecoder, frame: Pwa.DeqrFrame, h: FrameHeader)
    requires p.Valid() && (p.header.Some? ==> SameSession(p.header.value, h))
    requires HasRoom(p.seen.Keys + NumberOf(frame.header, h), h)
    ensures p.AnswerTo(frame) != Failure(Pwa.ResourceLimitExceeded)
  {
    hide Pwa.FountainDecoder.Valid, Pwa.FountainDecoder.AnswerTo;
    p.RefusedOnlyForRoom(frame);
    if p.AnswerTo(frame) == Failure(Pwa.ResourceLimitExceeded) {
      var numbers := p.seen.Keys + {frame.header.sequenceNumber};
      assert |numbers| == |p.seen.Keys| + 1;
      p.UnsolvedWereSeen();
      SubsetSize(p.unsolved.Keys, p.seen.Keys);
      Pwa.ProductGrows(|p.unsolved| + 1, |numbers|, h.blockSize);
      if forall n :: n in numbers ==> n < h.blockCount {
        p.SystematicFramesNeverWait();
      }
    }
  }

  lemma StillRoom(before: set<nat>, frames: seq<Frame>, h: FrameHeader, i: nat)
    requires i < |frames|
    ensures HasRoom(before + Numbers(Headers(frames), h), h) ==>
              HasRoom(before + Numbers(Headers(frames)[..i], h) + NumberOf(frames[i].header, h), h)
  {
    hide HasRoom;
    NumbersGrow(Headers(frames), h, i + 1);
    NextHeader(frames, h, i);
    if HasRoom(before + Numbers(Headers(frames), h), h) {
      RoomForFewer(before + Numbers(Headers(frames)[..i], h) + NumberOf(frames[i].header, h),
                   before + Numbers(Headers(frames), h), h);
    }
  }

  lemma {:induction false} NumbersGrow(headers: seq<FrameHeader>, h: FrameHeader, n: nat)
    requires n <= |headers|
    ensures Numbers(headers[..n], h) <= Numbers(headers, h)
  {
    if n < |headers| {
      NumbersGrow(headers[..|headers| - 1], h, n);
      assert headers[..|headers| - 1][..n] == headers[..n];
    } else {
      assert headers[..n] == headers;
    }
  }

  lemma NoAnswers()
    ensures Unlimited([])
  {
  }

  lemma OneMoreAnswer(answers: seq<Pwa.Answer>, r: Pwa.Answer)
    ensures Unlimited(answers + [r]) <==> Unlimited(answers) && r != Failure(Pwa.ResourceLimitExceeded)
  {
    if Unlimited(answers + [r]) {
      forall i | 0 <= i < |answers|
        ensures answers[i] != Failure(Pwa.ResourceLimitExceeded)
      {
        assert (answers + [r])[i] == answers[i];
      }
      assert (answers + [r])[|answers|] == r;
    }
  }

  /** Two desktop decoders given the same frames of a session in any two orders, and a PWA decoder given them in a
      third, solve the same blocks and complete together, as long as the PWA has room. */
  method AnyOrderDecodes(code: Code, frames: seq<Frame>, shuffled: seq<Frame>, others: seq<Frame>, h: FrameHeader,
                         fingerprint: Frame -> nat)
    returns (d: Desktop.FountainDecoder, e: Desktop.FountainDecoder, p: Pwa.FountainDecoder, answers: seq<Pwa.Answer>)
    requires Lawful(code) && Desktop.FountainDecoder.WithinBounds(h)
    requires forall i :: 0 <= i < |frames| ==> Whole(frames[i])
    requires forall i :: 0 <= i < |shuffled| ==> Whole(shuffled[i])
    requires forall i :: 0 <= i < |others| ==> Whole(others[i])
    requires frames != [] && shuffled != [] && others != []
    requires SameSession(frames[0].header, h) && SameSession(shuffled[0].header, h) && SameSession(others[0].header, h)
    requires Numbers(Headers(frames), h) == Numbers(Headers(shuffled), h) == Numbers(Headers(others), h)
    ensures d.Solved() == e.Solved() == Closure(code, h.blockCount, Numbers(Headers(frames), h))
    ensures d.isComplete == e.isComplete
    ensures Unlimited(answers) ==> p.Solved() == d.Solved() && (p.solved == |p.blocks| <==> d.isComplete)
    ensures HasRoom(Numbers(Headers(frames), h), h) ==> Unlimited(answers)
  {
    hide HasRoom, Closure, Numbers, HeardIn, Unlimited, Desktop.FountainDecoder.Valid, Desktop.FountainDecoder.Listens,
         Desktop.FountainDecoder.Solved, Pwa.FountainDecoder.Valid, Pwa.FountainDecoder.Solved;
    d := DesktopGiven(code, frames, h);
    e := DesktopGiven(code, shuffled, h);
    p, answers := PwaGiven(code, others, h, fingerprint);
  }

  /** A fresh decoder handed a whole delivery. */
  method DesktopGiven(code: Code, frames: seq<Frame>, h: FrameHeader) returns (d: Desktop.FountainDecoder)
    requires Lawful(code) && Desktop.FountainDecoder.WithinBounds(h)
    requires frames != [] && SameSession(frames[0].header, h) && forall i :: 0 <= i < |frames| ==> Whole(frames[i])
    ensures fresh(d) && fresh(d.nodes) && d.Valid() && d.code == code && d.Open() && d.Matches(h)
    ensures d.log <= HeardIn(frames, h, |frames|)
    ensures d.Solved() == Closure(code, h.blockCount, Numbers(Headers(frames), h))
    ensures d.isComplete <==> Closure(code, h.blockCount, Numbers(Headers(frames), h)) == UpTo(h.blockCount)
  {
    hide Closure, Numbers, HeardIn, UpTo, Desktop.FountainDecoder.Valid, Desktop.FountainDecoder.Listens,
         Desktop.FountainDecoder.Solved;
    d := new Desktop.FountainDecoder(code);
    DesktopStartsEmpty(d);
    DeliverToDesktop(d, frames, h);
    assert d.arrived == Numbers(Headers(frames), h);
  }

  lemma DesktopStartsEmpty(d: Desktop.FountainDecoder)
    requires d.Valid() && !d.Open()
    ensures d.log == {}
  {
  }

  method PwaGiven(code: Code, frames: seq<Frame>, h: FrameHeader, fingerprint: Frame -> nat)
    returns (p: Pwa.FountainDecoder, answers: seq<Pwa.Answer>)
    requires Lawful(code)
    requires frames != [] && SameSession(frames[0].header, h) && forall i :: 0 <= i < |frames| ==> Whole(frames[i])
    ensures fresh(p) && fresh(p.nodes) && p.Valid() && p.code == code
    ensures p.header.Some? && SameSession(p.header.value, h) && |answers| == |frames|
    ensures p.log <= HeardIn(frames, h, |frames|)
    ensures Unlimited(answers) ==> p.Solved() == Closure(code, h.blockCount, Numbers(Headers(frames), h))
    ensures Unlimited(answers) ==>
              (p.solved == |p.blocks| <==>
                 Closure(code, h.blockCount, Numbers(Headers(frames), h)) == UpTo(h.blockCount))
    ensures HasRoom(Numbers(Headers(frames), h), h) ==> Unlimited(answers)
  {
    hide HasRoom, Closure, Numbers, HeardIn, UpTo, Unlimited, Pwa.FountainDecoder.Valid, Pwa.FountainDecoder.Solved;
    p := new Pwa.FountainDecoder(code);
    PwaStartsEmpty(p);
    answers := DeliverToPwa(p, frames, h, fingerprint);
    assert Unlimited(answers) ==> p.seen.Keys == Numbers(Headers(frames), h);
    assert {} + Numbers(Headers(frames), h) == Numbers(Headers(frames), h);
  }

  lemma PwaStartsEmpty(p: Pwa.FountainDecoder)
    requires p.Valid() && p.header.None?
    ensures p.log == {} && p.seen.Keys == {}
  {
  }

  // ---------------------------------------------------------------- from the sender to the file

  /** Wherever these are frames of session `h`, they are the encoder's for this payload. */
  ghost predicate Sent(code: Code, payload: ByteString, frames: seq<Frame>, h: FrameHeader)
    requires h.blockSize > 0
  {
    forall i :: 0 <= i < |frames| && SameSession(frames[i].header, h) ==>
      frames[i].payload == Encoded(code, payload, h.blockSize, frames[i].header.sequenceNumber)
  }

  lemma SentIsDelivered(code: Code, payload: ByteString, frames: seq<Frame>, h: FrameHeader, log: set<Heard>)
    requires h.blockSize > 0 && Sent(code, payload, frames, h) && log <= HeardIn(frames, h, |frames|)
    ensures Delivered(code, payload, h.blockSize, log)
  {
  }

  /** The frames a receiver is shown: none malformed, the first of session `h`, and all of that session one sender's. */
  ghost predicate Shown(code: Code, payload: ByteString, frames: seq<Frame>, h: FrameHeader) {
    && frames != [] && SameSession(frames[0].header, h)
    && (forall i :: 0 <= i < |frames| ==> Whole(frames[i]))
    && h.blockSize > 0 && h.blockCount == CeilDiv(|payload|, h.blockSize) && h.totalPayloadLength == |payload|
    && Sent(code, payload, frames, h)
  }

  /** Whatever frames of one sender a fresh decoder is shown, in any order, with any losses and repeats and among any
      frames of other sessions, it gives back the sender's payload or nothing; and it gives it back exactly when
      peeling can reach every block from the frames shown. */
  method DesktopReceives(code: Code, ghost payload: ByteString, frames: seq<Frame>, h: FrameHeader)
    returns (r: Result<ByteString, int>)
    requires Lawful(code) && Shown(code, payload, frames, h) && Desktop.FountainDecoder.WithinBounds(h)
    ensures r.Success? ==> r.value == payload
    ensures r.Success? <==> Closure(code, h.blockCount, Numbers(Headers(frames), h)) == UpTo(h.blockCount)
  {
    hide Closure, Numbers, HeardIn, Delivered, Sent, Prefix, Join, Values, Desktop.FountainDecoder.Valid,
         Desktop.FountainDecoder.Listens, Desktop.FountainDecoder.Solved;
    var d := DesktopGiven(code, frames, h);
    SentIsDelivered(code, payload, frames, h, d.log);
    DesktopDecodes(d, payload);
    r := d.ReconstructPayload();
  }

  method PwaReceives(code: Code, ghost payload: ByteString, frames: seq<Frame>, h: FrameHeader,
                     fingerprint: Frame -> nat)
    returns (r: Option<ByteString>, answers: seq<Pwa.Answer>)
    requires Lawful(code) && Shown(code, payload, frames, h)
    ensures r.Some? ==> r.value == payload
    ensures |answers| == |frames|
    ensures Unlimited(answers) ==>
              (r.Some? <==> Closure(code, h.blockCount, Numbers(Headers(frames), h)) == UpTo(h.blockCount))
    ensures HasRoom(Numbers(Headers(frames), h), h) ==> Unlimited(answers)
  {
    hide HasRoom, Closure, Numbers, HeardIn, Delivered, Unlimited, Sent, Prefix, Join, Values,
         Pwa.FountainDecoder.Valid,
         Pwa.FountainDecoder.Solved;
    var p;
    p, answers := PwaGiven(code, frames, h, fingerprint);
    SentIsDelivered(code, payload, frames, h, p.log);
    PwaDecodes(p, payload);
    p.Settle();
    r := p.Reconstruct();
  }

  /** The first `n` frames an encoder sends. */
  method Broadcast(e: FountainEncoder, n: nat) returns (frames: seq<Frame>)
    requires e.Valid() && e.sequenceCounter == 0
    modifies e
    ensures |frames| == n && e.Valid()
    ensures forall i :: 0 <= i < n ==>
              && frames[i].header == HeaderOf(e.sessionId, e.payload, e.blockSize, i)
              && frames[i].payload == Encoded(e.code, e.payload, e.blockSize, i)
  {
    frames := [];
    while |frames| < n
      invariant |frames| <= n && e.Valid() && e.sequenceCounter == |frames|
      invariant forall i :: 0 <= i < |frames| ==>
                  && frames[i].header == HeaderOf(e.sessionId, e.payload, e.blockSize, i)
                  && frames[i].payload == Encoded(e.code, e.payload, e.blockSize, i)
    {
      var frame := e.NextFrame();
      frames := frames + [frame];
    }
  }

  function HeaderOf(sessionId: nat, payload: ByteString, size: nat, sequence: nat): FrameHeader
    requires size > 0
  {
    FrameHeader(FRAME_PROTOCOL_VERSION, sessionId, 0, sequence, CeilDiv(|payload|, size), size, |payload|)
  }

  function Picked(all: seq<Frame>, picks: seq<nat>): (frames: seq<Frame>)
    requires forall i :: 0 <= i < |picks| ==> picks[i] < |all|
    ensures |frames| == |picks| && forall i :: 0 <= i < |picks| ==> frames[i] == all[picks[i]]
  {
    seq(|picks|, i requires 0 <= i < |picks| => all[picks[i]])
  }

  lemma RoomForSystematic(h: FrameHeader)
    requires h.blockCount <= 65535
    ensures HasRoom(UpTo(h.blockCount), h)
  {
    FullSetBound(UpTo(h.blockCount), h.blockCount);
  }

  function Elements(picks: seq<nat>): (numbers: set<nat>)
    ensures forall n: nat :: n in numbers <==> n in picks
  {
    set n | n in picks
  }

  lemma PickedNumbers(all: seq<Frame>, picks: seq<nat>, sessionId: nat, payload: ByteString, size: nat)
    requires size > 0 && forall i :: 0 <= i < |picks| ==> picks[i] < |all|
    requires forall i :: 0 <= i < |all| ==> all[i].header == HeaderOf(sessionId, payload, size, i)
    ensures Numbers(Headers(Picked(all, picks)), HeaderOf(sessionId, payload, size, 0)) == Elements(picks)
  {
    var frames, h := Picked(all, picks), HeaderOf(sessionId, payload, size, 0);
    forall n: nat
      ensures n in Numbers(Headers(frames), h) <==> n in picks
    {
      NumbersAre(Headers(frames), h, n);
      if n in picks {
        var i :| 0 <= i < |picks| && picks[i] == n;
        assert Headers(frames)[i].sequenceNumber == n;
      }
    }
  }

  /** One transfer from end to end: of the sender's first `n` frames the receivers catch those in `picks`, in that
      order. Neither ever gives back anything but the payload; what they caught decides whether they do, and the
      frames of all the source blocks are enough. */
  method Transfer(code: Code, payload: ByteString, size: nat, sessionId: nat, n: nat, picks: seq<nat>,
                  fingerprint: Frame -> nat)
    returns (desktop: Result<ByteString, int>, pwa: Option<ByteString>, answers: seq<Pwa.Answer>)
    requires Lawful(code) && size > 0 && 0 < CeilDiv(|payload|, size) <= 65535 && |payload| <= 64 * 1024 * 1024
    requires picks != [] && forall i :: 0 <= i < |picks| ==> picks[i] < n
    ensures desktop.Success? ==> desktop.value == payload
    ensures pwa.Some? ==> pwa.value == payload
    ensures var k := CeilDiv(|payload|, size);
            && (desktop.Success? <==> Closure(code, k, Elements(picks)) == UpTo(k))
            && ((forall b: nat :: b < k ==> b in picks) ==> desktop.Success?)
    ensures Unlimited(answers) ==> (pwa.Some? <==> desktop.Success?)
    ensures HasRoom(Elements(picks), HeaderOf(sessionId, payload, size, 0)) ==> Unlimited(answers)
    // A receiver that catches each source block's own frame, and nothing else, has the payload.
    ensures Elements(picks) == UpTo(CeilDiv(|payload|, size)) ==> desktop == Success(payload) && pwa == Some(payload)
  {
    hide Closure, Numbers, Unlimited, HasRoom;
    var encoder := new FountainEncoder(code, payload, size, sessionId);
    var all := Broadcast(encoder, n);
    var frames, h := Picked(all, picks), HeaderOf(sessionId, payload, size, 0);
    CeilDivCovers(|payload|, size);
    PickedNumbers(all, picks, sessionId, payload, size);
    desktop := DesktopReceives(code, payload, frames, h);
    pwa, answers := PwaReceives(code, payload, frames, h, fingerprint);
    if forall b: nat :: b < h.blockCount ==> b in picks {
      SystematicFramesSuffice(code, h.blockCount, Elements(picks));
    }
    RoomForSystematic(h);
  }
}
