/** A version 1 session in the PWA: receiving, then verifying while frames, cancels and resets keep arriving. */
module ReceiverSessions {
  import opened Bytes
  import opened Containers
  import opened FountainEncoders
  import opened FountainCode
  import opened Frames
  import opened Peeling
  import FrameCodec
  import Pwa = PwaDecoder

  /** What the platform decides: text decoding, SHA-256, the blocked extensions, and the parser's fingerprint. */
  datatype Platform = Platform(text: Text, sha256: ByteString -> ByteString, blocked: ByteString -> bool,
                               fingerprint: ByteString -> nat)

  const OCTET_STREAM: ByteString := [
    0x61, 0x70, 0x70, 0x6c, 0x69, 0x63, 0x61, 0x74, 0x69, 0x6f, 0x6e, 0x2f,
    0x6f, 0x63, 0x74, 0x65, 0x74, 0x2d, 0x73, 0x74, 0x72, 0x65, 0x61, 0x6d]

  datatype State = Ready | Receiving | Verifying | Complete | Failed | Cancelled
  datatype VerifiedFile = VerifiedFile(filename: ByteString, mimeType: ByteString, bytes: ByteString,
                                       sha256: ByteString)

  /** A verification waiting on the platform: for decompression, or for the digest of these bytes. */
  datatype Stage = Inflating | Hashing(bytes: ByteString)
  datatype Suspended = Suspended(generation: nat, container: Parsed, stage: Stage)

  datatype Inflation = Inflated(bytes: ByteString) | InflationRefused(code: ErrorCode)

  /** Where a verification's container came from: the frames heard, and the bytes they were reassembled into. */
  datatype Origin = Origin(header: FrameHeader, log: set<Heard>, transport: ByteString)

  datatype Session = Session(
    state: State, generation: nat, verification: Option<nat>, duplicates: nat, foreignFrames: nat,
    activeSession: Option<nat>, error: Option<ErrorCode>, verified: Option<VerifiedFile>,
    suspended: seq<Suspended>, origin: Option<Origin>)

  function New(): Session {
    Session(Ready, 0, None, 0, 0, None, None, None, [], None)
  }

  function Over(s: Session): bool {
    s.state.Complete? || s.state.Failed? || s.state.Cancelled?
  }

  function FailedWith(s: Session, code: ErrorCode): Session {
    s.(generation := s.generation + 1, verification := None, verified := None, error := Some(code), state := Failed,
       origin := None)
  }

  function Cleared(s: Session, state: State): Session {
    Session(state, s.generation + 1, None, 0, 0, None, None, None, s.suspended, None)
  }

  /** `verify`, given what the parser makes of the reassembled bytes. */
  function VerifyStep(p: Platform, s: Session, origin: Origin, parsed: Result<Parsed, ErrorCode>): Session {
    if !s.state.Verifying? || s.verification.Some? then s
    else
      var refusal := Refusal(p, parsed);
      if refusal.Some? then FailedWith(s, refusal.value).(verification := Some(s.generation))
      else
        var c := parsed.value;
        s.(verification := Some(s.generation), origin := Some(origin),
           suspended := s.suspended
             + [Suspended(s.generation, c, if c.compressed then Inflating else Hashing(c.payload))])
  }

  /** What stops a verification before it waits for anything. */
  function Refusal(p: Platform, parsed: Result<Parsed, ErrorCode>): Option<ErrorCode> {
    match parsed
    case Failure(code) => Some(code)
    case Success(c) =>
      if c.encrypted then Some(EncryptedContainer)
      else if p.blocked(c.filename) then Some(FileTypeBlocked)
      else if !c.compressed && |c.payload| != c.originalSize then Some(ErrorCode.SizeMismatch)
      else None
  }

  function Dropped(s: Session, i: nat): Session
    requires i < |s.suspended|
  {
    s.(suspended := s.suspended[..i] + s.suspended[i + 1..])
  }

  /** A failure inside a verification counts only while its generation is current. */
  function Refused(s: Session, i: nat, code: ErrorCode): Session
    requires i < |s.suspended|
  {
    if s.suspended[i].generation != s.generation then Dropped(s, i) else FailedWith(Dropped(s, i), code)
  }

  function InflatedStep(s: Session, i: nat, result: Inflation): Session
    requires i < |s.suspended| && s.suspended[i].stage.Inflating?
  {
    var v := s.suspended[i];
    match result
    case InflationRefused(code) => Refused(s, i, code)
    case Inflated(bytes) =>
      if |bytes| != v.container.originalSize then Refused(s, i, SizeMismatch)
      else s.(suspended := s.suspended[i := v.(stage := Hashing(bytes))])
  }

  function DigestStep(p: Platform, s: Session, i: nat): Session
    requires i < |s.suspended| && s.suspended[i].stage.Hashing?
  {
    var v := s.suspended[i];
    var hash := p.sha256(v.stage.bytes);
    if v.generation != s.generation then Dropped(s, i)
    else if hash != v.container.sha256 then Refused(s, i, HashMismatch)
    else
      var mimeType := if v.container.mimeType == [] then OCTET_STREAM else v.container.mimeType;
      Dropped(s, i).(verified := Some(VerifiedFile(v.container.filename, mimeType, v.stage.bytes, hash)),
                     state := Complete, verification := None)
  }

  // ---------------------------------------------------------------- what every step keeps

  /** The container these bytes are, if the parser takes them. */
  ghost predicate ParsesTo(p: Platform, transport: ByteString, c: Parsed) {
    Raw(transport).Some? && Acceptable(Raw(transport).value, p.text) && c == Kept(Raw(transport).value, p.text)
  }

  /** The file is the one its container declares: its length, its hash and, unless compressed, its very bytes. */
  ghost predicate Certified(p: Platform, c: Parsed, file: VerifiedFile) {
    && file.filename == c.filename && !p.blocked(c.filename) && !c.encrypted
    && (c.mimeType != [] ==> file.mimeType == c.mimeType)
    && |file.bytes| == c.originalSize && p.sha256(file.bytes) == file.sha256 == c.sha256
    && (!c.compressed ==> file.bytes == c.payload)
  }

  ghost predicate Checked(p: Platform, v: Suspended) {
    && !v.container.encrypted && !p.blocked(v.container.filename)
    && (v.stage.Hashing? ==>
          |v.stage.bytes| == v.container.originalSize
          && (!v.container.compressed ==> v.stage.bytes == v.container.payload))
    && (v.stage.Inflating? ==> v.container.compressed)
  }

  ghost predicate Sound(p: Platform, s: Session) {
    && (s.verified.Some? <==> s.state.Complete?)
    && (s.error.Some? <==> s.state.Failed?)
    && (s.verification.Some? ==> s.state.Failed? || (s.state.Verifying? && s.verification.value == s.generation))
    && (s.verified.Some? ==>
          s.origin.Some? && exists c :: ParsesTo(p, s.origin.value.transport, c) && Certified(p, c, s.verified.value))
    && (forall v :: v in s.suspended ==> v.generation <= s.generation && Checked(p, v))
    && (forall v :: v in s.suspended && v.generation == s.generation ==>
          s.state.Verifying? && s.verification == Some(s.generation) && s.origin.Some?
          && ParsesTo(p, s.origin.value.transport, v.container))
    && (forall i, j :: 0 <= i < j < |s.suspended| ==>
          s.suspended[i].generation != s.generation || s.suspended[j].generation != s.generation)
  }

  /** Nothing of an overtaken verification is left to see: only the list of what is suspended is shorter. */
  ghost predicate OnlyForgets(s: Session, after: Session, i: nat) {
    && i < |s.suspended|
    && (after == Dropped(s, i)
        || exists v ::
             after == s.(suspended := s.suspended[i := v]) && v.generation == s.suspended[i].generation)
  }

  lemma FailureIsSound(p: Platform, s: Session, code: ErrorCode)
    requires Sound(p, s)
    ensures Sound(p, FailedWith(s, code))
    ensures Sound(p, FailedWith(s, code).(verification := Some(s.generation)))
  {
  }

  lemma ClearedIsSound(p: Platform, s: Session, state: State)
    requires Sound(p, s) && (state.Ready? || state.Cancelled?)
    ensures Sound(p, Cleared(s, state))
  {
  }

  lemma DroppedIsSound(p: Platform, s: Session, i: nat)
    requires Sound(p, s) && i < |s.suspended| && s.suspended[i].generation != s.generation
    ensures Sound(p, Dropped(s, i))
  {
    assert forall v :: v in Dropped(s, i).suspended ==> v in s.suspended;
  }

  /** Dropping the one current verification leaves none. */
  lemma NoneCurrent(p: Platform, s: Session, i: nat)
    requires Sound(p, s) && i < |s.suspended| && s.suspended[i].generation == s.generation
    ensures forall v :: v in Dropped(s, i).suspended ==> v in s.suspended && v.generation != s.generation
  {
    hide ParsesTo, Certified, Checked;
    forall j | 0 <= j < |s.suspended| && j != i
      ensures s.suspended[j].generation != s.generation
    {
    }
    WithoutOne(s.suspended, i, s.generation);
  }

  lemma WithoutOne(all: seq<Suspended>, i: nat, generation: nat)
    requires i < |all| && forall j :: 0 <= j < |all| && j != i ==> all[j].generation != generation
    ensures forall v :: v in all[..i] + all[i + 1..] ==> v in all && v.generation != generation
  {
  }

  lemma VerifyIsSound(p: Platform, s: Session, origin: Origin, parsed: Result<Parsed, ErrorCode>)
    requires Sound(p, s) && (parsed.Success? ==> ParsesTo(p, origin.transport, parsed.value))
    ensures Sound(p, VerifyStep(p, s, origin, parsed))
  {
    hide ParsesTo, Certified;
    if s.state.Verifying? && s.verification.None? && parsed.Failure? {
      FailureIsSound(p, s, parsed.error);
    }
    ParsedLength(p, origin.transport, parsed);
  }

  lemma ParsedLength(p: Platform, transport: ByteString, parsed: Result<Parsed, ErrorCode>)
    requires parsed.Success? ==> ParsesTo(p, transport, parsed.value)
    ensures parsed.Success? && !parsed.value.compressed ==> |parsed.value.payload| == parsed.value.originalSize
  {
  }

  lemma InflatedIsSound(p: Platform, s: Session, i: nat, result: Inflation)
    requires Sound(p, s) && i < |s.suspended| && s.suspended[i].stage.Inflating?
    ensures Sound(p, InflatedStep(s, i, result))
    ensures s.suspended[i].generation != s.generation ==> OnlyForgets(s, InflatedStep(s, i, result), i)
  {
    hide ParsesTo, Certified;
    if s.suspended[i].generation != s.generation {
      DroppedIsSound(p, s, i);
    } else {
      NoneCurrent(p, s, i);
    }
  }

  lemma DigestIsSound(p: Platform, s: Session, i: nat)
    requires Sound(p, s) && i < |s.suspended| && s.suspended[i].stage.Hashing?
    ensures Sound(p, DigestStep(p, s, i))
    ensures s.suspended[i].generation != s.generation ==> OnlyForgets(s, DigestStep(p, s, i), i)
  {
    hide ParsesTo;
    if s.suspended[i].generation != s.generation {
      DroppedIsSound(p, s, i);
    } else {
      NoneCurrent(p, s, i);
    }
  }

  // ---------------------------------------------------------------- frames

  function CodeOf(e: Pwa.ReceiveError): ErrorCode {
    match e
    case SessionMismatch => ErrorCode.SessionMismatch
    case InvalidFrame => ErrorCode.InvalidFrame
    case ConflictingDuplicate => ErrorCode.ConflictingDuplicate
    case ResourceLimitExceeded => ErrorCode.ResourceLimitExceeded
  }

  /** The session after the decoder has answered. One that is verifying takes note, but cannot start again. */
  function AnswerStep(s: Session, sessionId: nat, answer: Pwa.Answer): Session {
    var active := if s.state.Verifying? || s.activeSession.Some? then s else s.(activeSession := Some(sessionId));
    match answer
    case Failure(e) => FailedWith(active, CodeOf(e))
    case Success(outcome) =>
      var counted := if outcome.Duplicate? then active.(duplicates := active.duplicates + 1) else active;
      if s.state.Verifying? then counted else counted.(state := if outcome.Complete? then Verifying else Receiving)
  }

  lemma AnswerKeeps(s: Session, sessionId: nat, answer: Pwa.Answer)
    ensures var after := AnswerStep(s, sessionId, answer);
            && (after.origin == s.origin || after.origin.None?)
            && (after.state.Verifying? ==> answer.Success? && (s.state.Verifying? || answer.value.Complete?))
            && (after.state.Failed? || after.state.Verifying? || after.state.Receiving?)
            && (answer.Success? && !s.state.Verifying? ==>
                  after.activeSession == (if s.activeSession.Some? then s.activeSession else Some(sessionId)))
            && (s.state.Verifying? ==> after.activeSession == s.activeSession)
            && after.error == (if answer.Failure? then Some(CodeOf(answer.error)) else s.error)
            && (after.state.Failed? <==> answer.Failure?)
            && after.duplicates == s.duplicates + (if answer == Success(Pwa.Duplicate) then 1 else 0)
            && (after.state.Ready? || after.state.Receiving? ==>
                  answer.Success? && !s.state.Verifying? && !answer.value.Complete?)
  {
  }

  /** What one delivery does to the session, given the decoder's answer to the parsed frame. */
  function ReceiveStep(s: Session, parsed: Result<Frame, ErrorCode>, answer: Pwa.Answer): Session {
    if Over(s) then s
    else
      match parsed
      case Failure(code) => FailedWith(s, code)
      case Success(frame) =>
        if s.activeSession.Some? && frame.header.sessionId != s.activeSession.value then
          s.(foreignFrames := s.foreignFrames + 1)
        else AnswerStep(s, frame.header.sessionId, answer)
  }

  lemma ReceiveIsSound(p: Platform, s: Session, parsed: Result<Frame, ErrorCode>, answer: Pwa.Answer)
    requires Sound(p, s)
    ensures Sound(p, ReceiveStep(s, parsed, answer))
  {
    hide ParsesTo, Certified, Checked;
  }

  /** Any payload whose frames these all are was reassembled byte for byte. */
  ghost predicate Decodes(code: Code, o: Origin) {
    o.header.blockSize > 0 && forall payload: ByteString ::
      (|payload| == o.header.totalPayloadLength && o.header.blockCount == CeilDiv(|payload|, o.header.blockSize)
       && Delivered(code, payload, o.header.blockSize, o.log)) ==> o.transport == payload
  }

  class ReceiverSession {
    const platform: Platform
    const code: Code

    var decoder: Pwa.FountainDecoder
    var state: State
    var generation: nat
    var verification: Option<nat>
    var duplicates: nat
    var foreignFrames: nat
    var activeSession: Option<nat>
    var error: Option<ErrorCode>
    var verified: Option<VerifiedFile>
    var solvedBlocks: nat
    var totalBlocks: nat

    /** Verifications waiting on the platform, each in the closure of its own promise. */
    var suspended: seq<Suspended>
    ghost var origin: Option<Origin>

    ghost function View(): Session
      reads this
    {
      Session(state, generation, verification, duplicates, foreignFrames, activeSession, error, verified, suspended,
              origin)
    }

    ghost predicate Whole()
      reads this, decoder
    {
      decoder.header.Some? && decoder.Solved() == UpTo(decoder.header.value.blockCount)
    }

    /** The answer the decoder owes these bytes, if they are a frame. */
    ghost function AnswerTo(raw: ByteString): Pwa.Answer
      reads this, decoder, decoder.nodes
      requires decoder.Valid()
    {
      match FrameCodec.ParseFrame(raw)
      case Failure(_) => Failure(Pwa.InvalidFrame)
      case Success(frame) =>
        decoder.AnswerTo(Pwa.DeqrFrame(frame.header, frame.payload, platform.fingerprint(raw)))
    }

    /** A frame with this header goes to the decoder: the session is not over, and the frame is not foreign to it. */
    ghost predicate Listening(h: FrameHeader)
      reads this
    {
      !Over(View()) && (activeSession.None? || activeSession.value == h.sessionId)
    }

    /** A session that is not over is verifying exactly when its decoder holds every block. */
    ghost predicate Valid()
      reads this, decoder, decoder.nodes
    {
      && decoder.Valid() && decoder.code == code && Lawful(code)
      && Sound(platform, View())
      && (state.Verifying? ==> Whole())
      && (state.Ready? || state.Receiving? ==> !Whole())
      && (state.Ready? ==> activeSession.None? && decoder.header.None?)
      && (state.Receiving? || state.Verifying? ==>
            decoder.header.Some? && activeSession == Some(decoder.header.value.sessionId))
      && (origin.Some? ==> Decodes(code, origin.value))
    }

    constructor (platform: Platform, code: Code)
      requires Lawful(code)
      ensures Valid() && View() == New() && decoder.header.None? && fresh(decoder) && fresh(decoder.nodes)
      ensures this.platform == platform && this.code == code
    {
      this.platform := platform;
      this.code := code;
      decoder := new Pwa.FountainDecoder(code);
      state, generation, verification, duplicates, foreignFrames := Ready, 0, None, 0, 0;
      activeSession, error, verified, solvedBlocks, totalBlocks, suspended, origin := None, None, None, 0, 0, [], None;
    }

    method Cancel()
      requires Valid()
      modifies this, decoder, decoder.nodes
      ensures Valid() && View() == Cleared(old(View()), Cancelled)
      ensures View() == New().(generation := old(generation) + 1, suspended := old(suspended), state := Cancelled)
      ensures fresh(decoder) && fresh(decoder.nodes)
    {
      hide Sound, Pwa.FountainDecoder.Valid;
      ClearedIsSound(platform, View(), Cancelled);
      Clear();
      state := Cancelled;
    }

    method Reset()
      requires Valid()
      modifies this, decoder, decoder.nodes
      ensures Valid() && View() == Cleared(old(View()), Ready)
      // As good as new, but for verifications of earlier generations, which can no longer have any effect.
      ensures View() == New().(generation := old(generation) + 1, suspended := old(suspended))
      ensures fresh(decoder) && fresh(decoder.nodes)
    {
      hide Sound, Pwa.FountainDecoder.Valid;
      ClearedIsSound(platform, View(), Ready);
      Clear();
      state := Ready;
    }

    method Clear()
      requires Lawful(code)
      modifies this
      ensures View() == Cleared(old(View()), old(state))
      ensures decoder.Valid() && decoder.code == code && fresh(decoder) && fresh(decoder.nodes)
      ensures decoder.header.None?
    {
      Forget();
      ReleaseDecoder();
    }

    method Forget()
      modifies this
      ensures View() == Cleared(old(View()), old(state)) && decoder == old(decoder)
    {
      EndGeneration();
      duplicates, foreignFrames, activeSession, error := 0, 0, None, None;
      solvedBlocks, totalBlocks := 0, 0;
    }

    /** Overtakes whatever verification is still waiting, and forgets any file. */
    method EndGeneration()
      modifies this`generation, this`verification, this`verified, this`origin
      ensures View() == old(View()).(generation := old(generation) + 1, verification := None, verified := None,
                                     origin := None)
    {
      generation := generation + 1;
      verification := None;
      verified := None;
      origin := None;
    }

    method ReleaseDecoder()
      requires Lawful(code)
      modifies this`decoder
      ensures decoder.Valid() && decoder.code == code && fresh(decoder) && fresh(decoder.nodes) && decoder.header.None?
    {
      decoder := new Pwa.FountainDecoder(code);
    }

    method Fail(e: ErrorCode)
      requires Lawful(code)
      modifies this
      ensures View() == FailedWith(old(View()), e)
      ensures decoder.Valid() && decoder.code == code && fresh(decoder) && fresh(decoder.nodes)
    {
      hide Pwa.FountainDecoder.Valid;
      EndGeneration();
      error := Some(e);
      state := Failed;
      ReleaseDecoder();
    }

    method Receive(raw: ByteString)
      requires Valid()
      modifies this, decoder, decoder.nodes
      ensures Valid()
      ensures View() == ReceiveStep(old(View()), FrameCodec.ParseFrame(raw), old(AnswerTo(raw)))
      ensures FrameCodec.ParseFrame(raw).Success? && old(Listening(FrameCodec.ParseFrame(raw).value.header))
              && old(AnswerTo(raw)).Success? ==>
                var frame := FrameCodec.ParseFrame(raw).value;
                && decoder == old(decoder)
                && decoder.header == (if old(decoder.header).Some? then old(decoder.header) else Some(frame.header))
                && decoder.seen == old(decoder.seen)[frame.header.sequenceNumber := platform.fingerprint(raw)]
                && decoder.dropped == old(decoder.dropped)
                && decoder.log <= old(decoder.log) + {Heard(frame.header.sequenceNumber, frame.payload)}
      // Bytes that are no frame, and frames the decoder refuses, fail the session for their own reason.
      ensures !Over(old(View())) && FrameCodec.ParseFrame(raw).Failure? ==>
                state.Failed? && error == Some(FrameCodec.ParseFrame(raw).error)
      ensures FrameCodec.ParseFrame(raw).Success? && old(Listening(FrameCodec.ParseFrame(raw).value.header)) ==>
                var answer := old(AnswerTo(raw));
                && (state.Failed? <==> answer.Failure?)
                && (answer == Failure(Pwa.ConflictingDuplicate) ==> error == Some(ErrorCode.ConflictingDuplicate))
                && (answer == Failure(Pwa.ResourceLimitExceeded) ==> error == Some(ErrorCode.ResourceLimitExceeded))
                && (answer == Failure(Pwa.InvalidFrame) ==> error == Some(ErrorCode.InvalidFrame))
                && duplicates == old(duplicates) + (if answer == Success(Pwa.Duplicate) then 1 else 0)
      // A stray frame of another transfer is counted, and disturbs nothing.
      ensures FrameCodec.ParseFrame(raw).Success? && !Over(old(View()))
              && old(activeSession) !in {None, Some(FrameCodec.ParseFrame(raw).value.header.sessionId)} ==>
                View() == old(View()).(foreignFrames := old(foreignFrames) + 1)
      ensures error == Some(ErrorCode.SessionMismatch) ==> old(error) == error
      ensures decoder == old(decoder) || fresh(decoder)
      ensures fresh(decoder.nodes - old(decoder.nodes))
    {
      hide Sound, Decodes, FrameCodec.ParseFrame, FrameCodec.Serialized, Pwa.FountainDecoder.Valid,
           Pwa.FountainDecoder.AnswerTo, AnswerStep;
      if state.Complete? || state.Failed? || state.Cancelled? {
        return;
      }
      var parsed := FrameCodec.ParseFrame(raw);
      ReceiveIsSound(platform, View(), parsed, AnswerTo(raw));
      FrameCodec.ParserKnowsNoSessions(raw);
      if parsed.Failure? {
        Fail(parsed.error);
        return;
      }
      FrameCodec.AcceptedIsSerialized(raw);
      var frame := parsed.value;
      if activeSession.Some? && frame.header.sessionId != activeSession.value {
        foreignFrames := foreignFrames + 1;
        return;
      }
      Deliver(Pwa.DeqrFrame(frame.header, frame.payload, platform.fingerprint(raw)));
    }

    /** Hands an accepted frame to the decoder; one that arrives while verification is starting cannot restart it. */
    method Deliver(frame: Pwa.DeqrFrame)
      requires Valid() && !Over(View())
      requires |frame.payload| == frame.header.blockSize > 0 && frame.header.blockCount > 0
      requires activeSession.None? || activeSession.value == frame.header.sessionId
      modifies this, decoder, decoder.nodes
      ensures Valid()
      ensures var parsed := Success(Frame(frame.header, frame.payload));
              View() == ReceiveStep(old(View()), parsed, old(decoder.AnswerTo(frame)))
      ensures error == Some(ErrorCode.SessionMismatch) ==> old(error) == error
      ensures state.Failed? <==> old(decoder.AnswerTo(frame)).Failure?
      ensures state.Failed? ==> error == Some(CodeOf(old(decoder.AnswerTo(frame)).error))
      ensures duplicates == old(duplicates) + (if old(decoder.AnswerTo(frame)) == Success(Pwa.Duplicate) then 1 else 0)
      ensures old(decoder.AnswerTo(frame)).Success? ==>
                && decoder == old(decoder)
                && decoder.header == (if old(decoder.header).Some? then old(decoder.header) else Some(frame.header))
                && decoder.seen == old(decoder.seen)[frame.header.sequenceNumber := frame.fingerprint]
                && decoder.dropped == old(decoder.dropped)
                && decoder.log <= old(decoder.log) + {Heard(frame.header.sequenceNumber, frame.payload)}
      ensures decoder == old(decoder) || fresh(decoder)
      ensures fresh(decoder.nodes - old(decoder.nodes))
    {
      hide Sound, Decodes, Pwa.FountainDecoder.Valid, Pwa.FountainDecoder.AnswerTo, AnswerStep, UpTo;
      decoder.OwnSessionMatches(frame);
      var answer := Feed(frame);
      ReceiveIsSound(platform, View(), Success(Frame(frame.header, frame.payload)), answer);
      AnswerKeeps(View(), frame.header.sessionId, answer);
      NoteAnswer(frame.header.sessionId, answer);
    }

    method NoteAnswer(sessionId: nat, answer: Pwa.Answer)
      requires Lawful(code)
      modifies this
      ensures View() == AnswerStep(old(View()), sessionId, answer)
      ensures answer.Failure? ==> decoder.Valid() && decoder.code == code && fresh(decoder) && fresh(decoder.nodes)
      ensures answer.Success? ==> decoder == old(decoder)
    {
      hide Pwa.FountainDecoder.Valid, Lawful;
      if !state.Verifying? && activeSession.None? {
        activeSession := Some(sessionId);
      }
      if answer.Failure? {
        Fail(CodeOf(answer.error));
        return;
      }
      if answer.value.Duplicate? {
        duplicates := duplicates + 1;
      }
      solvedBlocks, totalBlocks := decoder.solved, |decoder.blocks|;
      if !state.Verifying? {
        state := if answer.value.Complete? then Verifying else Receiving;
      }
    }

    /** The decoder's answer to one frame. What it has recovered in full it keeps. */
    method Feed(frame: Pwa.DeqrFrame) returns (answer: Pwa.Answer)
      requires decoder.Valid() && decoder.code == code
      requires |frame.payload| == frame.header.blockSize > 0 && frame.header.blockCount > 0
      modifies decoder, decoder.nodes
      ensures decoder.Valid() && fresh(decoder.nodes - old(decoder.nodes))
      ensures answer == old(decoder.AnswerTo(frame))
      ensures answer.Success? ==>
                && decoder.header == (if old(decoder.header).Some? then old(decoder.header) else Some(frame.header))
                && decoder.seen == old(decoder.seen)[frame.header.sequenceNumber := frame.fingerprint]
                && decoder.dropped == old(decoder.dropped)
                && decoder.log <= old(decoder.log) + {Heard(frame.header.sequenceNumber, frame.payload)}
      ensures answer.Success? ==> (Whole() <==> answer.value.Complete? || old(Whole()))
    {
      hide UpTo, Closure, Pwa.FountainDecoder.AnswerTo, Pwa.FountainDecoder.Refusal,
           Pwa.FountainDecoder.NoRoom, Pwa.FountainDecoder.Valid, Pwa.FountainDecoder.MaximumSeenFrames;
      ghost var whole, log, header := Whole(), decoder.log, decoder.header;
      decoder.AnswerCases(frame);
      if whole {
        decoder.Settle();
      }
      answer := decoder.Receive(frame);
      if whole && answer.Success? {
        ClosureStaysFull(code, header.value.blockCount, Sequences(log), Sequences(decoder.log));
      }
    }

    /** The part of `verify` that runs before it first waits. A call while one is waiting is answered by that one. */
    method Verify() returns (ghost o: Origin, ghost outcome: Result<Parsed, ErrorCode>)
      requires Valid()
      modifies this
      ensures Valid()
      ensures View() == VerifyStep(platform, old(View()), o, outcome)
      ensures old(state).Verifying? && old(verification).None? ==>
                && o.header == old(decoder.header.value) && o.log == old(decoder.log)
                && o.transport == old(Prefix(Join(Values(decoder.blocks), decoder.header.value.blockSize),
                                             decoder.header.value.totalPayloadLength))
                && Judged(o.transport, platform.text, outcome) && RefusedFor(platform, View(), outcome)
      ensures decoder == old(decoder) || fresh(decoder)
    {
      hide Sound, Pwa.FountainDecoder.Valid, ParsesTo, VerifyStep, Judged, RefusedFor;
      ghost var before := View();
      if !state.Verifying? || verification.Some? {
        o, outcome := Origin(FrameHeader(0, 0, 0, 0, 0, 0, 0), {}, []), Failure(InvalidMetadata);
        VerifyAgain(platform, before, o, outcome);
        return;
      }
      var reconstructed := decoder.Reconstruct();
      o := Origin(decoder.header.value, decoder.log, reconstructed.value);
      ReassemblyDecodes(o);
      var parsed := ParseContainer(reconstructed.value, platform.text);
      outcome := parsed;
      assert parsed.Success? ==> ParsesTo(platform, o.transport, parsed.value) by {
        ParserParses(platform, o.transport, parsed);
      }
      VerifyIsSound(platform, before, o, parsed);
      VerifyKeeps(platform, before, o, parsed);
      VerifyRefuses(platform, before, o, parsed);
      Begin(o, parsed);
    }

    lemma ReassemblyDecodes(o: Origin)
      requires Valid() && Whole()
      requires o == Origin(decoder.header.value, decoder.log,
                           Prefix(Join(Values(decoder.blocks), decoder.header.value.blockSize),
                                  decoder.header.value.totalPayloadLength))
      ensures Decodes(code, o)
    {
      hide Sound;
      decoder.Settle();
      forall payload: ByteString | |payload| == o.header.totalPayloadLength
                                   && o.header.blockCount == CeilDiv(|payload|, o.header.blockSize)
                                   && Delivered(code, payload, o.header.blockSize, o.log)
        ensures o.transport == payload
      {
        PwaDecodes(decoder, payload);
      }
    }

    /** Checks the container and starts whatever has to be waited for. */
    method Begin(ghost o: Origin, parsed: Result<Parsed, ErrorCode>)
      requires Lawful(code) && state.Verifying? && verification.None?
      modifies this
      ensures View() == VerifyStep(platform, old(View()), o, parsed)
      ensures state.Verifying? ==> decoder == old(decoder)
      ensures !state.Verifying? ==> decoder.Valid() && decoder.code == code && fresh(decoder) && fresh(decoder.nodes)
    {
      hide Refusal, Lawful, Pwa.FountainDecoder.Valid;
      RefusedUnlessParsed(platform, parsed);
      var begun, refusal := generation, Refusal(platform, parsed);
      if refusal.Some? {
        Fail(refusal.value);
      } else {
        var c := parsed.value;
        suspended := suspended + [Suspended(begun, c, if c.compressed then Inflating else Hashing(c.payload))];
        origin := Some(o);
      }
      verification := Some(begun);
    }

    /** Decompression of suspended verification `i` has ended. */
    method ResumeInflated(i: nat, result: Inflation)
      requires Valid() && i < |suspended| && suspended[i].stage.Inflating?
      modifies this
      ensures Valid() && View() == InflatedStep(old(View()), i, result)
      ensures old(suspended[i].generation) == old(generation) && result.InflationRefused? ==>
                state.Failed? && error == Some(result.code)
      ensures old(suspended[i].generation) == old(generation) && result.Inflated? ==>
                if |result.bytes| == old(suspended[i].container.originalSize) then state == old(state)
                else state.Failed? && error == Some(ErrorCode.SizeMismatch)
      ensures old(suspended[i].generation) != old(generation) ==> OnlyForgets(old(View()), View(), i)
    {
      hide Sound, Pwa.FountainDecoder.Valid;
      InflatedIsSound(platform, View(), i, result);
      var v := suspended[i];
      var refused := match result
        case InflationRefused(e) => Some(e)
        case Inflated(bytes) => if |bytes| != v.container.originalSize then Some(ErrorCode.SizeMismatch) else None;
      if refused.None? {
        suspended := suspended[i := v.(stage := Hashing(result.bytes))];
        return;
      }
      suspended := suspended[..i] + suspended[i + 1..];
      if v.generation == generation {
        Fail(refused.value);
      }
    }

    /** The digest of suspended verification `i` has arrived. */
    method ResumeDigest(i: nat)
      requires Valid() && i < |suspended| && suspended[i].stage.Hashing?
      modifies this
      ensures Valid() && View() == DigestStep(platform, old(View()), i)
      // A current verification ends in COMPLETE with its own bytes exactly when they have the declared hash.
      ensures old(suspended[i].generation) == old(generation) ==>
                var v := old(suspended[i]);
                && (state.Complete? <==> platform.sha256(v.stage.bytes) == v.container.sha256)
                && (state.Complete? ==> verified.Some? && verified.value.bytes == v.stage.bytes
                                        && verified.value.filename == v.container.filename)
                && (!state.Complete? ==> state.Failed? && error == Some(HashMismatch))
      ensures old(suspended[i].generation) != old(generation) ==> OnlyForgets(old(View()), View(), i)
    {
      hide Sound, Pwa.FountainDecoder.Valid;
      DigestIsSound(platform, View(), i);
      var v := suspended[i];
      var hash := platform.sha256(v.stage.bytes);
      suspended := suspended[..i] + suspended[i + 1..];
      if v.generation != generation {
        return;
      }
      if hash != v.container.sha256 {
        Fail(HashMismatch);
        return;
      }
      var mimeType := if v.container.mimeType == [] then OCTET_STREAM else v.container.mimeType;
      verified := Some(VerifiedFile(v.container.filename, mimeType, v.stage.bytes, hash));
      state := Complete;
      verification := None;
      ReleaseDecoder();
    }
  }

  lemma RefusedUnlessParsed(p: Platform, parsed: Result<Parsed, ErrorCode>)
    ensures Refusal(p, parsed).None? ==> parsed.Success?
  {
  }

  /** The session fails exactly if its container cannot be read, is encrypted, or names a blocked type, and says so. */
  predicate RefusedFor(p: Platform, after: Session, parsed: Result<Parsed, ErrorCode>) {
    && (parsed.Failure? ==> after.state.Failed? && after.error == Some(parsed.error))
    && (parsed.Success? && parsed.value.encrypted ==> after.state.Failed? && after.error == Some(EncryptedContainer))
    && (parsed.Success? && !parsed.value.encrypted && p.blocked(parsed.value.filename) ==>
          after.state.Failed? && after.error == Some(FileTypeBlocked))
    && (after.state.Failed? ==> parsed.Failure? || parsed.value.encrypted || p.blocked(parsed.value.filename))
  }

  lemma VerifyRefuses(p: Platform, s: Session, o: Origin, parsed: Result<Parsed, ErrorCode>)
    requires s.state.Verifying? && s.verification.None? && Judged(o.transport, p.text, parsed)
    ensures RefusedFor(p, VerifyStep(p, s, o, parsed), parsed)
  {
  }

  lemma VerifyAgain(p: Platform, s: Session, o: Origin, parsed: Result<Parsed, ErrorCode>)
    requires !s.state.Verifying? || s.verification.Some?
    ensures VerifyStep(p, s, o, parsed) == s
  {
  }

  lemma ParserParses(p: Platform, transport: ByteString, parsed: Result<Parsed, ErrorCode>)
    requires Judged(transport, p.text, parsed)
    ensures parsed.Success? ==> ParsesTo(p, transport, parsed.value)
  {
  }

  lemma VerifyKeeps(p: Platform, s: Session, o: Origin, parsed: Result<Parsed, ErrorCode>)
    ensures var after := VerifyStep(p, s, o, parsed);
            && (after.origin == s.origin || after.origin.None? || after.origin == Some(o))
            && (after.state == s.state || after.state.Failed?) && after.activeSession == s.activeSession
  {
  }

  // ---------------------------------------------------------------- what a verified file is

  /** `verified` is exposed exactly in the COMPLETE state, and then it is the file its container declares. */
  lemma VerifiedIffComplete(session: ReceiverSession)
    requires session.Valid()
    ensures session.verified.Some? <==> session.state.Complete?
    ensures session.verified.Some? ==> session.origin.Some? && exists c ::
              ParsesTo(session.platform, session.origin.value.transport, c)
              && Certified(session.platform, c, session.verified.value)
  {
  }

  /** End to end: if all the frames heard were one sender's, whatever was lost, repeated or reordered,
      then a completed session holds that sender's file. */
  lemma CompleteIsTheFileSent(session: ReceiverSession, c: Container)
    requires session.Valid() && session.state.Complete? && session.origin.Some?
    requires Writable(c) && Acceptable(c, session.platform.text)
             && session.platform.text.sanitize(c.filename) == c.filename
    requires var o := session.origin.value;
             && o.header.blockSize > 0 && o.header.totalPayloadLength == |Serialized(c)|
             && o.header.blockCount == CeilDiv(|Serialized(c)|, o.header.blockSize)
             && Delivered(session.code, Serialized(c), o.header.blockSize, o.log)
    ensures var file := session.verified.value;
            && file.filename == c.filename && |file.bytes| == c.originalSize
            && session.platform.sha256(file.bytes) == c.sha256
            && (!c.compressed ==> file.bytes == c.payload)
  {
    hide Serialized, Raw;
    assert session.origin.value.transport == Serialized(c);
    ContainerRoundTrip(c, session.platform.text);
  }

  // ---------------------------------------------------------------- a whole transfer

  /** One sender's transfer. */
  datatype Sender = Sender(code: Code, payload: ByteString, size: nat, sessionId: nat)

  /** A transfer the receiver's limits allow. */
  ghost predicate Sendable(s: Sender) {
    && Lawful(s.code) && 0 < s.size <= 2048 && 0 < |s.payload| <= 64 * 1024 * 1024
    && CeilDiv(|s.payload|, s.size) <= 65535 && s.sessionId < 0x1_0000_0000
  }

  function FrameOf(s: Sender, n: nat): Frame
    requires s.size > 0
  {
    FrameCodec.EncoderFrame(s.code, s.payload, s.size, s.sessionId, n)
  }

  /** The frame of this number as it travels. */
  ghost function Wire(s: Sender, n: nat): ByteString
    requires Sendable(s) && n < 0x1_0000_0000
  {
    FrameCodec.Serialized(FrameOf(s, n))
  }

  /** What a decoder holds that has caught exactly these numbers of the sender's frames, and nothing else. */
  ghost predicate Holding(header: Option<FrameHeader>, seen: map<nat, nat>, log: set<Heard>, s: Sender,
                          numbers: set<nat>, fingerprint: ByteString -> nat)
    requires Sendable(s)
  {
    && seen.Keys == numbers && Delivered(s.code, s.payload, s.size, log)
    && (if numbers == {} then header.None? && log == {}
        else header.Some? && SameSession(header.value, FrameOf(s, 0).header))
    && forall n :: n in numbers ==> n < 0x1_0000_0000 && seen[n] == fingerprint(Wire(s, n))
  }

  ghost predicate Catching(v: Session, s: Sender, numbers: set<nat>) {
    if numbers == {} then v == New()
    else
      && (v.state.Receiving? || v.state.Verifying?) && v.activeSession == Some(s.sessionId)
      && v.suspended == [] && v.verification.None?
  }

  ghost predicate Caught(session: ReceiverSession, s: Sender, numbers: set<nat>)
    reads session, session.decoder, session.decoder.nodes
    requires Sendable(s)
  {
    var d := session.decoder;
    && session.Valid() && session.code == s.code && d.dropped == {} && Catching(session.View(), s, numbers)
    && Holding(d.header, d.seen, d.log, s, numbers, session.platform.fingerprint)
  }

  /** A sender's frame is never refused while there is room for its number. */
  method Catch(session: ReceiverSession, s: Sender, n: nat, raw: ByteString, ghost numbers: set<nat>)
    requires Sendable(s) && n < 0x1_0000_0000 && raw == Wire(s, n) && Caught(session, s, numbers)
    requires HasRoom(numbers + {n}, FrameOf(s, 0).header)
    modifies session, session.decoder, session.decoder.nodes
    ensures Caught(session, s, numbers + {n})
    ensures session.decoder == old(session.decoder) && fresh(session.decoder.nodes - old(session.decoder.nodes))
  {
    hide ReceiverSession.Valid, ReceiverSession.AnswerTo, ReceiverSession.Listening, HasRoom, FrameCodec.ParseFrame,
         ReceiveStep, Sendable, Wire, FrameOf, Catching, Holding;
    SentParses(s, n);
    NeverRefused(session, s, n, raw, numbers);
    CatchStep(session.View(), s, n, session.AnswerTo(raw), numbers);
    ghost var d := session.decoder;
    ghost var header, seen, log := d.header, d.seen, d.log;
    session.Receive(raw);
    HoldingMore(header, seen, log, s, n, numbers, session.platform.fingerprint, d.header, d.seen, d.log);
  }

  lemma SentParses(s: Sender, n: nat)
    requires Sendable(s) && n < 0x1_0000_0000
    ensures FrameCodec.ParseFrame(Wire(s, n)) == Success(FrameOf(s, n))
  {
    hide FrameCodec.ParseFrame, FrameCodec.Serialized;
    FrameCodec.EncoderFrameSurvives(s.code, s.payload, s.size, s.sessionId, n);
  }

  lemma HoldingMore(header: Option<FrameHeader>, seen: map<nat, nat>, log: set<Heard>, s: Sender, n: nat,
                    numbers: set<nat>, fingerprint: ByteString -> nat,
                    adopted: Option<FrameHeader>, more: map<nat, nat>, longer: set<Heard>)
    requires Sendable(s) && n < 0x1_0000_0000 && Holding(header, seen, log, s, numbers, fingerprint)
    requires var frame := FrameOf(s, n);
             && adopted == (if header.Some? then header else Some(frame.header))
             && more == seen[frame.header.sequenceNumber := fingerprint(Wire(s, n))]
             && longer <= log + {Heard(frame.header.sequenceNumber, frame.payload)}
    ensures Holding(adopted, more, longer, s, numbers + {n}, fingerprint)
  {
    hide Encoded, Wire;
  }

  lemma CatchStep(v: Session, s: Sender, n: nat, answer: Pwa.Answer, numbers: set<nat>)
    requires Sendable(s) && answer.Success? && Catching(v, s, numbers)
    ensures Catching(ReceiveStep(v, Success(FrameOf(s, n)), answer), s, numbers + {n})
  {
  }

  lemma NeverRefused(session: ReceiverSession, s: Sender, n: nat, raw: ByteString, numbers: set<nat>)
    requires Sendable(s) && n < 0x1_0000_0000 && raw == Wire(s, n) && Caught(session, s, numbers)
    requires HasRoom(numbers + {n}, FrameOf(s, 0).header)
    ensures session.decoder.Valid() && session.AnswerTo(raw).Success? && session.Listening(FrameOf(s, n).header)
  {
    hide HasRoom, Wire, FrameCodec.ParseFrame, Pwa.FountainDecoder.Valid, Pwa.FountainDecoder.AnswerTo,
         Pwa.FountainDecoder.NoRoom, Closure, Sound;
    SentParses(s, n);
    var frame := Pwa.DeqrFrame(FrameOf(s, n).header, FrameOf(s, n).payload, session.platform.fingerprint(raw));
    session.decoder.AnswerCases(frame);
    RoomIsEnough(session.decoder, frame, FrameOf(s, 0).header);
  }

  /** A session that has caught frames is verifying exactly when peeling can reach every block from their numbers. */
  lemma VerifyingIff(session: ReceiverSession, s: Sender, numbers: set<nat>)
    requires Sendable(s) && Caught(session, s, numbers) && numbers != {}
    ensures var k := CeilDiv(|s.payload|, s.size);
            session.state.Verifying? <==> Closure(s.code, k, numbers) == UpTo(k)
  {
    hide Closure, Sound, CeilDiv, UpTo, Delivered, Wire, Pwa.FountainDecoder.Valid;
    session.decoder.ArrivalsDecide();
  }

  method CatchAll(session: ReceiverSession, s: Sender, picks: seq<nat>, wires: seq<ByteString>)
    requires Sendable(s) && Caught(session, s, {}) && |wires| == |picks|
    requires forall i :: 0 <= i < |picks| ==> picks[i] < 0x1_0000_0000 && wires[i] == Wire(s, picks[i])
    requires HasRoom(Elements(picks), FrameOf(s, 0).header)
    modifies session, session.decoder, session.decoder.nodes
    ensures Caught(session, s, Elements(picks))
    ensures session.decoder == old(session.decoder)
  {
    hide Caught, HasRoom, Wire, FrameOf;
    var i := 0;
    assert Elements(picks[..0]) == {};
    while i < |picks|
      invariant 0 <= i <= |picks| && Caught(session, s, Elements(picks[..i]))
      invariant session.decoder == old(session.decoder)
      invariant fresh(session.decoder.nodes - old(session.decoder.nodes))
    {
      OnePickMore(picks, i);
      RoomForFewer(Elements(picks[..i]) + {picks[i]}, Elements(picks), FrameOf(s, 0).header);
      Catch(session, s, picks[i], wires[i], Elements(picks[..i]));
      i := i + 1;
    }
    assert picks[..i] == picks;
  }

  lemma OnePickMore(picks: seq<nat>, i: nat)
    requires i < |picks|
    ensures Elements(picks[..i + 1]) == Elements(picks[..i]) + {picks[i]} <= Elements(picks)
  {
  }

  /** A container the receiver will take: acceptable, in the clear, and of a type that is not blocked. */
  ghost predicate Welcome(p: Platform, c: Container) {
    && |c.sha256| == 32 && c.timestamp < 0x1_0000_0000_0000_0000
    && Acceptable(c, p.text) && p.text.sanitize(c.filename) == c.filename && p.text.valid(MAGIC)
    && !c.encrypted && !p.blocked(c.filename)
  }

  /** The container holds this file: its digest is right, and it is the payload, or what the payload inflates to. */
  ghost predicate Holds(p: Platform, c: Container, file: ByteString, inflation: Inflation) {
    && |file| == c.originalSize && p.sha256(file) == c.sha256
    && (if c.compressed then inflation == Inflated(file) else file == c.payload)
  }

  function Exposed(c: Container, file: ByteString): VerifiedFile {
    VerifiedFile(c.filename, if c.mimeType == [] then OCTET_STREAM else c.mimeType, file, c.sha256)
  }

  /** Verification takes a good transfer to COMPLETE. */
  method VerifyCaught(session: ReceiverSession, ghost s: Sender, ghost c: Container, ghost file: ByteString,
                      inflation: Inflation, ghost numbers: set<nat>)
    requires Sendable(s) && Caught(session, s, numbers) && session.state.Verifying?
    requires Welcome(session.platform, c) && s.payload == Serialized(c) && Holds(session.platform, c, file, inflation)
    modifies session
    ensures session.Valid() && session.state.Complete? && session.verified == Some(Exposed(c, file))
  {
    hide ReceiverSession.Valid, VerifyStep, InflatedStep, DigestStep, Judged;
    ghost var v := session.View();
    ghost var o := ReassembledIs(session, s, numbers);
    var went, outcome := session.Verify();
    VerifyStarts(session.platform, v, o, outcome, c, file);
    if session.suspended[0].stage.Inflating? {
      InflationGoesOn(session.View(), file);
      session.ResumeInflated(0, inflation);
    }
    DigestCompletes(session.platform, session.View());
    session.ResumeDigest(0);
  }

  lemma ReassembledIs(session: ReceiverSession, s: Sender, numbers: set<nat>) returns (o: Origin)
    requires Sendable(s) && Caught(session, s, numbers) && session.state.Verifying?
    ensures session.decoder.header.Some? && o.header == session.decoder.header.value && o.log == session.decoder.log
    ensures o.transport == s.payload
    ensures o.transport == Prefix(Join(Values(session.decoder.blocks), o.header.blockSize), o.header.totalPayloadLength)
  {
    hide Sound, Closure, Delivered, Join, Pwa.FountainDecoder.Valid;
    var d := session.decoder;
    o := Origin(d.header.value, d.log,
                Prefix(Join(Values(d.blocks), d.header.value.blockSize), d.header.value.totalPayloadLength));
    session.ReassemblyDecodes(o);
  }

  lemma VerifyStarts(p: Platform, v: Session, o: Origin, outcome: Result<Parsed, ErrorCode>, c: Container,
                     file: ByteString)
    requires Welcome(p, c) && o.transport == Serialized(c) && |Serialized(c)| <= MAX_FILE_SIZE
    requires Judged(o.transport, p.text, outcome)
    requires v.state.Verifying? && v.verification.None? && v.suspended == []
    requires !c.compressed ==> file == c.payload
    ensures var after := VerifyStep(p, v, o, outcome);
            && |after.suspended| == 1 && after.suspended[0].generation == after.generation
            && after.suspended[0].container
            == Parsed(c.filename, c.mimeType, c.originalSize, c.compressed, c.encrypted, c.sha256, c.payload)
            && after.suspended[0].stage == if c.compressed then Inflating else Hashing(file)
  {
    hide Serialized, Raw;
    ContainerRoundTrip(c, p.text);
  }

  lemma InflationGoesOn(v: Session, file: ByteString)
    requires |v.suspended| == 1 && v.suspended[0].stage.Inflating? && |file| == v.suspended[0].container.originalSize
    ensures InflatedStep(v, 0, Inflated(file)) == v.(suspended := [v.suspended[0].(stage := Hashing(file))])
  {
  }

  lemma DigestCompletes(p: Platform, v: Session)
    requires |v.suspended| == 1 && v.suspended[0].stage.Hashing? && v.suspended[0].generation == v.generation
    requires p.sha256(v.suspended[0].stage.bytes) == v.suspended[0].container.sha256
    ensures var (after, c) := (DigestStep(p, v, 0), v.suspended[0].container);
            && after.state.Complete?
            && after.verified == Some(VerifiedFile(c.filename, if c.mimeType == [] then OCTET_STREAM else c.mimeType,
                                                   v.suspended[0].stage.bytes, c.sha256))
  {
  }

  /** One file from end to end. Of a sender's frames, whatever numbers a fresh session catches, in any order and with
      any repeats, as long as it has room for them: it goes to VERIFYING exactly when peeling can reach every block,
      and then verification, inflating what was compressed, ends in COMPLETE with the file that was sent. */
  method TransferFile(platform: Platform, s: Sender, c: Container, file: ByteString, inflation: Inflation,
                      picks: seq<nat>, wires: seq<ByteString>)
    returns (session: ReceiverSession)
    requires Sendable(s) && Welcome(platform, c) && s.payload == Serialized(c) && Holds(platform, c, file, inflation)
    requires picks != [] && |wires| == |picks|
    requires forall i :: 0 <= i < |picks| ==> picks[i] < 0x1_0000_0000 && wires[i] == Wire(s, picks[i])
    requires HasRoom(Elements(picks), FrameOf(s, 0).header)
    ensures session.Valid()
    ensures var k := CeilDiv(|s.payload|, s.size);
            if Closure(s.code, k, Elements(picks)) == UpTo(k)
            then session.state.Complete? && session.verified == Some(Exposed(c, file))
            else session.state.Receiving? && session.verified.None?
  {
    hide ReceiverSession.Valid, Caught, HasRoom, Wire, Closure, UpTo, Welcome, Holds, FrameOf;
    session := new ReceiverSession(platform, s.code);
    NothingCaught(session, s);
    CatchAll(session, s, picks, wires);
    assert picks[0] in Elements(picks);
    VerifyingIff(session, s, Elements(picks));
    StillReceiving(session, s, Elements(picks));
    if session.state.Verifying? {
      VerifyCaught(session, s, c, file, inflation, Elements(picks));
    }
  }

  lemma NothingCaught(session: ReceiverSession, s: Sender)
    requires Sendable(s) && session.Valid() && session.View() == New() && session.code == s.code
    requires session.decoder.header.None?
    ensures Caught(session, s, {})
  {
    hide Sound, Closure;
  }

  lemma StillReceiving(session: ReceiverSession, s: Sender, numbers: set<nat>)
    requires Sendable(s) && Caught(session, s, numbers) && numbers != {}
    ensures session.Valid() && session.verified.None? && (session.state.Receiving? || session.state.Verifying?)
  {
  }
}
