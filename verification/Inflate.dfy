/** Turning a received window container back into the original file, one bounded window at a time. */
module Inflates {
  import opened BigEndian
  import opened Bytes
  import opened SegmentPlans
  import opened StreamDigests

  const LENGTH_PREFIX_BYTES: nat := 4
  const MIN_GZIP_MEMBER_BYTES: nat := 18

  /** Windows cut the original file exactly as segments cut the transport stream. */
  type WindowPlan = SegmentPlan

  function MaxCompressedWindowBytes(windowBytes: nat): nat {
    windowBytes + windowBytes / 4096 + windowBytes / 16384 + windowBytes / 33554432 + 13
    + MIN_GZIP_MEMBER_BYTES + LENGTH_PREFIX_BYTES
  }

  /** The ceiling admits a record of stored blocks, so a window of any bytes can be sent, and hardly more than that. */
  lemma RecordCeiling(windowBytes: nat)
    ensures var stored := windowBytes + 5 * (windowBytes / 65535 + 1) + 18;
            stored + 4 <= MaxCompressedWindowBytes(windowBytes) <= windowBytes + windowBytes / 2048 + 35
  {
    var n := windowBytes;
    assert n / 4096 * 4096 <= n < (n / 4096 + 1) * 4096;
    assert n / 65535 * 65535 <= n;
    assert n / 16384 <= n / 4096 / 4 && n / 33554432 <= n / 4096 / 8192;
  }

  /** What a decompressor makes of a member: the chunks it hands over, and whether it then ends or fails. */
  datatype Gunzip = Gunzip(chunks: seq<ByteString>, sound: bool)
  type Decompressor = ByteString -> Gunzip

  datatype InflateFailure =
    | Unsupported | ContainerInvalid | DecompressionFailed | SizeMismatch
    | ReadFailed | StorageFull | WriteFailed | Cancelled

  datatype InflateResult = Inflated(bytesWritten: nat) | Refused(code: InflateFailure)
  datatype StoreOutcome = WriteOk | WriteFull | WriteBroken

  /** What has been written, in order. The `n`-th write is answered by `answers(n)`. */
  class OriginalSink {
    const answers: nat -> StoreOutcome
    var calls: nat
    var log: seq<Piece>

    constructor (answers: nat -> StoreOutcome)
      ensures this.answers == answers && calls == 0 && log == []
    {
      this.answers := answers;
      calls := 0;
      log := [];
    }

    method Write(offset: nat, bytes: ByteString) returns (outcome: StoreOutcome)
      modifies this
      ensures outcome == answers(old(calls)) && calls == old(calls) + 1
      ensures log == if outcome.WriteOk? then old(log) + [Piece(offset, bytes)] else old(log)
    {
      outcome := answers(calls);
      calls := calls + 1;
      if outcome.WriteOk? {
        log := log + [Piece(offset, bytes)];
      }
    }
  }

  datatype Piece = Piece(offset: nat, bytes: ByteString)

  // ---------------------------------------------------------------- one member

  function Concat(chunks: seq<ByteString>): ByteString {
    if chunks == [] then [] else Concat(chunks[..|chunks| - 1]) + chunks[|chunks| - 1]
  }

  /** A byte count, a member that kept producing, or one that would not decode. */
  datatype Produced = Produced(count: nat) | Overflowed | Undecodable

  function Outcome(g: Gunzip, room: nat): Produced {
    if |Concat(g.chunks)| > room then Overflowed
    else if !g.sound then Undecodable
    else Produced.Produced(|Concat(g.chunks)|)
  }

  lemma {:induction false} PrefixIsShorter(chunks: seq<ByteString>, n: nat)
    requires n <= |chunks|
    ensures |Concat(chunks[..n])| <= |Concat(chunks)|
  {
    if n < |chunks| {
      PrefixIsShorter(chunks[..|chunks| - 1], n);
      assert chunks[..|chunks| - 1][..n] == chunks[..n];
    } else {
      assert chunks[..n] == chunks;
    }
  }

  /** Decompresses into a buffer of exactly the size allowed; a chunk that does not fit stops the stream. */
  method InflateMember(member: ByteString, gunzip: Decompressor, into: array<Byte>, room: nat)
    returns (produced: Produced)
    requires room <= into.Length
    modifies into
    ensures produced == Outcome(gunzip(member), room)
    ensures produced.Produced? ==> into[..produced.count] == Concat(gunzip(member).chunks)
  {
    var g := gunzip(member);
    var count, i := 0, 0;
    assert g.chunks[..|g.chunks|] == g.chunks;
    while i < |g.chunks|
      invariant 0 <= i <= |g.chunks| && 0 <= count <= room
      invariant into[..count] == Concat(g.chunks[..i])
    {
      var value := g.chunks[i];
      assert g.chunks[..i + 1][..i] == g.chunks[..i];
      if count + |value| > room {
        PrefixIsShorter(g.chunks, i + 1);
        return Overflowed;
      }
      forall k | 0 <= k < |value| {
        into[count + k] := value[k];
      }
      assert into[..count + |value|] == Concat(g.chunks[..i]) + value;
      count := count + |value|;
      i := i + 1;
    }
    return if g.sound then Produced.Produced(count) else Undecodable;
  }

  // ---------------------------------------------------------------- the whole container, as a function of its bytes

  datatype Expansion = Whole(windows: seq<ByteString>) | Fault(code: InflateFailure)

  function Prepend(windows: seq<ByteString>, e: Expansion): Expansion {
    match e
    case Whole(rest) => Whole(windows + rest)
    case Fault(code) => e
  }

  /** The record at `cursor`, for window `index`: where the next one starts and the window it holds, or what is
      wrong with it. */
  datatype Record = Record(next: nat, window: ByteString) | Malformed(code: InflateFailure)

  function NextRecord(stream: ByteString, p: WindowPlan, gunzip: Decompressor, index: nat, cursor: nat): (r: Record)
    requires Planned(p) && index < p.segmentCount && cursor <= |stream|
    ensures r.Record? ==> r.next <= |stream|
  {
    if cursor + LENGTH_PREFIX_BYTES > |stream| then Malformed(ContainerInvalid)
    else
      var start := cursor + LENGTH_PREFIX_BYTES;
      var declared := U32(stream[cursor..start]);
      if declared < 1 || declared > MaxCompressedWindowBytes(p.segmentSizeBytes) || start + declared > |stream| then
        Malformed(ContainerInvalid)
      else
        var g := gunzip(stream[start..start + declared]);
        match Outcome(g, Length(p, index))
        case Overflowed => Malformed(SizeMismatch)
        case Undecodable => Malformed(DecompressionFailed)
        case Produced(count) =>
          if count != Length(p, index) then Malformed(SizeMismatch)
          else Record.Record(start + declared, Concat(g.chunks))
  }

  /** What the records from `cursor` on make of the windows from `index` on. */
  function Expand(stream: ByteString, p: WindowPlan, gunzip: Decompressor, index: nat, cursor: nat): Expansion
    requires Planned(p) && index <= p.segmentCount && cursor <= |stream|
    decreases p.segmentCount - index
  {
    if index == p.segmentCount then
      if cursor == |stream| then Whole([]) else Fault(ContainerInvalid)
    else
      match NextRecord(stream, p, gunzip, index, cursor)
      case Malformed(code) => Fault(code)
      case Record(next, window) => Prepend([window], Expand(stream, p, gunzip, index + 1, next))
  }

  function Length(p: WindowPlan, i: nat): nat
    requires Planned(p) && i < p.segmentCount
  {
    RangeFits(p, i);
    End(p, i) - Start(p, i)
  }

  // ---------------------------------------------------------------- the same container, declaratively

  predicate Framable(members: seq<ByteString>, p: WindowPlan) {
    forall k :: 0 <= k < |members| ==>
      1 <= |members[k]| <= MaxCompressedWindowBytes(p.segmentSizeBytes) && |members[k]| < 0x1_0000_0000
  }

  /** Length-prefixed records, back to back. */
  function Container(members: seq<ByteString>, p: WindowPlan): ByteString
    requires Framable(members, p)
  {
    if members == [] then [] else Put32(|members[0]|) + members[0] + Container(members[1..], p)
  }

  ghost predicate Inflates(member: ByteString, p: WindowPlan, gunzip: Decompressor, i: nat)
    requires Planned(p) && i < p.segmentCount
  {
    gunzip(member).sound && |Concat(gunzip(member).chunks)| == Length(p, i)
  }

  /** One well-formed record for each window from `index` on, and nothing after the last. */
  ghost predicate WellFormed(stream: ByteString, p: WindowPlan, gunzip: Decompressor, index: nat,
                             members: seq<ByteString>)
    requires Planned(p)
  {
    && index + |members| == p.segmentCount && Framable(members, p) && stream == Container(members, p)
    && forall k :: 0 <= k < |members| ==> Inflates(members[k], p, gunzip, index + k)
  }

  function Windows(gunzip: Decompressor, members: seq<ByteString>): seq<ByteString> {
    seq(|members|, k requires 0 <= k < |members| => Concat(gunzip(members[k]).chunks))
  }

  lemma {:induction false} WellFormedExpands(stream: ByteString, p: WindowPlan, gunzip: Decompressor, index: nat,
                                             cursor: nat, members: seq<ByteString>)
    requires Planned(p) && index <= p.segmentCount && cursor <= |stream|
    requires WellFormed(stream[cursor..], p, gunzip, index, members)
    ensures Expand(stream, p, gunzip, index, cursor) == Whole(Windows(gunzip, members))
    decreases |members|
  {
    hide Put32, U32, Concat, MaxCompressedWindowBytes, Length, Windows, Container;
    if members == [] {
      NoRecords(p, gunzip);
    } else {
      var m, rest := members[0], members[1..];
      FirstRecord(stream[cursor..], p, gunzip, index, members);
      RecordSplits(stream, cursor, Put32(|m|), m, Container(rest, p));
      Put32Reads(|m|);
      WellFormedExpands(stream, p, gunzip, index + 1, cursor + LENGTH_PREFIX_BYTES + |m|, rest);
      WindowsSplit(gunzip, members);
    }
  }

  lemma NoRecords(p: WindowPlan, gunzip: Decompressor)
    ensures Container([], p) == [] && Windows(gunzip, []) == []
  {
  }

  lemma WindowsSplit(gunzip: Decompressor, members: seq<ByteString>)
    requires members != []
    ensures Windows(gunzip, members) == [Concat(gunzip(members[0]).chunks)] + Windows(gunzip, members[1..])
  {
  }

  /** A well-formed container is its first record, and a well-formed container for the windows after the first. */
  lemma FirstRecord(stream: ByteString, p: WindowPlan, gunzip: Decompressor, index: nat, members: seq<ByteString>)
    requires Planned(p) && members != [] && index < p.segmentCount && Framable(members[..1], p)
             && Framable(members[1..], p)
    ensures WellFormed(stream, p, gunzip, index, members) <==>
              && Inflates(members[0], p, gunzip, index)
              && stream == Put32(|members[0]|) + members[0] + Container(members[1..], p)
              && WellFormed(Container(members[1..], p), p, gunzip, index + 1, members[1..])
  {
    hide Put32, Concat, MaxCompressedWindowBytes, Length;
    assert members == members[..1] + members[1..];
    if WellFormed(Container(members[1..], p), p, gunzip, index + 1, members[1..]) {
      forall k | 1 <= k < |members|
        ensures index < p.segmentCount && index + k < p.segmentCount
        ensures Inflates(members[k], p, gunzip, index + k)
                  == Inflates(members[1..][k - 1], p, gunzip, index + 1 + (k - 1))
      {
      }
    }
  }

  lemma RecordSplits(stream: ByteString, cursor: nat, prefix: ByteString, member: ByteString, tail: ByteString)
    requires cursor <= |stream| && stream[cursor..] == prefix + member + tail
    ensures cursor + |prefix| + |member| <= |stream|
    ensures stream[cursor..cursor + |prefix|] == prefix
    ensures stream[cursor + |prefix|..cursor + |prefix| + |member|] == member
    ensures stream[cursor + |prefix| + |member|..] == tail
  {
    var from := stream[cursor..];
    assert |from| == |prefix| + |member| + |tail|;
    assert from[..|prefix|] == prefix && from[|prefix|..|prefix| + |member|] == member
           && from[|prefix| + |member|..] == tail;
  }

  lemma RecordJoins(stream: ByteString, cursor: nat, middle: nat, end: nat)
    requires cursor <= middle <= end <= |stream|
    ensures stream[cursor..] == stream[cursor..middle] + stream[middle..end] + stream[end..]
  {
  }

  lemma NothingLeft(stream: ByteString, p: WindowPlan, gunzip: Decompressor)
    requires Planned(p)
    ensures WellFormed(stream, p, gunzip, p.segmentCount, []) <==> stream == []
  {
  }

  lemma {:induction false} ExpandsWellFormed(stream: ByteString, p: WindowPlan, gunzip: Decompressor, index: nat,
                                             cursor: nat) returns (members: seq<ByteString>)
    requires Planned(p) && index <= p.segmentCount && cursor <= |stream|
    requires Expand(stream, p, gunzip, index, cursor).Whole?
    ensures WellFormed(stream[cursor..], p, gunzip, index, members)
    decreases p.segmentCount - index
  {
    hide Put32, U32, Concat, MaxCompressedWindowBytes, Length, Container;
    if index == p.segmentCount {
      members := [];
      NothingLeft(stream[cursor..], p, gunzip);
    } else {
      var start := cursor + LENGTH_PREFIX_BYTES;
      var prefix := stream[cursor..start];
      var declared := U32(prefix);
      var m := stream[start..start + declared];
      var rest := ExpandsWellFormed(stream, p, gunzip, index + 1, start + declared);
      members := [m] + rest;
      assert members[1..] == rest && members[..1] == [m];
      Read32Puts(prefix);
      RecordJoins(stream, cursor, start, start + declared);
      FirstRecord(stream[cursor..], p, gunzip, index, members);
    }
  }

  /** A container expands exactly when it is one well-formed record per window with nothing left over. */
  lemma ExpandsIffWellFormed(stream: ByteString, p: WindowPlan, gunzip: Decompressor)
    requires Planned(p)
    ensures Expand(stream, p, gunzip, 0, 0).Whole? <==> exists members :: WellFormed(stream, p, gunzip, 0, members)
  {
    assert stream[0..] == stream;
    if Expand(stream, p, gunzip, 0, 0).Whole? {
      var members := ExpandsWellFormed(stream, p, gunzip, 0, 0);
    }
    forall members | WellFormed(stream, p, gunzip, 0, members)
      ensures Expand(stream, p, gunzip, 0, 0).Whole?
    {
      WellFormedExpands(stream, p, gunzip, 0, 0, members);
    }
  }

  // ---------------------------------------------------------------- reading the container back

  /** Some read between two counts of calls moved nothing. */
  ghost predicate Stalled(moves: nat -> nat, from: nat, to: nat) {
    exists c :: from <= c < to && moves(c) == 0
  }

  /** Fills `into[..want]` completely, or reports that it could not. */
  method ReadExactly(source: ByteSource, offset: nat, into: array<Byte>, want: nat) returns (filledAll: bool)
    requires 0 < want <= into.Length
    modifies source`calls, into
    ensures old(source.calls) <= source.calls
    ensures filledAll ==> offset + want <= |source.contents| && into[..want] == source.contents[offset..offset + want]
    ensures !filledAll ==> offset + want > |source.contents| || Stalled(source.moves, old(source.calls), source.calls)
  {
    var filled := 0;
    while filled < want
      invariant 0 <= filled <= want && old(source.calls) <= source.calls
      invariant filled > 0 ==> offset + filled <= |source.contents|
      invariant filled > 0 ==> into[..filled] == source.contents[offset..offset + filled]
      decreases want - filled
    {
      var read := source.Read(offset + filled, into, filled, want - filled);
      if read == 0 {
        return false;
      }
      assert into[..filled + read] == into[..filled] + into[filled..filled + read];
      assert source.contents[offset..offset + filled + read]
          == source.contents[offset..offset + filled] + source.contents[offset + filled..offset + filled + read];
      filled := filled + read;
    }
    return true;
  }

  // ---------------------------------------------------------------- the pass over every window

  function Pieces(p: WindowPlan, windows: seq<ByteString>): seq<Piece> {
    seq(|windows|, k requires 0 <= k < |windows| => Piece(Start(p, k), windows[k]))
  }

  ghost predicate Answered(answers: nat -> StoreOutcome, from: nat, to: nat, answer: StoreOutcome) {
    exists c :: from <= c < to && answers(c) == answer
  }

  /** The bytes a pass reads as its container, when the source holds that many. */
  function Transport(contents: ByteString, transportSize: nat): ByteString {
    if transportSize <= |contents| then contents[..transportSize] else contents
  }

  lemma TransportIs(contents: ByteString, transportSize: nat)
    ensures |Transport(contents, transportSize)| == if transportSize <= |contents| then transportSize else |contents|
    ensures transportSize <= |contents| ==> Transport(contents, transportSize) == contents[..transportSize]
  {
  }

  /** What each refusal may be blamed on. */
  ghost predicate Blamed(code: InflateFailure, supported: bool, fits: bool, expansion: Expansion, stalled: bool,
                         full: bool, broken: bool, cancelled: bool) {
    match code
    case Unsupported => !supported
    case ReadFailed => !fits || stalled
    case StorageFull => full
    case WriteFailed => broken
    case Cancelled => cancelled
    case _ => fits ==> expansion == Fault(code)
  }

  /** One turn of the loop up to the write: reads the record at `cursor` and decompresses it into `original`. */
  method InflateNext(source: ByteSource, transportSize: nat, p: WindowPlan, gunzip: Decompressor, index: nat,
                     cursor: nat, prefix: array<Byte>, compressed: array<Byte>, original: array<Byte>)
    returns (failure: Option<InflateFailure>, next: nat)
    requires Planned(p) && index < p.segmentCount && cursor <= transportSize && cursor <= |source.contents|
    requires prefix.Length == LENGTH_PREFIX_BYTES && compressed.Length == MaxCompressedWindowBytes(p.segmentSizeBytes)
    requires original.Length == p.segmentSizeBytes
    requires prefix != compressed && compressed != original && prefix != original
    modifies source`calls, prefix, compressed, original
    ensures old(source.calls) <= source.calls && cursor <= next
    ensures failure.None? ==> next <= transportSize && next <= |source.contents| && Length(p, index) <= original.Length
    ensures failure.None? && transportSize <= |source.contents| ==>
              NextRecord(source.contents[..transportSize], p, gunzip, index, cursor)
                == Record.Record(next, original[..Length(p, index)])
    ensures failure.Some? ==> failure.value in {ContainerInvalid, ReadFailed, SizeMismatch, DecompressionFailed}
    ensures failure == Some(ReadFailed) ==>
              transportSize > |source.contents| || Stalled(source.moves, old(source.calls), source.calls)
    ensures failure.Some? && failure.value != ReadFailed && transportSize <= |source.contents| ==>
              NextRecord(source.contents[..transportSize], p, gunzip, index, cursor) == Malformed(failure.value)
  {
    hide U32, Concat, MaxCompressedWindowBytes, Planned;
    next := cursor;
    if cursor + LENGTH_PREFIX_BYTES > transportSize {
      return Some(ContainerInvalid), next;
    }
    var ok := ReadExactly(source, cursor, prefix, LENGTH_PREFIX_BYTES);
    if !ok {
      return Some(ReadFailed), next;
    }
    assert prefix[..] == prefix[..LENGTH_PREFIX_BYTES];
    var declared := U32(prefix[..]);
    next := cursor + LENGTH_PREFIX_BYTES;
    SliceOfPrefix(source.contents, transportSize, cursor, next);
    if declared < 1 || declared > compressed.Length || next + declared > transportSize {
      return Some(ContainerInvalid), next;
    }
    ok := ReadExactly(source, next, compressed, declared);
    if !ok {
      return Some(ReadFailed), next;
    }
    SliceOfPrefix(source.contents, transportSize, next, next + declared);
    next := next + declared;
    RangeFits(p, index);
    var expected := End(p, index) - Start(p, index);
    var produced := InflateMember(compressed[..declared], gunzip, original, expected);
    if produced.Overflowed? {
      return Some(SizeMismatch), next;
    }
    if produced.Undecodable? {
      return Some(DecompressionFailed), next;
    }
    if produced.count != expected {
      return Some(SizeMismatch), next;
    }
    return None, next;
  }

  /** One turn of the loop up to the yield: the next window decompressed and written to its place. */
  method WriteNext(source: ByteSource, sink: OriginalSink, transportSize: nat, p: WindowPlan, gunzip: Decompressor,
                   index: nat, cursor: nat, prefix: array<Byte>, compressed: array<Byte>, original: array<Byte>)
    returns (failure: Option<InflateFailure>, next: nat)
    requires Planned(p) && index < p.segmentCount && cursor <= transportSize && cursor <= |source.contents|
    requires prefix.Length == LENGTH_PREFIX_BYTES && compressed.Length == MaxCompressedWindowBytes(p.segmentSizeBytes)
    requires original.Length == p.segmentSizeBytes
    requires prefix != compressed && compressed != original && prefix != original
    modifies source`calls, sink, prefix, compressed, original
    ensures old(source.calls) <= source.calls && old(sink.calls) <= sink.calls
    ensures failure.None? ==>
              && next <= transportSize && next <= |source.contents| && Length(p, index) <= original.Length
              && sink.log == old(sink.log) + [Piece(Start(p, index), original[..Length(p, index)])]
    ensures failure.None? && transportSize <= |source.contents| ==>
              Expand(source.contents[..transportSize], p, gunzip, index, cursor)
              == Prepend([original[..Length(p, index)]],
                         Expand(source.contents[..transportSize], p, gunzip, index + 1, next))
    ensures failure.Some? ==>
              && failure.value != Unsupported && failure.value != Cancelled
              && Blamed(failure.value, true, transportSize <= |source.contents|,
                        Expand(Transport(source.contents, transportSize), p, gunzip, index, cursor),
                        Stalled(source.moves, old(source.calls), source.calls),
                        Answered(sink.answers, old(sink.calls), sink.calls, WriteFull),
                        Answered(sink.answers, old(sink.calls), sink.calls, WriteBroken), false)
  {
    hide U32, Concat, MaxCompressedWindowBytes, Planned, Expand, NextRecord, Prepend, Start, Transport;
    TransportIs(source.contents, transportSize);
    failure, next := InflateNext(source, transportSize, p, gunzip, index, cursor, prefix, compressed, original);
    if transportSize <= |source.contents| {
      ExpandsBy(source.contents[..transportSize], p, gunzip, index, cursor);
    }
    if failure.Some? {
      return;
    }
    RangeFits(p, index);
    var outcome := sink.Write(Start(p, index), original[..End(p, index) - Start(p, index)]);
    if !outcome.WriteOk? {
      failure := Some(if outcome.WriteFull? then StorageFull else WriteFailed);
    }
  }

  lemma SliceOfPrefix(data: ByteString, size: nat, from: nat, to: nat)
    requires from <= to <= size && to <= |data|
    ensures size <= |data| ==> data[..size][from..to] == data[from..to]
  {
  }

  /** Original bytes before window `index`. */
  function Before(p: WindowPlan, index: nat): nat {
    if index == p.segmentCount then p.transportSize else Start(p, index)
  }

  lemma NoneBefore(p: WindowPlan)
    requires Planned(p)
    ensures Before(p, 0) == 0
  {
  }

  lemma OneFurther(p: WindowPlan, index: nat)
    requires Planned(p) && index < p.segmentCount
    ensures Before(p, index + 1) == Before(p, index) + Length(p, index)
  {
    RangeFits(p, index);
  }

  lemma OneMore(p: WindowPlan, windows: seq<ByteString>, window: ByteString, e: Expansion)
    ensures Pieces(p, windows + [window]) == Pieces(p, windows) + [Piece(Start(p, |windows|), window)]
    ensures Prepend(windows, Prepend([window], e)) == Prepend(windows + [window], e)
  {
    if e.Whole? {
      assert windows + ([window] + e.windows) == windows + [window] + e.windows;
    }
  }

  lemma NothingYet(p: WindowPlan, e: Expansion)
    ensures Pieces(p, []) == [] && Prepend([], e) == e
  {
  }

  method InflateWindowContainer(source: ByteSource, sink: OriginalSink, transportSize: nat, p: WindowPlan,
                                gunzip: Decompressor, supported: bool, yieldEveryBytes: nat, cancelled: Polls)
    returns (r: InflateResult, ghost polls: nat)
    requires Planned(p)
    modifies source`calls, sink
    ensures r.Inflated? ==>
              && transportSize <= |source.contents|
              && Expand(Transport(source.contents, transportSize), p, gunzip, 0, 0).Whole?
              && r.bytesWritten == p.transportSize
              && sink.log == old(sink.log)
                + Pieces(p, Expand(Transport(source.contents, transportSize), p, gunzip, 0, 0).windows)
    ensures r.Refused? ==>
              Blamed(r.code, supported, transportSize <= |source.contents|,
                     Expand(Transport(source.contents, transportSize), p, gunzip, 0, 0),
                     Stalled(source.moves, old(source.calls), source.calls),
                     Answered(sink.answers, old(sink.calls), sink.calls, WriteFull),
                     Answered(sink.answers, old(sink.calls), sink.calls, WriteBroken),
                     Polled(cancelled, polls))
    ensures supported && transportSize <= |source.contents| && !Stalled(source.moves, old(source.calls), source.calls)
            && !Answered(sink.answers, old(sink.calls), sink.calls, WriteFull)
            && !Answered(sink.answers, old(sink.calls), sink.calls, WriteBroken)
            && !Polled(cancelled, polls) ==>
              (r.Inflated? <==> Expand(Transport(source.contents, transportSize), p, gunzip, 0, 0).Whole?)
    // A finished pass asked often enough, no more often than it was told to, and was never told to stop.
    ensures r.Inflated? ==> PollsFit(polls, p.transportSize, yieldEveryBytes, p.segmentSizeBytes)
    ensures r.Inflated? ==> !Polled(cancelled, polls)
    ensures cancelled(0) && p.transportSize > yieldEveryBytes + p.segmentSizeBytes ==> !r.Inflated?
  {
    hide Put32, U32, Concat, Container, Planned, Pieces, NextRecord, Prepend, MaxCompressedWindowBytes, Start, Expand,
         Transport, Paced, PollsFit;
    polls := 0;
    NotYetPolled(cancelled);
    NothingPaced(yieldEveryBytes, p.segmentSizeBytes, p.segmentCount == 0);
    if !supported {
      return Refused(Unsupported), polls;
    }
    var compressed := new Byte[MaxCompressedWindowBytes(p.segmentSizeBytes)];
    var original := new Byte[p.segmentSizeBytes];
    var prefix := new Byte[LENGTH_PREFIX_BYTES];
    var cursor, written, sinceYield, asked, index := 0, 0, 0, 0, 0;
    ghost var stream := Transport(source.contents, transportSize);
    TransportIs(source.contents, transportSize);
    ghost var windows: seq<ByteString> := [];
    NothingYet(p, Expand(stream, p, gunzip, 0, 0));
    NoneBefore(p);
    while index < p.segmentCount
      invariant 0 <= index <= p.segmentCount && 0 <= cursor <= transportSize && cursor <= |source.contents|
      invariant asked == polls && old(source.calls) <= source.calls && old(sink.calls) <= sink.calls
      invariant written == Before(p, index) && |windows| == index
      invariant transportSize <= |source.contents| ==>
                  Expand(stream, p, gunzip, 0, 0) == Prepend(windows, Expand(stream, p, gunzip, index, cursor))
      invariant sink.log == old(sink.log) + Pieces(p, windows)
      invariant !Polled(cancelled, polls)
      invariant Paced(polls, written, sinceYield, yieldEveryBytes, p.segmentSizeBytes, index == p.segmentCount)
    {
      var failure, next :=
        WriteNext(source, sink, transportSize, p, gunzip, index, cursor, prefix, compressed, original);
      if failure.Some? {
        FaultStays(windows, failure.value);
        return Refused(failure.value), polls;
      }
      var expected := Length(p, index);
      OneMore(p, windows, original[..expected],
              if transportSize <= |source.contents| then Expand(stream, p, gunzip, index + 1, next) else Whole([]));
      windows := windows + [original[..expected]];
      cursor := next;
      OneFurther(p, index);
      RangeFits(p, index);
      Further(polls, written, sinceYield, yieldEveryBytes, p.segmentSizeBytes, expected);
      written := written + expected;
      sinceYield := sinceYield + expected;
      index := index + 1;
      if sinceYield >= yieldEveryBytes && index < p.segmentCount {
        sinceYield := 0;
        polls := polls + 1;
        if cancelled(asked) {
          return Refused(Cancelled), polls;
        }
        asked := asked + 1;
        PolledMore(cancelled, polls);
      }
    }
    ExpandsToTheEnd(stream, p, gunzip, cursor);
    if cursor != transportSize {
      FaultStays(windows, ContainerInvalid);
      return Refused(ContainerInvalid), polls;
    }
    WholeStays(windows);
    PacedFits(polls, written, sinceYield, yieldEveryBytes, p.segmentSizeBytes);
    if cancelled(0) {
      FirstPollStops(polls, p.transportSize, yieldEveryBytes, p.segmentSizeBytes, cancelled);
    }
    // The repository checks the number of bytes written last; that check cannot fail.
    if written != p.transportSize {
      assert false;
    }
    return Inflated(written), polls;
  }

  lemma ExpandsBy(stream: ByteString, p: WindowPlan, gunzip: Decompressor, index: nat, cursor: nat)
    requires Planned(p) && index < p.segmentCount && cursor <= |stream|
    ensures var r := NextRecord(stream, p, gunzip, index, cursor);
            && (r.Malformed? ==> Expand(stream, p, gunzip, index, cursor) == Fault(r.code))
            && (r.Record? ==>
                  Expand(stream, p, gunzip, index, cursor)
                  == Prepend([r.window], Expand(stream, p, gunzip, index + 1, r.next)))
  {
    hide NextRecord;
  }

  lemma ExpandsToTheEnd(stream: ByteString, p: WindowPlan, gunzip: Decompressor, cursor: nat)
    requires Planned(p) && cursor <= |stream|
    ensures Expand(stream, p, gunzip, p.segmentCount, cursor)
         == if cursor == |stream| then Whole([]) else Fault(ContainerInvalid)
  {
  }

  lemma FaultStays(windows: seq<ByteString>, code: InflateFailure)
    ensures Prepend(windows, Fault(code)) == Fault(code)
  {
  }

  lemma WholeStays(windows: seq<ByteString>)
    ensures Prepend(windows, Whole([])) == Whole(windows)
  {
    assert windows + [] == windows;
  }

  // ---------------------------------------------------------------- what a completed pass has written

  predicate Covers(piece: Piece, k: nat) {
    piece.offset <= k < piece.offset + |piece.bytes|
  }

  predicate WindowAt(file: ByteString, at: nat, window: ByteString) {
    at + |window| <= |file| && file[at..at + |window|] == window
  }

  ghost predicate Matches(pieces: seq<Piece>, file: ByteString) {
    forall i :: 0 <= i < |pieces| ==> WindowAt(file, pieces[i].offset, pieces[i].bytes)
  }

  ghost predicate WritesOnce(pieces: seq<Piece>) {
    forall i, j, k: nat ::
      0 <= i < |pieces| && 0 <= j < |pieces| && Covers(pieces[i], k) && Covers(pieces[j], k) ==> i == j
  }

  ghost predicate Covered(pieces: seq<Piece>, k: nat) {
    exists i :: 0 <= i < |pieces| && Covers(pieces[i], k)
  }

  ghost predicate WritesAll(pieces: seq<Piece>, size: nat) {
    forall k: nat :: k < size ==> Covered(pieces, k)
  }

  /** Every byte of the file is written by exactly one piece, with its value there. */
  ghost predicate Tile(pieces: seq<Piece>, file: ByteString) {
    Matches(pieces, file) && WritesOnce(pieces) && WritesAll(pieces, |file|)
  }

  /** The pieces of a completed pass lie back to back and cover the original file, each byte once. */
  lemma PiecesTileTheFile(stream: ByteString, p: WindowPlan, gunzip: Decompressor)
    requires Planned(p) && Expand(stream, p, gunzip, 0, 0).Whole?
    ensures var windows := Expand(stream, p, gunzip, 0, 0).windows;
            |Concat(windows)| == p.transportSize && Tile(Pieces(p, windows), Concat(windows))
  {
    hide Expand, Pieces, Concat;
    WindowLengths(stream, p, gunzip, 0, 0);
    TilesTheFile(p, Expand(stream, p, gunzip, 0, 0).windows);
  }

  lemma {:induction false} WindowLengths(stream: ByteString, p: WindowPlan, gunzip: Decompressor, index: nat,
                                         cursor: nat)
    requires Planned(p) && index <= p.segmentCount && cursor <= |stream|
             && Expand(stream, p, gunzip, index, cursor).Whole?
    ensures var windows := Expand(stream, p, gunzip, index, cursor).windows;
            && index + |windows| == p.segmentCount
            && forall i :: 0 <= i < |windows| ==> |windows[i]| == Length(p, index + i)
    decreases p.segmentCount - index
  {
    hide Concat, U32, MaxCompressedWindowBytes;
    if index < p.segmentCount {
      var next := NextRecord(stream, p, gunzip, index, cursor).next;
      WindowLengths(stream, p, gunzip, index + 1, next);
      var rest := Expand(stream, p, gunzip, index + 1, next).windows;
      var windows := Expand(stream, p, gunzip, index, cursor).windows;
      forall i | 0 <= i < |windows|
        ensures |windows[i]| == Length(p, index + i)
      {
        if i > 0 {
          assert windows[i] == rest[i - 1] && |rest[i - 1]| == Length(p, index + 1 + (i - 1));
        }
      }
    }
  }

  lemma TilesTheFile(p: WindowPlan, windows: seq<ByteString>)
    requires Planned(p) && |windows| == p.segmentCount
    requires forall i :: 0 <= i < |windows| ==> |windows[i]| == Length(p, i)
    ensures |Concat(windows)| == p.transportSize && Tile(Pieces(p, windows), Concat(windows))
  {
    hide Concat, Start, End, WindowAt, WritesOnce, WritesAll;
    ConcatTiles(p, windows, p.segmentCount);
    assert windows[..p.segmentCount] == windows;
    PiecesWriteOnce(p, windows);
    PiecesWriteAll(p, windows);
  }

  lemma PiecesWriteOnce(p: WindowPlan, windows: seq<ByteString>)
    requires Planned(p) && |windows| == p.segmentCount
    requires forall i :: 0 <= i < |windows| ==> |windows[i]| == Length(p, i)
    ensures WritesOnce(Pieces(p, windows))
  {
    hide Start, End;
    var pieces := Pieces(p, windows);
    forall i, j, k: nat | 0 <= i < |pieces| && 0 <= j < |pieces| && Covers(pieces[i], k) && Covers(pieces[j], k)
      ensures i == j
    {
      if i < j {
        RangesAreDisjoint(p, i, j);
      } else if j < i {
        RangesAreDisjoint(p, j, i);
      }
    }
  }

  lemma PiecesWriteAll(p: WindowPlan, windows: seq<ByteString>)
    requires Planned(p) && |windows| == p.segmentCount
    requires forall i :: 0 <= i < |windows| ==> |windows[i]| == Length(p, i)
    ensures WritesAll(Pieces(p, windows), p.transportSize)
  {
    hide Start, End;
    forall k: nat | k < p.transportSize
      ensures Covered(Pieces(p, windows), k)
    {
      var i := RangesCover(p, p.segmentCount, k);
      assert Covers(Pieces(p, windows)[i], k);
    }
  }

  lemma {:induction false} ConcatTiles(p: WindowPlan, windows: seq<ByteString>, n: nat)
    requires Planned(p) && |windows| == p.segmentCount && n <= p.segmentCount
    requires forall i :: 0 <= i < |windows| ==> |windows[i]| == Length(p, i)
    ensures |Concat(windows[..n])| == Before(p, n)
    ensures forall i :: 0 <= i < n ==> WindowAt(Concat(windows[..n]), Start(p, i), windows[i])
  {
    if n > 0 {
      ConcatTiles(p, windows, n - 1);
      RangeFits(p, n - 1);
      assert windows[..n][..n - 1] == windows[..n - 1];
      var before, after := Concat(windows[..n - 1]), Concat(windows[..n]);
      forall i | 0 <= i < n
        ensures WindowAt(after, Start(p, i), windows[i])
      {
        if i < n - 1 {
          assert WindowAt(before, Start(p, i), windows[i]);
          assert after[Start(p, i)..Start(p, i) + |windows[i]|] == before[Start(p, i)..Start(p, i) + |windows[i]|];
        }
      }
    }
  }
}
