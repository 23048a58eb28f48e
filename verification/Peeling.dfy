/**
 The theory both fountain decoders are measured against: XOR equations over source
 blocks, and the least set of blocks that peeling can reach from a set of received
 sequence numbers. Nothing here mentions a queue, an order of arrival or a decoder.
 */
module Peeling {
  import opened Bytes

  /** The neighbour lists of repair frames, as a function of the block count and the sequence number.
      It stands for seeding the generator, sampling a degree and drawing distinct indices. */
  datatype Code = Code(repair: (nat, nat) -> seq<nat>)

  ghost predicate Distinct(s: seq<nat>) {
    forall i, j :: 0 <= i < j < |s| ==> s[i] != s[j]
  }

  ghost predicate InRange(s: seq<nat>, k: nat) {
    forall i :: 0 <= i < |s| ==> s[i] < k
  }

  ghost predicate Lawful(code: Code) {
    forall k: nat, s: nat :: 0 < k <= s ==> Distinct(code.repair(k, s)) && InRange(code.repair(k, s), k)
  }

  /** Systematic frames carry their own block; every other frame is a repair frame. */
  function Neighbors(code: Code, k: nat, sequence: nat): seq<nat> {
    if sequence < k then [sequence] else code.repair(k, sequence)
  }

  // ---------------------------------------------------------------- what peeling can reach

  ghost function UpTo(k: nat): (all: set<nat>)
    ensures |all| == k
    ensures forall i: nat :: i in all <==> i < k
  {
    if k == 0 then {} else UpTo(k - 1) + {k - 1}
  }

  /** Knowing every neighbour but `b` makes `b` known. */
  ghost predicate Yields(around: seq<nat>, known: set<nat>, b: nat) {
    b in around && forall x :: x in around ==> x == b || x in known
  }

  ghost predicate Closed(code: Code, k: nat, heard: set<nat>, known: set<nat>) {
    forall s, b :: s in heard && Yields(Neighbors(code, k, s), known, b) ==> b in known
  }

  /** The blocks that lie in every set closed under peeling the sequence numbers in `heard`. */
  ghost function Closure(code: Code, k: nat, heard: set<nat>): set<nat> {
    set b | b in UpTo(k) && forall t: set<nat> :: Closed(code, k, heard, t) ==> b in t
  }

  lemma ClosureIsClosed(code: Code, k: nat, heard: set<nat>)
    requires Lawful(code) && 0 < k
    ensures Closed(code, k, heard, Closure(code, k, heard))
  {
    var c := Closure(code, k, heard);
    forall s, b: nat | s in heard && Yields(Neighbors(code, k, s), c, b)
      ensures b in c
    {
      assert b < k;
      forall t: set<nat> | Closed(code, k, heard, t)
        ensures b in t
      {
        assert Yields(Neighbors(code, k, s), t, b);
      }
    }
  }

  lemma ClosureFits(code: Code, k: nat, heard: set<nat>)
    ensures Closure(code, k, heard) <= UpTo(k)
  {
  }

  lemma ClosureIsLeast(code: Code, k: nat, heard: set<nat>, t: set<nat>)
    requires Closed(code, k, heard, t)
    ensures Closure(code, k, heard) <= t
  {
  }

  lemma ClosureGrows(code: Code, k: nat, heard: set<nat>, more: set<nat>)
    requires heard <= more
    ensures Closure(code, k, heard) <= Closure(code, k, more)
  {
    forall t: set<nat> | Closed(code, k, more, t)
      ensures Closed(code, k, heard, t)
    {
    }
  }

  // ---------------------------------------------------------------- XOR equations

  function BlockAt(source: seq<ByteString>, i: nat, size: nat): (b: ByteString)
    ensures |b| == size
  {
    if i < |source| && |source[i]| == size then source[i] else Zeros(size)
  }

  /** The XOR of the source blocks at the given indices. */
  function Sum(source: seq<ByteString>, indices: seq<nat>, size: nat): (b: ByteString)
    ensures |b| == size
  {
    if indices == [] then Zeros(size) else Xor(BlockAt(source, indices[0], size), Sum(source, indices[1..], size))
  }

  lemma {:induction false} SumWithout(source: seq<ByteString>, indices: seq<nat>, size: nat, p: nat)
    requires p < |indices|
    ensures Sum(source, indices, size)
              == Xor(BlockAt(source, indices[p], size), Sum(source, indices[..p] + indices[p + 1..], size))
  {
    var rest := indices[..p] + indices[p + 1..];
    if p == 0 {
      assert rest == indices[1..];
    } else {
      SumWithout(source, indices[1..], size, p - 1);
      assert indices[1..][..p - 1] + indices[1..][p..] == rest[1..];
      XorSwaps(BlockAt(source, indices[0], size), BlockAt(source, indices[p], size), Sum(source, rest[1..], size));
    }
  }

  lemma SumRemoved(source: seq<ByteString>, indices: seq<nat>, size: nat, p: nat, value: ByteString)
    requires p < |indices| && value == Sum(source, indices, size)
    ensures Xor(value, BlockAt(source, indices[p], size)) == Sum(source, indices[..p] + indices[p + 1..], size)
  {
    var block, rest := BlockAt(source, indices[p], size), Sum(source, indices[..p] + indices[p + 1..], size);
    SumWithout(source, indices, size, p);
    XorCommutes(block, rest);
    XorCancels(rest, block);
  }

  lemma SumOfOne(source: seq<ByteString>, b: nat, size: nat)
    ensures Sum(source, [b], size) == BlockAt(source, b, size)
  {
    XorZeros(BlockAt(source, b, size));
  }

  // ---------------------------------------------------------------- splitting a payload and joining it again

  /** Block `i` of a payload, the last one padded with zeros. */
  function PaddedBlock(payload: ByteString, i: nat, size: nat): (b: ByteString)
    ensures |b| == size
  {
    seq(size, j requires 0 <= j < size => if i * size + j < |payload| then payload[i * size + j] else 0)
  }

  function Split(payload: ByteString, count: nat, size: nat): (blocks: seq<ByteString>)
    ensures |blocks| == count && forall i :: 0 <= i < count ==> |blocks[i]| == size
  {
    seq(count, i requires 0 <= i < count => PaddedBlock(payload, i, size))
  }

  function Join(blocks: seq<ByteString>, size: nat): (joined: ByteString)
    ensures (forall i :: 0 <= i < |blocks| ==> |blocks[i]| == size) ==> |joined| == |blocks| * size
  {
    if blocks == [] then [] else Join(blocks[..|blocks| - 1], size) + blocks[|blocks| - 1]
  }

  lemma JoinNone(size: nat)
    ensures Join([], size) == []
  {
  }

  lemma JoinNext(blocks: seq<ByteString>, i: nat, size: nat)
    requires i < |blocks|
    ensures Join(blocks[..i + 1], size) == Join(blocks[..i], size) + blocks[i]
  {
    assert blocks[..i + 1][..i] == blocks[..i];
  }

  lemma {:induction false} JoinAt(blocks: seq<ByteString>, size: nat, i: nat, j: nat)
    requires forall b :: 0 <= b < |blocks| ==> |blocks[b]| == size
    requires i < |blocks| && j < size
    ensures i * size + j < |blocks| * size && Join(blocks, size)[i * size + j] == blocks[i][j]
  {
    var last := |blocks| - 1;
    PlaceInside(i, j, last + 1, size);
    if i < last {
      PlaceInside(i, j, last, size);
      JoinAt(blocks[..last], size, i, j);
    }
  }

  lemma PlaceInside(i: nat, j: nat, count: nat, size: nat)
    requires i < count && j < size
    ensures i * size + j < (i + 1) * size <= count * size
  {
  }

  lemma PositiveFactor(a: int, b: nat)
    requires a * b > 0
    ensures a > 0
  {
  }

  lemma Locate(n: nat, count: nat, size: nat)
    requires n < count * size
    ensures size > 0 && n / size < count && n % size < size && n == n / size * size + n % size
  {
    assert (count - n / size) * size > 0;
    PositiveFactor(count - n / size, size);
  }

  /** The first `n` bytes, or all of them if there are fewer: `subarray(0, n)`. */
  function Prefix(s: ByteString, n: nat): ByteString {
    if n <= |s| then s[..n] else s
  }

  lemma JoinSplitAt(payload: ByteString, count: nat, size: nat, n: nat)
    requires n < |payload| <= count * size
    ensures n < |Join(Split(payload, count, size), size)| && Join(Split(payload, count, size), size)[n] == payload[n]
  {
    Locate(n, count, size);
    var i, j := n / size, n % size;
    JoinAt(Split(payload, count, size), size, i, j);
    assert PaddedBlock(payload, i, size)[j] == payload[i * size + j];
  }

  /** Joining the padded blocks and cutting at the original length undoes the split. */
  lemma JoinSplit(payload: ByteString, count: nat, size: nat)
    requires |payload| <= count * size
    ensures Prefix(Join(Split(payload, count, size), size), |payload|) == payload
  {
    forall n | 0 <= n < |payload|
      ensures Join(Split(payload, count, size), size)[n] == payload[n]
    {
      JoinSplitAt(payload, count, size, n);
    }
  }

  function Values(blocks: seq<Option<ByteString>>): (values: seq<ByteString>)
    ensures |values| == |blocks|
    ensures forall i :: 0 <= i < |blocks| && blocks[i].Some? ==> values[i] == blocks[i].value
  {
    seq(|blocks|, i requires 0 <= i < |blocks| => if blocks[i].Some? then blocks[i].value else [])
  }

  // ---------------------------------------------------------------- a decoder's state, as a value

  /** A buffered frame: its value is the XOR of the blocks still listed. */
  datatype Equation = Equation(left: seq<nat>, value: ByteString)

  /** A frame as it was delivered. */
  datatype Heard = Heard(sequence: nat, payload: ByteString)

  datatype Core = Core(k: nat, size: nat, graph: map<nat, Equation>, blocks: seq<Option<ByteString>>)

  ghost function Known(blocks: seq<Option<ByteString>>): set<nat> {
    set b: nat | b < |blocks| && blocks[b].Some?
  }

  lemma AllKnown(blocks: seq<Option<ByteString>>)
    requires Known(blocks) == UpTo(|blocks|)
    ensures forall b :: 0 <= b < |blocks| ==> blocks[b].Some?
  {
    forall b | 0 <= b < |blocks|
      ensures blocks[b].Some?
    {
      assert b in UpTo(|blocks|);
    }
  }

  ghost function Sequences(log: set<Heard>): set<nat> {
    set h | h in log :: h.sequence
  }

  ghost predicate Residual(left: seq<nat>, around: seq<nat>, known: set<nat>) {
    Distinct(left) && forall x :: x in left <==> x in around && x !in known
  }

  ghost predicate Shaped(core: Core) {
    && |core.blocks| == core.k
    && (forall b :: 0 <= b < core.k && core.blocks[b].Some? ==> |core.blocks[b].value| == core.size)
    && (forall s :: s in core.graph ==> |core.graph[s].value| == core.size)
  }

  /** Every heard sequence number is either spent or buffered with exactly its unknown neighbours.
      While block `b` is being propagated, the equations in `stale` still list it. */
  ghost predicate Tracks(code: Code, core: Core, heard: set<nat>, stale: set<nat>, b: nat) {
    var known := Known(core.blocks);
    && core.graph.Keys <= heard
    && (forall s {:trigger Neighbors(code, core.k, s)} :: s in core.graph && s !in stale ==>
          Residual(core.graph[s].left, Neighbors(code, core.k, s), known))
    && (forall s {:trigger Neighbors(code, core.k, s)} :: s in core.graph && s in stale ==>
          Residual(core.graph[s].left, Neighbors(code, core.k, s), known - {b}))
    && (forall s, x {:trigger x in Neighbors(code, core.k, s)} ::
          s in heard && s !in core.graph && x in Neighbors(code, core.k, s) ==> x in known)
    && (forall t: set<nat> :: Closed(code, core.k, heard, t) ==> known <= t)
  }

  /** `source` is an encoding of everything that was heard. */
  ghost predicate Explains(code: Code, k: nat, size: nat, log: set<Heard>, source: seq<ByteString>) {
    && |source| == k
    && (forall i :: 0 <= i < k ==> |source[i]| == size)
    && (forall h :: h in log ==> h.payload == Sum(source, Neighbors(code, k, h.sequence), size))
  }

  ghost predicate Agrees(core: Core, source: seq<ByteString>) {
    && (forall s :: s in core.graph ==> core.graph[s].value == Sum(source, core.graph[s].left, core.size))
    && (forall b :: 0 <= b < |core.blocks| && core.blocks[b].Some? ==>
          core.blocks[b].value == BlockAt(source, b, core.size))
  }

  /** Whatever source explains the frames heard, the decoder's values are that source's. */
  ghost predicate Truthful(code: Code, core: Core, log: set<Heard>) {
    forall source {:trigger Explains(code, core.k, core.size, log, source)} ::
      Explains(code, core.k, core.size, log, source) ==> Agrees(core, source)
  }

  /** Everything a decoder's values owe to the frames it heard. */
  ghost predicate Good(code: Code, core: Core, log: set<Heard>, stale: set<nat>, b: nat) {
    && Shaped(core)
    && Tracks(code, core, Sequences(log), stale, b)
    && Truthful(code, core, log)
  }

  // ---------------------------------------------------------------- the steps a decoder takes

  lemma GoodStart(code: Code, core: Core)
    requires core.graph == map[] && core.blocks == seq(core.k, _ => None)
    ensures Known(core.blocks) == {} && Good(code, core, {}, {}, 0)
  {
  }

  function Solve(core: Core, s: nat): Core
    requires s in core.graph && |core.graph[s].left| == 1 && core.graph[s].left[0] < |core.blocks|
  {
    core.(graph := core.graph - {s}, blocks := core.blocks[core.graph[s].left[0] := Some(core.graph[s].value)])
  }

  /** Solving a degree-one equation: its block was unknown, and every other equation is stale until it is swept. */
  lemma GoodSolve(code: Code, core: Core, log: set<Heard>, s: nat)
    requires Good(code, core, log, {}, 0)
    requires s in core.graph && |core.graph[s].left| == 1 && core.graph[s].left[0] < core.k
    ensures core.blocks[core.graph[s].left[0]].None?
    ensures Known(Solve(core, s).blocks) == Known(core.blocks) + {core.graph[s].left[0]}
    ensures Good(code, Solve(core, s), log, Solve(core, s).graph.Keys, core.graph[s].left[0])
  {
    SolveTracks(code, core, Sequences(log), s);
    SolveIsTruthful(code, core, log, s);
  }

  lemma SolveIsTruthful(code: Code, core: Core, log: set<Heard>, s: nat)
    requires Truthful(code, core, log)
    requires s in core.graph && |core.graph[s].left| == 1 && core.graph[s].left[0] < |core.blocks|
    ensures Truthful(code, Solve(core, s), log)
  {
    var b := core.graph[s].left[0];
    forall source | Explains(code, core.k, core.size, log, source)
      ensures Agrees(Solve(core, s), source)
    {
      assert Agrees(core, source);
      assert core.graph[s].left == [b];
      SumOfOne(source, b, core.size);
    }
  }

  lemma SolveTracks(code: Code, core: Core, heard: set<nat>, s: nat)
    requires Shaped(core) && Tracks(code, core, heard, {}, 0)
    requires s in core.graph && |core.graph[s].left| == 1 && core.graph[s].left[0] < core.k
    ensures core.blocks[core.graph[s].left[0]].None?
    ensures Known(Solve(core, s).blocks) == Known(core.blocks) + {core.graph[s].left[0]}
    ensures Tracks(code, Solve(core, s), heard, Solve(core, s).graph.Keys, core.graph[s].left[0])
  {
    var b, after := core.graph[s].left[0], Solve(core, s);
    var known, around := Known(core.blocks), Neighbors(code, core.k, s);
    assert b in core.graph[s].left;
    assert b !in known;
    assert Known(after.blocks) == known + {b};
    assert Known(after.blocks) - {b} == known;
    forall x | x in around
      ensures x == b || x in known
    {
      if x !in known {
        assert x in core.graph[s].left;
      }
    }
    forall t: set<nat> | Closed(code, core.k, heard, t)
      ensures Known(after.blocks) <= t
    {
      assert known <= t;
      assert Yields(around, t, b);
    }
  }

  function Spliced(e: Equation, p: nat, block: ByteString): Equation
    requires p < |e.left| && |block| == |e.value|
  {
    Equation(e.left[..p] + e.left[p + 1..], Xor(e.value, block))
  }

  function Splice(core: Core, s: nat, p: nat, block: ByteString): Core
    requires s in core.graph && p < |core.graph[s].left| && |block| == |core.graph[s].value|
  {
    core.(graph := core.graph[s := Spliced(core.graph[s], p, block)])
  }

  /** Sweeping the solved block out of an equation that lists it. */
  lemma GoodSplice(code: Code, core: Core, log: set<Heard>, stale: set<nat>, s: nat, p: nat, block: ByteString)
    requires s in stale && s in core.graph && p < |core.graph[s].left|
    requires core.graph[s].left[p] < |core.blocks| && core.blocks[core.graph[s].left[p]] == Some(block)
    requires Good(code, core, log, stale, core.graph[s].left[p])
    ensures |block| == core.size == |core.graph[s].value|
    ensures Good(code, Splice(core, s, p, block), log, stale - {s}, core.graph[s].left[p])
  {
    SpliceResidual(core.graph[s].left, Neighbors(code, core.k, s), Known(core.blocks), p);
    SpliceIsTruthful(code, core, log, s, p);
  }

  /** An equation that does not list the solved block is already up to date. */
  lemma GoodSkip(code: Code, core: Core, log: set<Heard>, stale: set<nat>, s: nat, b: nat)
    requires s in stale && s in core.graph && b !in core.graph[s].left
    requires Good(code, core, log, stale, b)
    ensures Good(code, core, log, stale - {s}, b)
  {
  }

  /** An equation with nothing left to solve says nothing new. */
  lemma GoodDrop(code: Code, core: Core, log: set<Heard>, stale: set<nat>, s: nat, b: nat)
    requires s in core.graph && s !in stale && core.graph[s].left == []
    requires Good(code, core, log, stale, b)
    ensures Good(code, core.(graph := core.graph - {s}), log, stale, b)
  {
    forall x | x in Neighbors(code, core.k, s)
      ensures x in Known(core.blocks)
    {
      assert x !in core.graph[s].left;
    }
    forall source | Explains(code, core.k, core.size, log, source)
      ensures Agrees(core.(graph := core.graph - {s}), source)
    {
      assert Agrees(core, source);
    }
  }

  lemma SpliceIsTruthful(code: Code, core: Core, log: set<Heard>, s: nat, p: nat)
    requires Truthful(code, core, log) && Shaped(core)
    requires s in core.graph && p < |core.graph[s].left|
    requires core.graph[s].left[p] < core.k && core.blocks[core.graph[s].left[p]].Some?
    ensures Truthful(code, Splice(core, s, p, core.blocks[core.graph[s].left[p]].value), log)
  {
    var e := core.graph[s];
    var b := e.left[p];
    forall source | Explains(code, core.k, core.size, log, source)
      ensures Agrees(Splice(core, s, p, core.blocks[b].value), source)
    {
      assert Agrees(core, source);
      SumRemoved(source, e.left, core.size, p, e.value);
    }
  }

  lemma SpliceResidual(left: seq<nat>, around: seq<nat>, known: set<nat>, p: nat)
    requires p < |left| && left[p] in known && Residual(left, around, known - {left[p]})
    ensures Residual(left[..p] + left[p + 1..], around, known)
  {
    var rest := left[..p] + left[p + 1..];
    forall x | x in rest
      ensures x in left && x != left[p]
    {
      var i :| 0 <= i < |rest| && rest[i] == x;
      assert if i < p then left[i] == x else left[i + 1] == x;
    }
    forall x | x in left && x != left[p]
      ensures x in rest
    {
      var i :| 0 <= i < |left| && left[i] == x;
      assert if i < p then rest[i] == x else rest[i - 1] == x;
    }
  }

  /** First position of `x`, or None: `Array.prototype.indexOf`. */
  function IndexOf(s: seq<nat>, x: nat): (at: Option<nat>)
    ensures at.None? <==> x !in s
    ensures at.Some? ==> at.value < |s| && s[at.value] == x
  {
    if s == [] then None
    else if s[0] == x then Some(0)
    else
      match IndexOf(s[1..], x)
      case None => None
      case Some(i) => Some(i + 1)
  }

  /** One entry of the frame table as a newly solved block passes it. */
  function Swept(graph: map<nat, Equation>, s: nat, b: nat, block: ByteString): map<nat, Equation>
    requires s in graph && |block| == |graph[s].value|
  {
    match IndexOf(graph[s].left, b)
    case None => graph
    case Some(at) =>
      var e := Spliced(graph[s], at, block);
      if e.left == [] then graph - {s} else graph[s := e]
  }

  lemma GoodSweep(code: Code, core: Core, log: set<Heard>, stale: set<nat>, s: nat, b: nat, block: ByteString)
    requires s in stale && s in core.graph && b < |core.blocks| && core.blocks[b] == Some(block)
    requires Good(code, core, log, stale, b)
    ensures |block| == core.size == |core.graph[s].value|
    ensures Good(code, core.(graph := Swept(core.graph, s, b, block)), log, stale - {s}, b)
  {
    match IndexOf(core.graph[s].left, b)
    case None =>
      GoodSkip(code, core, log, stale, s, b);
    case Some(at) =>
      GoodSplice(code, core, log, stale, s, at, block);
      var after := Splice(core, s, at, block);
      if after.graph[s].left == [] {
        GoodDrop(code, after, log, stale - {s}, s, b);
        assert after.graph - {s} == core.graph - {s};
      }
  }

  ghost predicate Sized(graph: map<nat, Equation>, size: nat) {
    forall s :: s in graph ==> |graph[s].value| == size
  }

  /** The whole table, in the order the entries are visited. */
  function SweptAll(graph: map<nat, Equation>, order: seq<nat>, b: nat, block: ByteString): map<nat, Equation> {
    if order == [] then graph else
      var before, s := SweptAll(graph, order[..|order| - 1], b, block), order[|order| - 1];
      if s in before && |before[s].value| == |block| then Swept(before, s, b, block) else before
  }

  ghost predicate Visits(order: seq<nat>, keys: set<nat>) {
    Distinct(order) && forall s :: s in order <==> s in keys
  }

  lemma {:induction false} GoodSweepAll(code: Code, core: Core, log: set<Heard>, order: seq<nat>, stale: set<nat>,
                                        b: nat, block: ByteString)
    requires Good(code, core, log, stale, b) && stale <= core.graph.Keys && Distinct(order)
    requires forall s :: s in order ==> s in stale
    requires b < |core.blocks| && core.blocks[b] == Some(block)
    ensures var swept := SweptAll(core.graph, order, b, block);
            var left := stale - (set s | s in order);
            left <= swept.Keys && Good(code, core.(graph := swept), log, left, b)
  {
    hide Good;
    if order == [] {
      assert stale - (set s | s in order) == stale;
    } else {
      var last, s := order[..|order| - 1], order[|order| - 1];
      assert order == last + [s];
      GoodSweepAll(code, core, log, last, stale, b, block);
      var before := core.(graph := SweptAll(core.graph, last, b, block));
      LastIsNew(stale, last, s);
      GoodSweep(code, before, log, stale - (set x | x in last), s, b, block);
    }
  }

  lemma LastIsNew(stale: set<nat>, last: seq<nat>, s: nat)
    requires Distinct(last + [s]) && s in stale
    ensures s in stale - (set x | x in last)
    ensures stale - (set x | x in last) - {s} == stale - (set x | x in last + [s])
  {
    forall i | 0 <= i < |last|
      ensures last[i] != s
    {
      assert (last + [s])[i] != (last + [s])[|last|];
    }
  }

  /** Part way through a sweep: `order` has been visited, `todo` has not. */
  ghost predicate Sweeping(start: map<nat, Equation>, order: seq<nat>, todo: set<nat>, b: nat, block: ByteString,
                           graph: map<nat, Equation>) {
    && graph == SweptAll(start, order, b, block)
    && Visits(order, start.Keys - todo)
    && todo <= graph.Keys && todo <= start.Keys
    && Sized(graph, |block|)
  }

  lemma SweepingStep(start: map<nat, Equation>, order: seq<nat>, todo: set<nat>, b: nat, block: ByteString,
                     graph: map<nat, Equation>, s: nat)
    requires Sweeping(start, order, todo, b, block, graph) && s in todo
    ensures Sweeping(start, order + [s], todo - {s}, b, block, Swept(graph, s, b, block))
  {
    assert (order + [s])[..|order|] == order;
  }

  /** One whole ripple step: solve a degree-one equation, then sweep its block out of every other. */
  function Rippled(core: Core, s: nat, order: seq<nat>): Core
    requires s in core.graph && |core.graph[s].left| == 1 && core.graph[s].left[0] < |core.blocks|
  {
    Solve(core, s).(graph := SweptAll(Solve(core, s).graph, order, core.graph[s].left[0], core.graph[s].value))
  }

  /** The equation of a source block's own frame lists at most that block. */
  lemma SystematicListsOne(code: Code, core: Core, log: set<Heard>, s: nat)
    requires Good(code, core, log, {}, 0) && s in core.graph && s < core.k
    ensures |core.graph[s].left| <= 1
  {
    var left := core.graph[s].left;
    assert Residual(left, Neighbors(code, core.k, s), Known(core.blocks));
    forall i | 0 <= i < |left|
      ensures left[i] == s
    {
      assert left[i] in left;
    }
    assert |left| < 2 || Nth(left, 0) != Nth(left, 1);
  }

  function Nth(s: seq<nat>, i: nat): nat {
    if i < |s| then s[i] else 0
  }

  lemma {:induction false} SweptShrinks(graph: map<nat, Equation>, order: seq<nat>, b: nat, block: ByteString)
    ensures SweptAll(graph, order, b, block).Keys <= graph.Keys
  {
    if order != [] {
      SweptShrinks(graph, order[..|order| - 1], b, block);
    }
  }

  /** A ripple step buffers nothing new. */
  lemma RippledShrinks(core: Core, s: nat, order: seq<nat>)
    requires s in core.graph && |core.graph[s].left| == 1 && core.graph[s].left[0] < |core.blocks|
    ensures Rippled(core, s, order).graph.Keys <= core.graph.Keys
  {
    SweptShrinks(Solve(core, s).graph, order, core.graph[s].left[0], core.graph[s].value);
  }

  lemma GoodRipple(code: Code, core: Core, log: set<Heard>, s: nat, order: seq<nat>)
    requires Good(code, core, log, {}, 0) && s in core.graph && |core.graph[s].left| == 1
    requires core.graph[s].left[0] < core.k
    requires Visits(order, core.graph.Keys - {s})
    ensures Good(code, Rippled(core, s, order), log, {}, 0)
  {
    GoodSolve(code, core, log, s);
    var b, block, solved := core.graph[s].left[0], core.graph[s].value, Solve(core, s);
    GoodSweepAll(code, solved, log, order, solved.graph.Keys, b, block);
    assert solved.graph.Keys - (set x | x in order) == {};
  }

  /** Once every block is known, the equations still listed say nothing. */
  lemma GoodLast(code: Code, core: Core, log: set<Heard>, s: nat)
    requires Good(code, core, log, {}, 0) && Lawful(code) && 0 < core.k
    requires s in core.graph && |core.graph[s].left| == 1 && core.graph[s].left[0] < core.k
    requires |Known(Solve(core, s).blocks)| == core.k
    ensures Good(code, Solve(core, s).(graph := map[]), log, {}, 0)
  {
    GoodSolve(code, core, log, s);
    var after := Solve(core, s);
    FullSet(Known(after.blocks), core.k);
    forall source | Explains(code, core.k, core.size, log, source)
      ensures Agrees(after.(graph := map[]), source)
    {
      assert Agrees(after, source);
    }
  }

  lemma QueueStart(graph: map<nat, Equation>, s: nat, e: Equation)
    requires |e.left| == 1
    requires forall t :: t in graph ==> |graph[t].left| >= 2
    ensures QueueFits(graph[s := e], [s])
  {
  }

  lemma NothingLeft(blocks: seq<Option<ByteString>>, around: seq<nat>)
    requires Distinct(around) && Unknown(blocks, around) == []
    ensures forall x :: x in around ==> x in Known(blocks)
  {
    UnknownIsResidual(blocks, around);
  }

  lemma SpentIsKnown(code: Code, core: Core, sequence: nat)
    requires Lawful(code) && 0 < core.k
    ensures Unknown(core.blocks, Neighbors(code, core.k, sequence)) == [] ==>
              forall x :: x in Neighbors(code, core.k, sequence) ==> x in Known(core.blocks)
  {
    if Unknown(core.blocks, Neighbors(code, core.k, sequence)) == [] {
      NewDistinct(code, core.k, sequence);
      NothingLeft(core.blocks, Neighbors(code, core.k, sequence));
    }
  }

  lemma EmptyQueue(graph: map<nat, Equation>)
    requires QueueFits(graph, [])
    ensures forall s :: s in graph ==> |graph[s].left| >= 2
  {
  }

  lemma NewDistinct(code: Code, k: nat, sequence: nat)
    requires Lawful(code) && 0 < k
    ensures Distinct(Neighbors(code, k, sequence)) && InRange(Neighbors(code, k, sequence), k)
  {
  }

  /** What the decoder needs to know before it solves: the block is in range and was unknown. */
  lemma SolvableIsUnknown(code: Code, core: Core, log: set<Heard>, s: nat)
    requires Good(code, core, log, {}, 0) && Lawful(code) && 0 < core.k
    requires s in core.graph && |core.graph[s].left| == 1
    ensures core.graph[s].left[0] < core.k && core.blocks[core.graph[s].left[0]].None?
    ensures Known(Solve(core, s).blocks) == Known(core.blocks) + {core.graph[s].left[0]}
    ensures |Known(Solve(core, s).blocks)| == |Known(core.blocks)| + 1 <= core.k
  {
    var b := core.graph[s].left[0];
    assert b in core.graph[s].left;
    assert b in Neighbors(code, core.k, s);
    GoodSolve(code, core, log, s);
    FullSetBound(Known(Solve(core, s).blocks), core.k);
  }

  /** A delivery that changes nothing but the log: a repeat, or a frame with no unknown neighbour. */
  lemma GoodSpent(code: Code, core: Core, log: set<Heard>, h: Heard)
    requires Good(code, core, log, {}, 0)
    requires h.sequence in core.graph
             || forall x :: x in Neighbors(code, core.k, h.sequence) ==> x in Known(core.blocks)
    ensures Good(code, core, log + {h}, {}, 0)
  {
    assert Sequences(log + {h}) == Sequences(log) + {h.sequence};
    forall source | Explains(code, core.k, core.size, log + {h}, source)
      ensures Agrees(core, source)
    {
      assert Explains(code, core.k, core.size, log, source);
    }
    ClosedShrinks(code, core.k, Sequences(log), Sequences(log + {h}));
  }

  lemma ClosedShrinks(code: Code, k: nat, heard: set<nat>, more: set<nat>)
    requires heard <= more
    ensures forall t: set<nat> :: Closed(code, k, more, t) ==> Closed(code, k, heard, t)
  {
  }

  ghost predicate Matching(blocks: seq<Option<ByteString>>, size: nat, source: seq<ByteString>) {
    forall b :: 0 <= b < |blocks| && blocks[b].Some? ==> blocks[b].value == BlockAt(source, b, size)
  }

  /** The neighbours elimination keeps, and the payload once the known ones are XORed out. */
  function Unknown(blocks: seq<Option<ByteString>>, around: seq<nat>): seq<nat> {
    if around == [] then [] else
      var n := around[|around| - 1];
      Unknown(blocks, around[..|around| - 1]) + (if n < |blocks| && blocks[n].Some? then [] else [n])
  }

  function Reduced(blocks: seq<Option<ByteString>>, around: seq<nat>, payload: ByteString): (value: ByteString)
    ensures |value| == |payload|
  {
    if around == [] then payload else
      var n, value := around[|around| - 1], Reduced(blocks, around[..|around| - 1], payload);
      if n < |blocks| && blocks[n].Some? && |blocks[n].value| == |value| then Xor(value, blocks[n].value) else value
  }

  lemma {:induction false} UnknownIsResidual(blocks: seq<Option<ByteString>>, around: seq<nat>)
    requires Distinct(around)
    ensures Residual(Unknown(blocks, around), around, Known(blocks))
  {
    if around != [] {
      var n := |around| - 1;
      UnknownIsResidual(blocks, around[..n]);
      assert around == around[..n] + [around[n]];
      assert around[n] !in around[..n];
    }
  }

  /** Elimination keeps the XOR equation true, whatever the rest of the list is. */
  lemma {:induction false} ReducedSum(blocks: seq<Option<ByteString>>, source: seq<ByteString>, around: seq<nat>,
                                      rest: seq<nat>, payload: ByteString)
    requires Matching(blocks, |payload|, source) && payload == Sum(source, around + rest, |payload|)
    requires forall b :: 0 <= b < |blocks| && blocks[b].Some? ==> |blocks[b].value| == |payload|
    ensures Reduced(blocks, around, payload) == Sum(source, Unknown(blocks, around) + rest, |payload|)
  {
    hide Sum, Xor;
    if around == [] {
      assert around + rest == rest == Unknown(blocks, around) + rest;
    } else {
      var last, n := |around| - 1, around[|around| - 1];
      var kept, value := Unknown(blocks, around[..last]), Reduced(blocks, around[..last], payload);
      assert around + rest == around[..last] + ([n] + rest);
      ReducedSum(blocks, source, around[..last], [n] + rest, payload);
      if n < |blocks| && blocks[n].Some? {
        SumRemoved(source, kept + ([n] + rest), |payload|, |kept|, value);
        assert (kept + ([n] + rest))[..|kept|] + (kept + ([n] + rest))[|kept| + 1..] == kept + rest;
        assert (kept + ([n] + rest))[|kept|] == n;
        assert blocks[n].value == BlockAt(source, n, |payload|);
        assert Unknown(blocks, around) == kept;
      } else {
        assert Unknown(blocks, around) == kept + [n];
        assert kept + ([n] + rest) == kept + [n] + rest;
      }
    }
  }

  /** Buffering a new frame after elimination. */
  lemma GoodInsert(code: Code, core: Core, log: set<Heard>, h: Heard)
    requires Good(code, core, log, {}, 0)
    requires h.sequence !in core.graph && |h.payload| == core.size && Distinct(Neighbors(code, core.k, h.sequence))
    ensures Good(code, Insert(code, core, h), log + {h}, {}, 0)
  {
    var around := Neighbors(code, core.k, h.sequence);
    var after := Insert(code, core, h);
    assert Sequences(log + {h}) == Sequences(log) + {h.sequence};
    UnknownIsResidual(core.blocks, around);
    forall source | Explains(code, core.k, core.size, log + {h}, source)
      ensures Agrees(after, source)
    {
      assert Explains(code, core.k, core.size, log, source);
      assert Agrees(core, source);
      assert around + [] == around && Unknown(core.blocks, around) + [] == Unknown(core.blocks, around);
      ReducedSum(core.blocks, source, around, [], h.payload);
    }
    ClosedShrinks(code, core.k, Sequences(log), Sequences(log + {h}));
  }

  function Insert(code: Code, core: Core, h: Heard): Core {
    var around := Neighbors(code, core.k, h.sequence);
    core.(graph := core.graph[h.sequence := Equation(Unknown(core.blocks, around),
                                                     Reduced(core.blocks, around, h.payload))])
  }

  // ---------------------------------------------------------------- the ripple queue, as sequence numbers

  /** Every equation lists an unknown; those that list just one are queued exactly once. A queued
      sequence number that is no longer in the graph has nothing left to give. */
  ghost predicate QueueFits(graph: map<nat, Equation>, queue: seq<nat>) {
    && Distinct(queue)
    && (forall i :: 0 <= i < |queue| && queue[i] in graph ==> |graph[queue[i]].left| == 1)
    && (forall s :: s in graph ==> |graph[s].left| >= 1 && (|graph[s].left| == 1 ==> s in queue))
  }

  lemma QueuePop(graph: map<nat, Equation>, queue: seq<nat>)
    requires QueueFits(graph, queue) && queue != []
    ensures QueueFits(graph - {queue[0]}, queue[1..])
    ensures queue[0] !in graph ==> graph - {queue[0]} == graph
  {
  }

  lemma QueueSweep(graph: map<nat, Equation>, queue: seq<nat>, s: nat, b: nat, block: ByteString)
    requires QueueFits(graph, queue) && s in graph && |block| == |graph[s].value|
    ensures var longer := if b in graph[s].left && |graph[s].left| == 2 then queue + [s] else queue;
            QueueFits(Swept(graph, s, b, block), longer)
  {
  }

  lemma TwoUnknowns(left: seq<nat>, around: seq<nat>, known: set<nat>, b: nat)
    requires Residual(left, around, known) && |left| >= 2
    ensures !Yields(around, known, b)
  {
    var other := if left[0] == b then left[1] else left[0];
    assert other in left;
  }

  /** When no buffered equation has a single unknown, what is known is exactly the closure. */
  lemma QuiescentIsClosure(code: Code, core: Core, log: set<Heard>)
    requires Lawful(code) && 0 < core.k && Good(code, core, log, {}, 0)
    requires (forall s :: s in core.graph ==> |core.graph[s].left| >= 2) || |Known(core.blocks)| == core.k
    ensures Known(core.blocks) == Closure(code, core.k, Sequences(log))
    ensures |Known(core.blocks)| == core.k <==> Known(core.blocks) == UpTo(core.k)
  {
    var known, heard := Known(core.blocks), Sequences(log);
    if |known| == core.k {
      FullSet(known, core.k);
    }
    forall s, b: nat | s in heard && Yields(Neighbors(code, core.k, s), known, b)
      ensures b in known
    {
      assert b < core.k;
      if s in core.graph && |core.graph[s].left| >= 2 {
        TwoUnknowns(core.graph[s].left, Neighbors(code, core.k, s), known, b);
      }
    }
    ClosureIsLeast(code, core.k, heard, known);
    forall b | b in known
      ensures b in Closure(code, core.k, heard)
    {
    }
  }

  lemma {:induction false} SubsetSize<T>(a: set<T>, b: set<T>)
    requires a <= b
    ensures |a| <= |b|
    ensures |a| == |b| ==> a == b
  {
    if a != {} {
      var x :| x in a;
      SubsetSize(a - {x}, b - {x});
      assert a == (a - {x}) + {x} && b == (b - {x}) + {x};
    }
  }

  lemma FullSetBound(known: set<nat>, k: nat)
    requires forall b :: b in known ==> b < k
    ensures |known| <= k
  {
    SubsetSize(known, UpTo(k));
  }

  lemma FullSet(known: set<nat>, k: nat)
    requires forall b :: b in known ==> b < k
    requires |known| == k
    ensures known == UpTo(k)
  {
    SubsetSize(known, UpTo(k));
  }

  /** Hearing more cannot lose a block. */
  lemma ClosureStaysFull(code: Code, k: nat, heard: set<nat>, more: set<nat>)
    requires heard <= more && Closure(code, k, heard) == UpTo(k)
    ensures Closure(code, k, more) == UpTo(k)
  {
    ClosureGrows(code, k, heard, more);
  }

  lemma OneMoreSequence(log: set<Heard>, h: Heard)
    ensures Sequences(log + {h}) == Sequences(log) + {h.sequence}
  {
  }
}
