/** How sender and receiver draw the same repair equation from a frame's sequence number. */
module Sampling {
  import opened Bytes
  import opened Peeling

  // ---------------------------------------------------------------- the generator

  /** The generator's state is a number that only grows; arithmetic sees its low 32 bits. */
  type PrngState = nat

  const STEP: nat := 0x6d2b_79f5
  const TWO_32: nat := 0x1_0000_0000

  function Seeded(seed: nat): PrngState {
    if seed == 0 then 0xdead_beef else seed % TWO_32
  }

  function MixedOnce(t: bv32): bv32 {
    (t ^ (t >> 15)) * (t | 1)
  }

  function MixedTwice(t: bv32): bv32 {
    t ^ (t + (t ^ (t >> 7)) * (t | 61))
  }

  function Folded(t: bv32): bv32 {
    t ^ (t >> 14)
  }

  function Low(state: PrngState): bv32 {
    (state % TWO_32) as bv32
  }

  /** A number in [0, 1) with a denominator of 2^32. */
  function Fraction(w: bv32): (x: real)
    ensures 0.0 <= x < 1.0
  {
    WordFits(w);
    (w as nat) as real / 4294967296.0
  }

  /** Draws are spread over the interval one for each word, in order. */
  lemma FractionRises(a: bv32, b: bv32)
    ensures Fraction(a) < Fraction(b) <==> (a as nat) < (b as nat)
    ensures Fraction(0) == 0.0
  {
    WordFits(a);
    WordFits(b);
  }

  /** The first numbers drawn from seed 1: what both ends must compute, bit for bit. */
  lemma FirstDraws()
    ensures Unit(Seeded(1) + STEP) == 2693262067.0 / 4294967296.0
    ensures Unit(Seeded(1) + 2 * STEP) == 11749833.0 / 4294967296.0
  {
    hide MixedOnce, MixedTwice, Folded, Low, Fraction, Unit;
    LowWords();
    Mixes(0x6d2b_79f6, 2693262067);
    Mixes(0xda56_f3eb, 11749833);
    OneDraw(Seeded(1) + STEP, 0x6d2b_79f6, 2693262067);
    OneDraw(Seeded(1) + 2 * STEP, 0xda56_f3eb, 11749833);
    FractionOf(2693262067, 2693262067);
    FractionOf(11749833, 11749833);
  }

  lemma LowWords()
    ensures Low(Seeded(1) + STEP) == 0x6d2b_79f6 && Low(Seeded(1) + 2 * STEP) == 0xda56_f3eb
  {
    hide Low;
    LowOf(Seeded(1) + STEP, 0x6d2b_79f6, 0x6d2b_79f6);
    LowOf(Seeded(1) + 2 * STEP, 0xda56_f3eb, 0xda56_f3eb);
  }

  lemma LowOf(state: PrngState, n: nat, w: bv32)
    requires state % TWO_32 == n && w as nat == n
    ensures Low(state) == w
  {
    WordBack(w);
  }

  lemma WordBack(w: bv32)
    ensures (w as nat) as bv32 == w
  {
  }

  /** What the mixing makes of two words. */
  lemma Mixes(word: bv32, drawn: bv32)
    requires (word == 0x6d2b_79f6 && drawn == 2693262067) || (word == 0xda56_f3eb && drawn == 11749833)
    ensures Folded(MixedTwice(MixedOnce(word))) == drawn
  {
    hide MixedOnce, MixedTwice, Folded;
    OnceMixed();
    TwiceMixed();
    FoldedOnce();
  }

  lemma OnceMixed()
    ensures MixedOnce(0x6d2b_79f6) == 0x9151_7f60 && MixedOnce(0xda56_f3eb) == 0xd449_df42
  {
  }

  lemma TwiceMixed()
    ensures MixedTwice(0x9151_7f60) == 0xa085_68e6 && MixedTwice(0xd449_df42) == 0x00b3_4b04
  {
  }

  lemma FoldedOnce()
    ensures Folded(0xa085_68e6) == 2693262067 && Folded(0x00b3_4b04) == 11749833
  {
  }

  lemma OneDraw(state: PrngState, word: bv32, drawn: bv32)
    requires Low(state) == word && Folded(MixedTwice(MixedOnce(word))) == drawn
    ensures Unit(state) == Fraction(drawn)
  {
    hide MixedOnce, MixedTwice, Folded, Low, Fraction;
  }

  lemma FractionOf(w: bv32, n: nat)
    requires w as nat == n
    ensures Fraction(w) == n as real / 4294967296.0
  {
  }

  /** Two sequence numbers seed one generator only if they are 0 and the number that stands in for it. A repair frame's
      number is never 0. */
  lemma SeedsDiffer(a: nat, b: nat)
    requires a < TWO_32 && b < TWO_32
    ensures Seeded(a) == Seeded(b) <==> a == b || (a == 0 && b == 0xdead_beef) || (a == 0xdead_beef && b == 0)
  {
  }

  lemma WordFits(w: bv32)
    ensures 0 <= w as nat < TWO_32
  {
  }

  /** The draw made in a state. */
  function Unit(state: PrngState): (x: real)
    ensures 0.0 <= x < 1.0
  {
    hide *;
    Fraction(Folded(MixedTwice(MixedOnce(Low(state)))))
  }

  function Scaled(x: real, low: int, high: int): int {
    (x * (high - low) as real + low as real).Floor
  }

  /** A draw lands in the half-open range it was asked for. */
  lemma ScaledInRange(x: real, low: int, high: int)
    requires 0.0 <= x < 1.0 && low < high
    ensures low <= Scaled(x, low, high) < high
  {
    var width := (high - low) as real;
    PartOf(x, width);
    assert low as real <= x * width + low as real < high as real;
  }

  lemma PartOf(x: real, width: real)
    requires 0.0 <= x < 1.0 && width > 0.0
    ensures 0.0 <= x * width < width
  {
    NonnegativeProduct(x, width);
    PositiveProduct(1.0 - x, width);
    assert (1.0 - x) * width == width - x * width;
  }

  lemma NonnegativeProduct(x: real, y: real)
    requires x >= 0.0 && y >= 0.0
    ensures x * y >= 0.0
  {
  }

  lemma PositiveProduct(x: real, y: real)
    requires x > 0.0 && y > 0.0
    ensures x * y > 0.0
  {
  }

  class PRNG {
    var state: PrngState

    constructor (seed: nat)
      ensures state == Seeded(seed)
    {
      state := if seed == 0 then 0xdead_beef else seed % TWO_32;
    }

    method Next() returns (x: real)
      modifies this
      ensures state == old(state) + STEP && x == Unit(state)
    {
      hide MixedOnce, MixedTwice, Folded, Low, Fraction;
      state := state + STEP;
      var t := MixedOnce(Low(state));
      t := MixedTwice(t);
      x := Fraction(Folded(t));
    }

    method NextInt(low: int, high: int) returns (n: int)
      requires low < high
      modifies this
      ensures state == old(state) + STEP && n == Scaled(Unit(state), low, high) && low <= n < high
    {
      hide Unit;
      var x := Next();
      ScaledInRange(x, low, high);
      n := (x * (high - low) as real + low as real).Floor;
    }
  }

  // ---------------------------------------------------------------- the degree distribution

  ghost predicate Rising(cdf: seq<real>) {
    forall i, j :: 1 <= i <= j < |cdf| ==> cdf[i] <= cdf[j]
  }

  /** The PWA's answer: the first degree whose cumulative probability reaches `p`, or the last. */
  function FirstReaching(cdf: seq<real>, p: real, from: nat): (degree: nat)
    requires 1 <= from < |cdf|
    ensures from <= degree < |cdf|
    decreases |cdf| - from
  {
    if p <= cdf[from] || from == |cdf| - 1 then from else FirstReaching(cdf, p, from + 1)
  }

  /** It is the least degree that reaches `p`; only the last one may fall short. */
  lemma {:induction false} FirstIsLeast(cdf: seq<real>, p: real, from: nat)
    requires 1 <= from < |cdf|
    ensures forall d :: from <= d < FirstReaching(cdf, p, from) ==> p > cdf[d]
    ensures p <= cdf[FirstReaching(cdf, p, from)] || FirstReaching(cdf, p, from) == |cdf| - 1
    decreases |cdf| - from
  {
    if !(p <= cdf[from] || from == |cdf| - 1) {
      FirstIsLeast(cdf, p, from + 1);
    }
  }

  /** The PWA's linear scan. */
  method Degree(cdf: seq<real>, p: real) returns (degree: nat)
    requires |cdf| >= 2
    ensures degree == FirstReaching(cdf, p, 1)
  {
    degree := 1;
    while degree < |cdf|
      invariant 1 <= degree <= |cdf|
      invariant degree < |cdf| ==> FirstReaching(cdf, p, 1) == FirstReaching(cdf, p, degree)
      invariant degree == |cdf| ==> FirstReaching(cdf, p, 1) == |cdf| - 1
    {
      if p <= cdf[degree] {
        return;
      }
      degree := degree + 1;
    }
    return |cdf| - 1;
  }

  /** The desktop's binary search. */
  method SampleDegree(cdf: seq<real>, p: real) returns (degree: nat)
    requires |cdf| >= 2 && Rising(cdf)
    ensures degree == FirstReaching(cdf, p, 1)
  {
    FirstIsLeast(cdf, p, 1);
    var low, high := 1, |cdf| - 1;
    while low < high
      invariant 1 <= low <= FirstReaching(cdf, p, 1) <= high < |cdf|
    {
      var mid := (low + high) / 2;
      if p <= cdf[mid] {
        high := mid;
      } else {
        low := mid + 1;
      }
    }
    return low;
  }

  function Total(weights: seq<real>): real {
    if weights == [] then 0.0 else Total(weights[..|weights| - 1]) + weights[|weights| - 1]
  }

  lemma {:induction false} TotalGrows(weights: seq<real>, n: nat)
    requires n <= |weights| && forall d :: 0 <= d < |weights| ==> weights[d] >= 0.0
    ensures 0.0 <= Total(weights[..n]) <= Total(weights)
  {
    if n == |weights| {
      assert weights[..n] == weights;
      if n > 0 {
        TotalGrows(weights[..n - 1], n - 1);
        assert weights[..n - 1][..n - 1] == weights[..n - 1];
      }
    } else {
      TotalGrows(weights[..|weights| - 1], n);
      assert weights[..|weights| - 1][..n] == weights[..n];
    }
  }

  /** Normalizes the weights of degrees 1 to k and accumulates them, for any nonnegative weights with a positive sum. */
  method InitDistribution(weights: seq<real>) returns (cdf: seq<real>)
    requires |weights| >= 1 && Total(weights) > 0.0
    requires forall d :: 0 <= d < |weights| ==> weights[d] >= 0.0
    ensures |cdf| == |weights| + 1 && Rising(cdf) && cdf[0] == 0.0
    ensures forall d :: 1 <= d < |cdf| ==> cdf[d] == Total(weights[..d]) / Total(weights) && 0.0 <= cdf[d] <= 1.0
    ensures cdf[|weights|] == 1.0
  {
    hide Total, Rising;
    NoTotal(weights);
    var sum := 0.0;
    var d := 0;
    while d < |weights|
      invariant 0 <= d <= |weights| && sum == Total(weights[..d])
    {
      TotalNext(weights, d);
      sum := sum + weights[d];
      d := d + 1;
    }
    assert weights[..d] == weights;
    cdf := [0.0];
    var cumulative := 0.0;
    d := 1;
    while d <= |weights|
      invariant 1 <= d <= |weights| + 1 && |cdf| == d && cdf[0] == 0.0
      invariant cumulative == Total(weights[..d - 1]) / sum
      invariant forall e :: 1 <= e < d ==> cdf[e] == Total(weights[..e]) / sum
    {
      TotalNext(weights, d - 1);
      Shared(Total(weights[..d - 1]), weights[d - 1], sum);
      cumulative := cumulative + weights[d - 1] / sum;
      cdf := cdf + [cumulative];
      d := d + 1;
    }
    CdfRises(weights, cdf, sum);
  }

  lemma NoTotal(weights: seq<real>)
    ensures Total(weights[..0]) == 0.0
  {
  }

  lemma TotalNext(weights: seq<real>, d: nat)
    requires d < |weights|
    ensures Total(weights[..d + 1]) == Total(weights[..d]) + weights[d]
  {
    assert weights[..d + 1][..d] == weights[..d];
  }

  lemma Shared(a: real, b: real, sum: real)
    requires sum > 0.0
    ensures a / sum + b / sum == (a + b) / sum
  {
  }

  lemma QuotientsOrdered(a: real, b: real, sum: real)
    requires sum > 0.0 && a <= b
    ensures a / sum <= b / sum
  {
  }

  lemma WholeAndNothing(sum: real)
    requires sum > 0.0
    ensures 0.0 / sum == 0.0 && sum / sum == 1.0
  {
  }

  lemma ShareRises(weights: seq<real>, i: nat, j: nat, sum: real)
    requires 1 <= i <= j <= |weights| && sum == Total(weights) > 0.0
    requires forall d :: 0 <= d < |weights| ==> weights[d] >= 0.0
    ensures 0.0 <= Total(weights[..i]) / sum <= Total(weights[..j]) / sum <= 1.0
  {
    hide Total;
    TotalGrows(weights[..j], i);
    assert weights[..j][..i] == weights[..i];
    TotalGrows(weights, j);
    WholeAndNothing(sum);
    QuotientsOrdered(0.0, Total(weights[..i]), sum);
    QuotientsOrdered(Total(weights[..i]), Total(weights[..j]), sum);
    QuotientsOrdered(Total(weights[..j]), sum, sum);
  }

  lemma CdfRises(weights: seq<real>, cdf: seq<real>, sum: real)
    requires |weights| >= 1 && sum == Total(weights) > 0.0 && |cdf| == |weights| + 1
    requires forall d :: 0 <= d < |weights| ==> weights[d] >= 0.0
    requires forall e :: 1 <= e < |cdf| ==> cdf[e] == Total(weights[..e]) / sum
    ensures Rising(cdf) && cdf[|weights|] == 1.0 && forall d :: 1 <= d < |cdf| ==> 0.0 <= cdf[d] <= 1.0
  {
    hide Total;
    assert weights[..|weights|] == weights;
    forall i, j | 1 <= i <= j < |cdf|
      ensures cdf[i] <= cdf[j]
    {
      ShareRises(weights, i, j, sum);
    }
    forall d | 1 <= d < |cdf|
      ensures 0.0 <= cdf[d] <= 1.0
    {
      ShareRises(weights, d, d, sum);
    }
  }

  // ---------------------------------------------------------------- the equation

  function Added(indices: seq<nat>, index: nat): seq<nat> {
    if index in indices then indices else indices + [index]
  }

  /** Draws indices below `max` until `wanted` are distinct; None if that takes more than `patience` draws. */
  function Drawn(state: PrngState, indices: seq<nat>, wanted: nat, max: nat, patience: nat): Option<seq<nat>>
    requires max > 0
    decreases patience
  {
    hide Unit, Scaled;
    if |indices| >= wanted then Some(indices)
    else if patience == 0 then None
    else
      ScaledInRange(Unit(state + STEP), 0, max);
      Drawn(state + STEP, Added(indices, Scaled(Unit(state + STEP), 0, max)), wanted, max, patience - 1)
  }

  method SelectDistinctIndices(prng: PRNG, wanted: nat, max: nat, patience: nat) returns (r: Option<seq<nat>>)
    requires max > 0
    modifies prng
    ensures r == Drawn(old(prng.state), [], wanted, max, patience)
  {
    hide Unit, Scaled;
    var indices: seq<nat> := [];
    var left := patience;
    while |indices| < wanted
      invariant 0 <= left <= patience
      invariant Drawn(prng.state, indices, wanted, max, left) == Drawn(old(prng.state), [], wanted, max, patience)
      decreases left
    {
      if left == 0 {
        return None;
      }
      var index := prng.NextInt(0, max);
      indices := Added(indices, index);
      left := left - 1;
    }
    return Some(indices);
  }

  /** Whatever rejection sampling ends with is a lawful list: distinct blocks, in range, as many as were wanted. */
  lemma {:induction false} DrawnIsLawful(state: PrngState, indices: seq<nat>, wanted: nat, max: nat, patience: nat)
    requires max > 0 && Distinct(indices) && InRange(indices, max) && |indices| <= wanted
    requires Drawn(state, indices, wanted, max, patience).Some?
    ensures var s := Drawn(state, indices, wanted, max, patience).value;
            |s| == wanted && Distinct(s) && InRange(s, max) && indices <= s
    decreases patience
  {
    hide Unit, Scaled;
    if |indices| < wanted {
      var draw := Scaled(Unit(state + STEP), 0, max);
      ScaledInRange(Unit(state + STEP), 0, max);
      DrawnIsLawful(state + STEP, Added(indices, draw), wanted, max, patience - 1);
    }
  }

  /** The first `n` numbers drawn. */
  function Draws(state: PrngState, max: nat, n: nat): (draws: seq<nat>)
    requires max > 0
    ensures |draws| == n
    decreases n
  {
    hide Unit, Scaled;
    if n == 0 then []
    else
      ScaledInRange(Unit(state + STEP), 0, max);
      [Scaled(Unit(state + STEP), 0, max)] + Draws(state + STEP, max, n - 1)
  }

  /** Every number drawn, once, where it first occurs. */
  function Merged(indices: seq<nat>, draws: seq<nat>): (all: seq<nat>)
    ensures indices <= all
    decreases |draws|
  {
    if draws == [] then indices else Merged(Added(indices, draws[0]), draws[1..])
  }

  lemma {:induction false} MergedHolds(indices: seq<nat>, draws: seq<nat>, x: nat)
    ensures x in Merged(indices, draws) <==> x in indices || x in draws
    decreases |draws|
  {
    if draws != [] {
      MergedHolds(Added(indices, draws[0]), draws[1..], x);
    }
  }

  /** Rejection sampling takes the first distinct numbers drawn, and ends exactly when there are enough of them. */
  lemma {:induction false} DrawnAreTheFirst(state: PrngState, indices: seq<nat>, wanted: nat, max: nat, patience: nat)
    requires max > 0 && |indices| <= wanted
    ensures var all := Merged(indices, Draws(state, max, patience));
            Drawn(state, indices, wanted, max, patience) == if |all| >= wanted then Some(all[..wanted]) else None
    decreases patience
  {
    hide Unit, Scaled;
    if |indices| < wanted && patience > 0 {
      var draw := Scaled(Unit(state + STEP), 0, max);
      ScaledInRange(Unit(state + STEP), 0, max);
      assert Draws(state, max, patience)[1..] == Draws(state + STEP, max, patience - 1);
      DrawnAreTheFirst(state + STEP, Added(indices, draw), wanted, max, patience - 1);
    } else if |indices| == wanted {
      assert Merged(indices, Draws(state, max, patience))[..wanted] == indices;
    }
  }

  /** Once sampling ends it ends the same way however much longer one was prepared to wait. */
  lemma {:induction false} PatienceDoesNotMatter(state: PrngState, indices: seq<nat>, wanted: nat, max: nat,
                                                 patience: nat, more: nat)
    requires max > 0 && patience <= more && Drawn(state, indices, wanted, max, patience).Some?
    ensures Drawn(state, indices, wanted, max, more) == Drawn(state, indices, wanted, max, patience)
    decreases patience
  {
    hide Unit, Scaled;
    if |indices| < wanted {
      var draw := Scaled(Unit(state + STEP), 0, max);
      ScaledInRange(Unit(state + STEP), 0, max);
      PatienceDoesNotMatter(state + STEP, Added(indices, draw), wanted, max, patience - 1, more - 1);
    }
  }

  /** The repair equation of a sequence number, as the desktop derives it. */
  method DesktopEquation(cdf: seq<real>, sequence: nat, patience: nat) returns (r: Option<seq<nat>>)
    requires |cdf| >= 2 && Rising(cdf)
    ensures r == Equation(cdf, sequence, patience)
  {
    hide Unit, Drawn;
    var prng := new PRNG(sequence);
    var p := prng.Next();
    var degree := SampleDegree(cdf, p);
    r := SelectDistinctIndices(prng, degree, |cdf| - 1, patience);
  }

  /** The same equation, as the PWA derives it. */
  method PwaEquation(cdf: seq<real>, sequence: nat, patience: nat) returns (r: Option<seq<nat>>)
    requires |cdf| >= 2
    ensures r == Equation(cdf, sequence, patience)
  {
    hide Unit, Drawn;
    var prng := new PRNG(sequence);
    var p := prng.Next();
    var degree := Degree(cdf, p);
    r := SelectDistinctIndices(prng, degree, |cdf| - 1, patience);
  }

  function Equation(cdf: seq<real>, sequence: nat, patience: nat): Option<seq<nat>>
    requires |cdf| >= 2
  {
    var state := Seeded(sequence) + STEP;
    Drawn(state, [], FirstReaching(cdf, Unit(state), 1), |cdf| - 1, patience)
  }

  /** Every equation sampling can produce obeys what the fountain code asks of one. */
  lemma EquationIsLawful(cdf: seq<real>, sequence: nat, patience: nat)
    requires |cdf| >= 2 && Equation(cdf, sequence, patience).Some?
    ensures var s := Equation(cdf, sequence, patience).value;
            Distinct(s) && InRange(s, |cdf| - 1) && 1 <= |s| <= |cdf| - 1
  {
    hide Unit, Drawn;
    var state := Seeded(sequence) + STEP;
    DrawnIsLawful(state, [], FirstReaching(cdf, Unit(state), 1), |cdf| - 1, patience);
  }

  /** It is the first distinct blocks drawn after the degree, as many as the first degree whose share reaches the first
      draw; there is none exactly when too few of the draws allowed are distinct. */
  lemma EquationIs(cdf: seq<real>, sequence: nat, patience: nat)
    requires |cdf| >= 2
    ensures var state := Seeded(sequence) + STEP;
            var degree := FirstReaching(cdf, Unit(state), 1);
            var all := Merged([], Draws(state, |cdf| - 1, patience));
            Equation(cdf, sequence, patience) == if |all| >= degree then Some(all[..degree]) else None
  {
    hide Unit, Drawn, Draws, Merged;
    var state := Seeded(sequence) + STEP;
    DrawnAreTheFirst(state, [], FirstReaching(cdf, Unit(state), 1), |cdf| - 1, patience);
  }

  /** The code both sides run, for any choice of distributions and any bound on the draws. */
  function SampledRepair(cdf: nat -> seq<real>, patience: nat, k: nat, sequence: nat): seq<nat> {
    if k == 0 || |cdf(k)| != k + 1 then []
    else
      var r := Equation(cdf(k), sequence, patience);
      if r.Some? then r.value else []
  }

  lemma SampledCodeIsLawful(cdf: nat -> seq<real>, patience: nat)
    ensures Lawful(Code((k, sequence) => SampledRepair(cdf, patience, k, sequence)))
  {
    var code := Code((k, sequence) => SampledRepair(cdf, patience, k, sequence));
    forall k: nat, sequence: nat | 0 < k <= sequence
      ensures Distinct(code.repair(k, sequence)) && InRange(code.repair(k, sequence), k)
    {
      hide Equation;
      if |cdf(k)| == k + 1 && Equation(cdf(k), sequence, patience).Some? {
        EquationIsLawful(cdf(k), sequence, patience);
      }
    }
  }
}
