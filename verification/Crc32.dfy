/**
 CRC-32 as in section 8 of RFC 1952: the table-driven form, the bit-by-bit form written
 independently of it, and what the checksum detects.
 */
module Crc32 {
  import opened Bytes

  const BYTE_BITS: nat := 8

  // ---------------------------------------------------------------- the register, one bit at a time

  function BitStep(v: bv32): bv32 {
    if v & 1 != 0 then 0xedb88320 ^ (v >> 1) else v >> 1
  }

  function Steps(v: bv32, n: nat): bv32 {
    if n == 0 then v else BitStep(Steps(v, n - 1))
  }

  /** The register after shifting in a message, starting from `crc`. */
  function Register(bytes: ByteString, crc: bv32): bv32 {
    if bytes == [] then crc
    else Shifted(Register(bytes[..|bytes| - 1], crc), bytes[|bytes| - 1])
  }

  function Shifted(crc: bv32, b: bv8): bv32 {
    Steps(crc ^ (b as bv32), BYTE_BITS)
  }

  function Final(crc: bv32): bv32 {
    crc ^ 0xffffffff
  }

  function Crc(bytes: ByteString): bv32 {
    Final(Register(bytes, 0xffffffff))
  }

  // ---------------------------------------------------------------- the two implementations

  /** The bit-by-bit form: the first `end` bytes. */
  method Crc32Local(bytes: ByteString, end: nat) returns (r: bv32)
    requires end <= |bytes|
    ensures r == Crc(bytes[..end])
  {
    hide Shifted;
    var crc: bv32 := 0xffffffff;
    var index := 0;
    while index < end
      invariant 0 <= index <= end
      invariant crc == Register(bytes[0..index], 0xffffffff)
    {
      RegisterStep(bytes, 0, index, crc);
      crc := ShiftIn(crc, bytes[index]);
      index := index + 1;
    }
    return crc ^ 0xffffffff;
  }

  method ShiftIn(crc: bv32, b: bv8) returns (r: bv32)
    ensures r == Shifted(crc, b)
  {
    r := ShiftByte(crc ^ (b as bv32));
  }

  /** The inner loop: eight bit steps. */
  method ShiftByte(value: bv32) returns (crc: bv32)
    ensures crc == Steps(value, BYTE_BITS)
  {
    crc := value;
    var bit := 0;
    while bit < BYTE_BITS
      invariant 0 <= bit <= BYTE_BITS && crc == Steps(value, bit)
    {
      crc := BitStep(crc);
      bit := bit + 1;
    }
  }

  lemma RegisterStep(bytes: ByteString, from: nat, index: nat, crc: bv32)
    requires from <= index < |bytes| && crc == Register(bytes[from..index], 0xffffffff)
    ensures Register(bytes[from..index + 1], 0xffffffff) == Shifted(crc, bytes[index])
  {
    assert bytes[from..index + 1][..index - from] == bytes[from..index];
  }

  ghost predicate IsTable(t: seq<bv32>) {
    |t| == 256 && forall i :: 0 <= i < 256 ==> t[i] == Steps((i as bv8) as bv32, BYTE_BITS)
  }

  /** The table-driven form, with its lazily built table. */
  class TableCrc {
    var table: array?<bv32>

    ghost predicate Valid()
      reads this, table
    {
      table != null ==> IsTable(table[..])
    }

    constructor ()
      ensures Valid() && table == null
    {
      table := null;
    }

    method CrcTable() returns (lookup: array<bv32>)
      requires Valid()
      modifies this
      ensures Valid() && lookup == table && IsTable(lookup[..])
      ensures old(table) != null ==> table == old(table)
      ensures old(table) == null ==> fresh(lookup)
    {
      if table != null {
        return table;
      }
      var next := new bv32[256];
      var index := 0;
      while index < 256
        invariant 0 <= index <= 256
        invariant forall i :: 0 <= i < index ==> next[i] == Steps((i as bv8) as bv32, BYTE_BITS)
      {
        var value := ShiftByte((index as bv8) as bv32);
        next[index] := value;
        index := index + 1;
      }
      table := next;
      return next;
    }

    /** One byte: a table entry replaces eight bit steps. */
    static method Look(lookup: array<bv32>, crc: bv32, b: bv8) returns (r: bv32)
      requires IsTable(lookup[..])
      ensures r == Shifted(crc, b)
    {
      var x := crc ^ (b as bv32);
      var low := (x & 0xff) as bv8;
      AsIndex(low);
      var entry := lookup[low as int];
      assert entry == lookup[..][low as int];
      r := entry ^ (crc >> 8);
      Looked(crc, b, x, low, entry, r);
    }

    /** The checksum of `bytes[start..end]`, with out-of-range bounds clamped. */
    method Checksum(bytes: ByteString, start: int, end: int) returns (r: bv32)
      requires Valid()
      modifies this
      ensures Valid()
      ensures r == Crc(bytes[Clamp(start, 0, |bytes|)..Clamp(end, Clamp(start, 0, |bytes|), |bytes|)])
    {
      var lookup := CrcTable();
      var from := Clamp(start, 0, |bytes|);
      var to := Clamp(end, from, |bytes|);
      var crc: bv32 := 0xffffffff;
      var index := from;
      while index < to
        invariant from <= index <= to && lookup == table && IsTable(lookup[..])
        invariant crc == Register(bytes[from..index], 0xffffffff)
      {
        RegisterStep(bytes, from, index, crc);
        crc := Look(lookup, crc, bytes[index]);
        index := index + 1;
      }
      return crc ^ 0xffffffff;
    }
  }

  function Clamp(x: int, low: int, high: int): (c: int)
    requires low <= high
    ensures low <= c <= high && (low <= x <= high ==> c == x) && (x < low ==> c == low) && (x > high ==> c == high)
  {
    var upper := if x < high then x else high;
    if low > upper then low else upper
  }

  // ---------------------------------------------------------------- the register is linear and injective

  /** Written as a relation, so that proofs about whole messages need not look at single bits. */
  ghost predicate IsXor(c: bv32, a: bv32, b: bv32) {
    c == a ^ b
  }

  lemma Looked(crc: bv32, b: bv8, x: bv32, low: bv8, entry: bv32, r: bv32)
    requires Indexes(crc, b, x, low) && entry == Steps(low as bv32, BYTE_BITS) && r == entry ^ (crc >> 8)
    ensures r == Shifted(crc, b)
  {
    LookedUp(crc, b, x, low, low as bv32, x & 0xffffff00, crc >> 8, entry, r);
  }

  lemma LookedUp(crc: bv32, b: bv8, x: bv32, low: bv8, index: bv32, high: bv32, shifted: bv32, entry: bv32, r: bv32)
    requires Indexes(crc, b, x, low) && index == low as bv32 && high == x & 0xffffff00 && shifted == crc >> 8
    requires entry == Steps(index, BYTE_BITS) && r == entry ^ shifted
    ensures r == Shifted(crc, b)
  {
    hide Steps, IsXor, Shifted, Indexes;
    ByteStep(crc, b, x, low, index, high, shifted);
    SameXor(Steps(x, BYTE_BITS), entry, shifted, r);
    ShiftedFrom(crc, b, x, low);
  }

  lemma ShiftedFrom(crc: bv32, b: bv8, x: bv32, low: bv8)
    requires Indexes(crc, b, x, low)
    ensures Shifted(crc, b) == Steps(x, BYTE_BITS)
  {
    hide Steps;
  }

  lemma SameXor(c: bv32, a: bv32, b: bv32, d: bv32)
    requires IsXor(c, a, b) && d == a ^ b
    ensures c == d
  {
  }

  lemma BitStepIsLinear(a: bv32, b: bv32, c: bv32)
    requires IsXor(c, a, b)
    ensures IsXor(BitStep(c), BitStep(a), BitStep(b))
  {
    ShiftXor(a, b);
    LowBitXor(a, b);
    LowBit(a);
    LowBit(b);
    PolynomialCancels(0xedb88320, a >> 1, b >> 1);
  }

  lemma ShiftXor(a: bv32, b: bv32)
    ensures (a ^ b) >> 1 == (a >> 1) ^ (b >> 1)
  {
  }

  lemma LowBitXor(a: bv32, b: bv32)
    ensures (a ^ b) & 1 == (a & 1) ^ (b & 1)
  {
  }

  lemma LowBit(a: bv32)
    ensures a & 1 == 0 || a & 1 == 1
  {
  }

  lemma PolynomialCancels(p: bv32, a: bv32, b: bv32)
    ensures (p ^ a) ^ (p ^ b) == a ^ b && (p ^ a) ^ b == p ^ (a ^ b) && a ^ (p ^ b) == p ^ (a ^ b)
  {
  }

  lemma {:induction false} StepsAreLinear(a: bv32, b: bv32, c: bv32, n: nat)
    requires IsXor(c, a, b)
    ensures IsXor(Steps(c, n), Steps(a, n), Steps(b, n))
  {
    hide IsXor, BitStep;
    if n > 0 {
      StepsAreLinear(a, b, c, n - 1);
      BitStepIsLinear(Steps(a, n - 1), Steps(b, n - 1), Steps(c, n - 1));
    }
  }

  lemma BitStepIsInjective(a: bv32, b: bv32)
    requires BitStep(a) == BitStep(b)
    ensures a == b
  {
  }

  lemma {:induction false} StepsAreInjective(a: bv32, b: bv32, n: nat)
    requires Steps(a, n) == Steps(b, n)
    ensures a == b
  {
    hide BitStep;
    if n > 0 {
      BitStepIsInjective(Steps(a, n - 1), Steps(b, n - 1));
      StepsAreInjective(a, b, n - 1);
    }
  }

  // ---------------------------------------------------------------- why the table works

  /** A byte of steps over a word whose low byte is clear only shifts it. */
  lemma ShiftOut(v: bv32)
    requires v & 0xff == 0
    ensures Steps(v, BYTE_BITS) == v >> 8
  {
    EightSteps(v);
    EightShifts(v);
  }

  function Eight(v: bv32): bv32 {
    BitStep(BitStep(BitStep(BitStep(BitStep(BitStep(BitStep(BitStep(v))))))))
  }

  lemma EightSteps(v: bv32)
    ensures Steps(v, BYTE_BITS) == Eight(v)
  {
    hide BitStep;
    assert Steps(v, 2) == BitStep(BitStep(Steps(v, 0)));
    assert Steps(v, 4) == BitStep(BitStep(Steps(v, 2)));
    assert Steps(v, 6) == BitStep(BitStep(Steps(v, 4)));
    assert Steps(v, 8) == BitStep(BitStep(Steps(v, 6)));
  }

  lemma EightShifts(v: bv32)
    requires v & 0xff == 0
    ensures Eight(v) == v >> 8
  {
  }

  /** A byte of steps is the table entry for the low byte, XORed with the rest shifted down. */
  lemma ByteStep(crc: bv32, b: bv8, x: bv32, low: bv8, index: bv32, high: bv32, shifted: bv32)
    requires Indexes(crc, b, x, low) && index == low as bv32 && high == x & 0xffffff00 && shifted == crc >> 8
    ensures IsXor(Steps(x, BYTE_BITS), Steps(index, BYTE_BITS), shifted)
  {
    hide IsXor, Steps;
    LowByte(crc, b, x, low, index, high, shifted);
    ByteStepOf(x, index, high, shifted);
  }

  /** `low` is the table index for shifting byte `b` into `crc`. */
  ghost predicate Indexes(crc: bv32, b: bv8, x: bv32, low: bv8) {
    x == crc ^ (b as bv32) && low == (x & 0xff) as bv8
  }

  lemma ByteStepOf(x: bv32, low: bv32, high: bv32, shifted: bv32)
    requires IsXor(x, low, high) && high & 0xff == 0 && high >> 8 == shifted
    ensures IsXor(Steps(x, BYTE_BITS), Steps(low, BYTE_BITS), shifted)
  {
    hide IsXor, Steps;
    ShiftOut(high);
    StepsAreLinear(low, high, x, BYTE_BITS);
  }

  lemma LowByte(crc: bv32, b: bv8, x: bv32, low: bv8, index: bv32, high: bv32, shifted: bv32)
    requires Indexes(crc, b, x, low) && index == low as bv32 && high == x & 0xffffff00 && shifted == crc >> 8
    ensures IsXor(x, index, high) && high & 0xff == 0 && high >> 8 == shifted
  {
    hide IsXor;
    SplitWord(x, low, index, high);
    HighWord(crc, b, x, high, shifted);
  }

  lemma SplitWord(x: bv32, low: bv8, index: bv32, high: bv32)
    requires low == (x & 0xff) as bv8 && index == low as bv32 && high == x & 0xffffff00
    ensures IsXor(x, index, high) && high & 0xff == 0
  {
  }

  lemma HighWord(crc: bv32, b: bv8, x: bv32, high: bv32, shifted: bv32)
    requires x == crc ^ (b as bv32) && high == x & 0xffffff00 && shifted == crc >> 8
    ensures high >> 8 == shifted
  {
  }

  lemma AsIndex(c: bv8)
    ensures (c as int) as bv8 == c
  {
  }

  // ---------------------------------------------------------------- what it detects

  /** Shifting in two messages at once: the register is linear in message and start together. */
  lemma {:induction false} RegisterIsLinear(a: ByteString, b: ByteString, c: ByteString, s: bv32, t: bv32, u: bv32)
    requires |a| == |b| && c == Xor(a, b) && IsXor(u, s, t)
    ensures IsXor(Register(c, u), Register(a, s), Register(b, t))
  {
    hide IsXor, Steps;
    if a != [] {
      var n := |a| - 1;
      RegisterIsLinear(a[..n], b[..n], c[..n], s, t, u);
      ByteIsLinear(Register(a[..n], s), Register(b[..n], t), Register(c[..n], u), a[n], b[n], c[n]);
    }
  }

  lemma ByteIsLinear(ra: bv32, rb: bv32, rc: bv32, a: bv8, b: bv8, c: bv8)
    requires IsXor(rc, ra, rb) && c == a ^ b
    ensures IsXor(Shifted(rc, c), Shifted(ra, a), Shifted(rb, b))
  {
    hide Steps;
    Regroup(ra, rb, rc, a, b, c);
    StepsAreLinear(ra ^ (a as bv32), rb ^ (b as bv32), rc ^ (c as bv32), BYTE_BITS);
  }

  lemma Regroup(ra: bv32, rb: bv32, rc: bv32, a: bv8, b: bv8, c: bv8)
    requires IsXor(rc, ra, rb) && c == a ^ b
    ensures IsXor(rc ^ (c as bv32), ra ^ (a as bv32), rb ^ (b as bv32))
  {
  }

  /** Exactly which corruptions pass: those whose difference leaves a cleared register at zero. */
  lemma UndetectedIff(a: ByteString, b: ByteString)
    requires |a| == |b|
    ensures Crc(a) == Crc(b) <==> Register(Xor(a, b), 0) == 0
  {
    OnesCancel();
    RegisterIsLinear(a, b, Xor(a, b), 0xffffffff, 0xffffffff, 0);
    SameIffDifferenceIsZero(Register(a, 0xffffffff), Register(b, 0xffffffff), Register(Xor(a, b), 0));
  }

  lemma OnesCancel()
    ensures IsXor(0, 0xffffffff, 0xffffffff)
  {
  }

  lemma SameIffDifferenceIsZero(a: bv32, b: bv32, d: bv32)
    requires IsXor(d, a, b)
    ensures Final(a) == Final(b) <==> d == 0
  {
    hide Final, IsXor;
    FinalIsInjective(a, b);
    DifferenceIsZeroIff(a, b, d);
  }

  lemma FinalIsInjective(a: bv32, b: bv32)
    ensures Final(a) == Final(b) <==> a == b
  {
  }

  lemma DifferenceIsZeroIff(a: bv32, b: bv32, d: bv32)
    requires IsXor(d, a, b)
    ensures d == 0 <==> a == b
  {
    hide IsXor;
    if d == 0 {
      NoDifference(a, b, d);
    }
    if a == b {
      Difference(a, d);
    }
  }

  lemma NoDifference(a: bv32, b: bv32, d: bv32)
    requires IsXor(d, a, b) && d == 0
    ensures a == b
  {
  }

  lemma Difference(a: bv32, d: bv32)
    requires IsXor(d, a, a)
    ensures d == 0
  {
  }

  lemma {:induction false} RegisterAppends(a: ByteString, b: ByteString, crc: bv32)
    ensures Register(a + b, crc) == Register(b, Register(a, crc))
  {
    hide Shifted;
    if b == [] {
      assert a + b == a;
    } else {
      var n := |b| - 1;
      RegisterAppends(a, b[..n], crc);
      assert (a + b)[..|a + b| - 1] == a + b[..n];
    }
  }

  lemma {:induction false} StepsOfZero(n: nat)
    ensures Steps(0, n) == 0
  {
    if n > 0 {
      StepsOfZero(n - 1);
      assert BitStep(0) == 0;
    }
  }

  /** Clean bytes neither clear a dirty register nor dirty a clear one. */
  lemma {:induction false} CleanBytes(n: nat, crc: bv32)
    ensures Register(Zeros(n), crc) == 0 <==> crc == 0
  {
    hide Shifted;
    if n > 0 {
      CleanBytes(n - 1, crc);
      assert Zeros(n)[..n - 1] == Zeros(n - 1);
      CleanByte(Register(Zeros(n - 1), crc));
    }
  }

  lemma CleanByte(before: bv32)
    ensures Shifted(before, 0) == 0 <==> before == 0
  {
    NothingXored(before);
    StepsOfZero(BYTE_BITS);
    if Steps(before, BYTE_BITS) == 0 {
      StepsAreInjective(before, 0, BYTE_BITS);
    }
  }

  lemma NothingXored(before: bv32)
    ensures before ^ ((0 as bv8) as bv32) == before
  {
  }

  /** A byte step undone: the only register a short result can come from. */
  lemma Unstep(crc: bv32, b: bv8, result: bv32)
    requires Shifted(crc, b) == result && result < 0x1000000
    ensures crc == Back(b, result)
  {
    UnstepOf(crc, b, crc ^ (b as bv32), result);
  }

  lemma UnstepOf(crc: bv32, b: bv8, x: bv32, result: bv32)
    requires x == crc ^ (b as bv32) && Steps(x, BYTE_BITS) == result && result < 0x1000000
    ensures crc == Back(b, result)
  {
    hide Steps;
    ShiftBack(result, result << 8);
    UnstepTo(x, result << 8, result);
    MoveAcross(crc, b, x, result << 8, result);
  }

  lemma UnstepTo(x: bv32, y: bv32, result: bv32)
    requires Steps(x, BYTE_BITS) == result && y & 0xff == 0 && y >> 8 == result
    ensures x == y
  {
    hide Steps;
    ShiftOut(y);
    StepsAreInjective(x, y, BYTE_BITS);
  }

  function Back(b: bv8, result: bv32): bv32 {
    (b as bv32) ^ (result << 8)
  }

  lemma ShiftBack(v: bv32, up: bv32)
    requires v < 0x1000000 && up == v << 8
    ensures up & 0xff == 0 && up >> 8 == v
  {
  }

  lemma MoveAcross(crc: bv32, b: bv8, x: bv32, y: bv32, result: bv32)
    requires x == crc ^ (b as bv32) && x == y && y == result << 8
    ensures crc == Back(b, result)
  {
  }

  lemma RegisterEmpty(crc: bv32)
    ensures Register([], crc) == crc
  {
  }

  lemma RegisterNext(bytes: ByteString, b: bv8, crc: bv32)
    ensures Register(bytes + [b], crc) == Shifted(Register(bytes, crc), b)
  {
    assert (bytes + [b])[..|bytes|] == bytes;
  }

  lemma FourBytes(b0: bv8, b1: bv8, b2: bv8, b3: bv8)
    requires Register([b0, b1, b2, b3], 0) == 0
    ensures b0 == b1 == b2 == b3 == 0
  {
    hide Shifted, Register;
    RegisterEmpty(0);
    RegisterNext([], b0, 0);
    RegisterNext([b0], b1, 0);
    RegisterNext([b0, b1], b2, 0);
    RegisterNext([b0, b1, b2], b3, 0);
    assert [] + [b0] == [b0] && [b0] + [b1] == [b0, b1] && [b0, b1] + [b2] == [b0, b1, b2]
           && [b0, b1, b2] + [b3] == [b0, b1, b2, b3];
    Unwind(b0, b1, b2, b3, Register([b0], 0), Register([b0, b1], 0), Register([b0, b1, b2], 0));
  }

  lemma Unwind(b0: bv8, b1: bv8, b2: bv8, b3: bv8, r0: bv32, r1: bv32, r2: bv32)
    requires Shifted(0, b0) == r0 && Shifted(r0, b1) == r1 && Shifted(r1, b2) == r2 && Shifted(r2, b3) == 0
    ensures b0 == b1 == b2 == b3 == 0
  {
    hide Shifted;
    Unstep(r2, b3, 0);
    SmallResults(b1, b2, b3);
    Unstep(r1, b2, r2);
    Unstep(r0, b1, r1);
    Unstep(0, b0, r0);
    LastByte(b0, b1, b2, b3);
  }

  lemma SmallResults(b1: bv8, b2: bv8, b3: bv8)
    ensures Back(b3, 0) < 0x1000000 && Back(b2, Back(b3, 0)) < 0x1000000 && Back(b1, Back(b2, Back(b3, 0))) < 0x1000000
  {
  }

  lemma LastByte(b0: bv8, b1: bv8, b2: bv8, b3: bv8)
    requires 0 == Back(b0, Back(b1, Back(b2, Back(b3, 0))))
    ensures b0 == b1 == b2 == b3 == 0
  {
  }

  /** Every corruption confined to four consecutive bytes changes the checksum. */
  lemma BurstDetected(before: ByteString, sent: ByteString, received: ByteString, after: ByteString)
    requires |sent| == |received| <= 4 && sent != received
    ensures Crc(before + sent + after) != Crc(before + received + after)
  {
    hide Register, Crc;
    var a, b := before + sent + after, before + received + after;
    var d := Xor(sent, received);
    DifferenceInside(before, sent, received, after);
    UndetectedIff(a, b);
    RegisterAppends(Zeros(|before|) + d, Zeros(|after|), 0);
    RegisterAppends(Zeros(|before|), d, 0);
    CleanBytes(|before|, 0);
    CleanBytes(|after|, Register(d, 0));
    ShortDifference(sent, received);
  }

  lemma DifferenceInside(before: ByteString, sent: ByteString, received: ByteString, after: ByteString)
    requires |sent| == |received|
    ensures Xor(before + sent + after, before + received + after)
         == Zeros(|before|) + Xor(sent, received) + Zeros(|after|)
  {
    var a := before + sent + after;
    forall i | 0 <= i < |a|
      ensures Xor(a, before + received + after)[i] == (Zeros(|before|) + Xor(sent, received) + Zeros(|after|))[i]
    {
      SelfXor(a[i]);
    }
  }

  lemma SelfXor(b: bv8)
    ensures b ^ b == 0
  {
  }

  lemma ShortDifference(a: ByteString, b: ByteString)
    requires |a| == |b| <= 4 && a != b
    ensures Register(Xor(a, b), 0) != 0
  {
    hide Register;
    var d := Xor(a, b);
    var padded := Zeros(4 - |d|) + d;
    RegisterAppends(Zeros(4 - |d|), d, 0);
    CleanBytes(4 - |d|, 0);
    assert padded == [padded[0], padded[1], padded[2], padded[3]];
    if Register(d, 0) == 0 {
      FourBytes(padded[0], padded[1], padded[2], padded[3]);
      forall i | 0 <= i < |a|
        ensures a[i] == b[i]
      {
        assert d[i] == padded[4 - |d| + i] == 0;
        XorIsZero(a[i], b[i]);
      }
    }
  }

  lemma XorIsZero(a: bv8, b: bv8)
    requires a ^ b == 0
    ensures a == b
  {
  }

  /** Flipping any one byte of a message changes its checksum. */
  lemma SingleByteDetected(bytes: ByteString, at: nat, other: bv8)
    requires at < |bytes| && other != bytes[at]
    ensures Crc(bytes[at := other]) != Crc(bytes)
  {
    assert bytes == bytes[..at] + [bytes[at]] + bytes[at + 1..];
    assert bytes[at := other] == bytes[..at] + [other] + bytes[at + 1..];
    BurstDetected(bytes[..at], [bytes[at]], [other], bytes[at + 1..]);
  }

  // ---------------------------------------------------------------- which checksum it is

  /** A checksum as it is stored behind a message: least significant byte first. */
  function Stored(v: bv32): ByteString {
    [(v & 0xff) as bv8, ((v >> 8) & 0xff) as bv8, ((v >> 16) & 0xff) as bv8, ((v >> 24) & 0xff) as bv8]
  }

  /** Every message followed by its own checksum has the residue that is the mark of this polynomial. */
  lemma ResidueOfAnyMessage(bytes: ByteString)
    ensures Crc(bytes + Stored(Crc(bytes))) == 0x2144df1c
  {
    hide Shifted, Final, Register, Stored, Complement, Rest;
    var r := Register(bytes, 0xffffffff);
    var q1, q2, q3, q4 := StoredBytes(r, Crc(bytes));
    var b0, b1, b2, b3 := Complement(r), Complement(q1), Complement(q2), Complement(q3);
    RegisterAppends(bytes, [b0, b1, b2, b3], 0xffffffff);
    FourInOrder(r, b0, b1, b2, b3);
    CrossesFour(r, q1, q2, q3, q4, b0, b1, b2, b3);
    OnesPattern();
    FinalOf();
  }

  lemma StoredBytes(r: bv32, v: bv32) returns (q1: bv32, q2: bv32, q3: bv32, q4: bv32)
    requires v == Final(r)
    ensures Rest(q1, r) && Rest(q2, q1) && Rest(q3, q2) && Rest(q4, q3)
    ensures Stored(v) == [Complement(r), Complement(q1), Complement(q2), Complement(q3)]
  {
    q1 := r >> 8;
    q2 := q1 >> 8;
    q3 := q2 >> 8;
    q4 := q3 >> 8;
  }

  /** The low byte of a register, every bit turned. */
  function Complement(q: bv32): bv8 {
    ((q ^ 0xffffffff) & 0xff) as bv8
  }

  lemma FourInOrder(r: bv32, b0: bv8, b1: bv8, b2: bv8, b3: bv8)
    ensures Register([b0, b1, b2, b3], r) == Shifted(Shifted(Shifted(Shifted(r, b0), b1), b2), b3)
  {
    hide Shifted, Register;
    RegisterEmpty(r);
    RegisterNext([], b0, r);
    RegisterNext([b0], b1, r);
    RegisterNext([b0, b1], b2, r);
    RegisterNext([b0, b1, b2], b3, r);
    assert [] + [b0] == [b0] && [b0] + [b1] == [b0, b1] && [b0, b1] + [b2] == [b0, b1, b2]
           && [b0, b1, b2] + [b3] == [b0, b1, b2, b3];
  }

  /** A register that takes in its own low byte, complemented, loses it, and takes in a byte of ones instead. */
  lemma Crosses(q: bv32, t: bv32, crc: bv32, b: bv8)
    requires IsXor(crc, q, t) && b == Complement(q)
    ensures IsXor(Shifted(crc, b), q >> 8, Shifted(t, 0xff))
  {
    CrossesWith(q, t, crc, b, b as bv32, crc ^ (b as bv32), t ^ 0xff, q & 0xffffff00, q >> 8);
  }

  lemma CrossesWith(q: bv32, t: bv32, crc: bv32, b: bv8, wide: bv32, x: bv32, low: bv32, high: bv32, rest: bv32)
    requires IsXor(crc, q, t) && b == Complement(q) && wide == b as bv32 && x == crc ^ wide
    requires low == t ^ 0xff && high == q & 0xffffff00 && rest == q >> 8
    ensures IsXor(Shifted(crc, b), rest, Shifted(t, 0xff))
  {
    hide Steps, IsXor, Shifted, Complement;
    Crossed(q, t, crc, b, wide, x, low, high);
    StepsAreLinear(high, low, x, BYTE_BITS);
    ClearLow(q, high);
    ShiftOut(high);
    SameRest(q, high, rest);
    ShiftedWide(crc, b, wide, x);
    ShiftedWide(t, 0xff, 0xff, low);
  }

  lemma ShiftedWide(crc: bv32, b: bv8, wide: bv32, x: bv32)
    requires wide == b as bv32 && x == crc ^ wide
    ensures Shifted(crc, b) == Steps(x, BYTE_BITS)
  {
    hide Steps;
  }

  lemma Crossed(q: bv32, t: bv32, crc: bv32, b: bv8, wide: bv32, x: bv32, low: bv32, high: bv32)
    requires IsXor(crc, q, t) && b == Complement(q) && wide == b as bv32 && x == crc ^ wide
    requires low == t ^ 0xff && high == q & 0xffffff00
    ensures IsXor(x, high, low)
  {
    hide Complement;
    Turned(q, b, wide, high);
    Swapped(q, t, wide, high);
  }

  /** A word with its own low byte, complemented, XORed in keeps its rest over a byte of ones. */
  lemma Turned(q: bv32, b: bv8, wide: bv32, high: bv32)
    requires b == Complement(q) && wide == b as bv32 && high == q & 0xffffff00
    ensures q ^ wide == high ^ 0xff
  {
  }

  lemma Swapped(q: bv32, t: bv32, wide: bv32, high: bv32)
    requires q ^ wide == high ^ 0xff
    ensures (q ^ t) ^ wide == high ^ (t ^ 0xff)
  {
    Swap(q, t, wide);
    Swap(high, t, 0xff);
    assert (high ^ t) ^ 0xff == high ^ (t ^ 0xff);
  }

  lemma Swap(a: bv32, b: bv32, c: bv32)
    ensures (a ^ b) ^ c == (a ^ c) ^ b
  {
  }

  lemma ClearLow(q: bv32, high: bv32)
    requires high == q & 0xffffff00
    ensures high & 0xff == 0
  {
  }

  lemma SameRest(q: bv32, high: bv32, rest: bv32)
    requires high == q & 0xffffff00 && rest == q >> 8
    ensures high >> 8 == rest
  {
  }

  /** What is left of a register without its low byte. */
  ghost predicate Rest(rest: bv32, q: bv32) {
    rest == q >> 8
  }

  lemma CrossesFour(r: bv32, q1: bv32, q2: bv32, q3: bv32, q4: bv32, b0: bv8, b1: bv8, b2: bv8, b3: bv8)
    requires b0 == Complement(r) && b1 == Complement(q1) && b2 == Complement(q2) && b3 == Complement(q3)
    requires Rest(q1, r) && Rest(q2, q1) && Rest(q3, q2) && Rest(q4, q3)
    ensures Shifted(Shifted(Shifted(Shifted(r, b0), b1), b2), b3)
         == Shifted(Shifted(Shifted(Shifted(0, 0xff), 0xff), 0xff), 0xff)
  {
    hide Shifted, IsXor, Complement, Rest;
    var t1, r1 := Shifted(0, 0xff), Shifted(r, b0);
    var t2, r2 := Shifted(t1, 0xff), Shifted(r1, b1);
    var t3, r3 := Shifted(t2, 0xff), Shifted(r2, b2);
    NothingAdded(r);
    Onward(r, 0, r, b0, q1);
    Onward(q1, t1, r1, b1, q2);
    Onward(q2, t2, r2, b2, q3);
    Onward(q3, t3, r3, b3, q4);
    AllShiftedOut(r, q1, q2, q3, q4, Shifted(r3, b3), Shifted(t3, 0xff));
  }

  lemma Onward(q: bv32, t: bv32, crc: bv32, b: bv8, rest: bv32)
    requires IsXor(crc, q, t) && b == Complement(q) && Rest(rest, q)
    ensures IsXor(Shifted(crc, b), rest, Shifted(t, 0xff))
  {
    hide Shifted, IsXor, Complement;
    Crosses(q, t, crc, b);
  }

  lemma NothingAdded(r: bv32)
    ensures IsXor(r, r, 0)
  {
  }

  lemma AllShiftedOut(r: bv32, q1: bv32, q2: bv32, q3: bv32, q4: bv32, a: bv32, b: bv32)
    requires Rest(q1, r) && Rest(q2, q1) && Rest(q3, q2) && Rest(q4, q3) && IsXor(a, q4, b)
    ensures a == b
  {
    assert q4 == 0;
  }

  lemma OnesPattern()
    ensures Shifted(Shifted(Shifted(Shifted(0, 0xff), 0xff), 0xff), 0xff) == 0xdebb20e3
  {
    hide Shifted;
    Ones(0, 0x2d02ef8d);
    Ones(0x2d02ef8d, 0xbe2612ff);
    Ones(0xbe2612ff, 0xbe2612);
    Ones(0xbe2612, 0xdebb20e3);
  }

  lemma Ones(crc: bv32, next: bv32)
    requires Eight(crc ^ 0xff) == next
    ensures Shifted(crc, 0xff) == next
  {
    hide Steps, Eight;
    EightSteps(crc ^ 0xff);
  }

  lemma FinalOf()
    ensures Final(0xdebb20e3) == 0x2144df1c
  {
  }

  /** The check value of this checksum, over the nine digits 1 to 9. */
  lemma CheckValue()
    ensures Crc([0x31, 0x32, 0x33, 0x34, 0x35, 0x36, 0x37, 0x38, 0x39]) == 0xcbf43926
  {
    hide Shifted, Register, Final;
    RegisterEmpty(0xffffffff);
    var d: ByteString := [];
    d := Digit(d, 0x31, 0xffffffff, 0x7c231048);
    d := Digit(d, 0x32, 0x7c231048, 0xb0acbb32);
    d := Digit(d, 0x33, 0xb0acbb32, 0x77b79c2d);
    d := Digit(d, 0x34, 0x77b79c2d, 0x641c1f5c);
    d := Digit(d, 0x35, 0x641c1f5c, 0x340ac5e3);
    d := Digit(d, 0x36, 0x340ac5e3, 0xf68d2c9e);
    d := Digit(d, 0x37, 0xf68d2c9e, 0xaffc9660);
    d := Digit(d, 0x38, 0xaffc9660, 0x651f2550);
    d := Digit(d, 0x39, 0x651f2550, 0x340bc6d9);
    assert d == [0x31, 0x32, 0x33, 0x34, 0x35, 0x36, 0x37, 0x38, 0x39];
    FinalOfCheck();
  }

  lemma Digit(before: ByteString, b: bv8, crc: bv32, next: bv32) returns (after: ByteString)
    requires Register(before, 0xffffffff) == crc && Eight(crc ^ (b as bv32)) == next
    ensures after == before + [b] && Register(after, 0xffffffff) == next
  {
    hide Steps, Eight, Register;
    after := before + [b];
    EightSteps(crc ^ (b as bv32));
    RegisterNext(before, b, 0xffffffff);
  }

  lemma FinalOfCheck()
    ensures Final(0x340bc6d9) == 0xcbf43926
  {
  }
}
