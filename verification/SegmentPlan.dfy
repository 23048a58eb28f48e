/** Cutting a transport stream into fixed-size segments, and bitmaps over them. */
module SegmentPlans {
  datatype SegmentPlan = SegmentPlan(transportSize: nat, segmentSizeBytes: nat, segmentCount: nat)

  /** What `planSegmentation` produces: the last segment is the only short one, and it is not empty. */
  predicate Planned(p: SegmentPlan) {
    && p.segmentSizeBytes > 0 && p.segmentCount > 0
    && p.segmentSizeBytes * (p.segmentCount - 1) < p.transportSize <= p.segmentSizeBytes * p.segmentCount
  }

  /** Every transfer of at least a byte has just one plan for each segment size. */
  lemma PlannedIff(transportSize: nat, segmentSizeBytes: nat, segmentCount: nat)
    requires transportSize > 0 && segmentSizeBytes > 0
    ensures Planned(SegmentPlan(transportSize, segmentSizeBytes, segmentCount)) <==>
              segmentCount == (transportSize + segmentSizeBytes - 1) / segmentSizeBytes
  {
    var q := (transportSize + segmentSizeBytes - 1) / segmentSizeBytes;
    assert transportSize + segmentSizeBytes - 1
        == q * segmentSizeBytes + (transportSize + segmentSizeBytes - 1) % segmentSizeBytes;
    if segmentCount < q {
      MulGrows(segmentSizeBytes, segmentCount, q - 1);
    } else if segmentCount > q {
      MulGrows(segmentSizeBytes, q, segmentCount - 1);
    }
  }

  function Start(p: SegmentPlan, i: nat): nat {
    p.segmentSizeBytes * i
  }

  function End(p: SegmentPlan, i: nat): nat {
    if i + 1 == p.segmentCount then p.transportSize else Start(p, i) + p.segmentSizeBytes
  }

  lemma RangeFits(p: SegmentPlan, i: nat)
    requires Planned(p) && i < p.segmentCount
    ensures Start(p, i) < End(p, i) <= p.transportSize
    ensures End(p, i) - Start(p, i) <= p.segmentSizeBytes
    ensures i + 1 < p.segmentCount ==> End(p, i) == Start(p, i + 1)
  {
    MulGrows(p.segmentSizeBytes, i, p.segmentCount - 1);
    if i + 1 < p.segmentCount {
      MulGrows(p.segmentSizeBytes, i + 1, p.segmentCount - 1);
    }
  }

  lemma MulGrows(k: nat, a: nat, b: nat)
    requires a <= b
    ensures k * a <= k * b && k * (a + 1) == k * a + k
  {
  }

  lemma RangesAreDisjoint(p: SegmentPlan, i: nat, j: nat)
    requires Planned(p) && i < j < p.segmentCount
    ensures End(p, i) <= Start(p, j)
  {
    RangeFits(p, i);
    MulGrows(p.segmentSizeBytes, i + 1, j);
  }

  /** Every byte of the stream lies in a segment's range. */
  lemma {:induction false} RangesCover(p: SegmentPlan, n: nat, k: nat) returns (i: nat)
    requires Planned(p) && 0 < n <= p.segmentCount
    requires k < if n == p.segmentCount then p.transportSize else Start(p, n)
    ensures i < n && Start(p, i) <= k < End(p, i)
  {
    RangeFits(p, n - 1);
    if Start(p, n - 1) <= k {
      i := n - 1;
    } else {
      i := RangesCover(p, n - 1, k);
    }
  }

  // ---------------------------------------------------------------- bitmaps, least-significant bit first

  type Bitmap = seq<bv8>

  function Mask(k: nat): bv8
    requires k < 8
  {
    match k
    case 0 => 1
    case 1 => 2
    case 2 => 4
    case 3 => 8
    case 4 => 16
    case 5 => 32
    case 6 => 64
    case _ => 128
  }

  predicate IsSet(bits: Bitmap, i: nat) {
    i / 8 < |bits| && bits[i / 8] & Mask(i % 8) != 0
  }

  function SetBit(bits: Bitmap, i: nat): Bitmap
    requires i / 8 < |bits|
  {
    bits[i / 8 := bits[i / 8] | Mask(i % 8)]
  }

  function BitmapBytes(count: nat): nat {
    (count + 7) / 8
  }

  lemma MaskOr(b: bv8, j: nat, k: nat)
    requires j < 8 && k < 8
    ensures (b | Mask(j)) & Mask(k) != 0 <==> j == k || b & Mask(k) != 0
  {
  }

  lemma SetBitSets(bits: Bitmap, i: nat, k: nat)
    requires i / 8 < |bits|
    ensures IsSet(SetBit(bits, i), k) <==> k == i || IsSet(bits, k)
  {
    SetBitSetsAt(bits, i, k, i / 8, i % 8, k / 8, k % 8);
  }

  lemma SetBitSetsAt(bits: Bitmap, i: nat, k: nat, byteI: nat, bitI: nat, byteK: nat, bitK: nat)
    requires byteI == i / 8 && bitI == i % 8 && byteK == k / 8 && bitK == k % 8 && byteI < |bits|
    ensures IsSet(SetBit(bits, i), k) <==> k == i || IsSet(bits, k)
  {
    hide Mask, IsSet, SetBit;
    SamePlace(i, k);
    Located(bits, i, byteI, bitI);
    Located(bits, k, byteK, bitK);
    Located(SetBit(bits, i), k, byteK, bitK);
    if byteK < |bits| {
      SetInByte(bits, byteI, bitI, byteK, bitK);
    }
  }

  lemma Located(bits: Bitmap, i: nat, byte: nat, bit: nat)
    requires byte == i / 8 && bit == i % 8
    ensures IsSet(bits, i) <==> byte < |bits| && bits[byte] & Mask(bit) != 0
    ensures byte < |bits| ==> SetBit(bits, i) == bits[byte := bits[byte] | Mask(bit)]
  {
    hide Mask;
  }

  lemma SetInByte(bits: Bitmap, byteI: nat, bitI: nat, byteK: nat, bitK: nat)
    requires byteI < |bits| && byteK < |bits| && bitI < 8 && bitK < 8
    ensures bits[byteI := bits[byteI] | Mask(bitI)][byteK] & Mask(bitK) != 0
       <==> (byteI == byteK && bitI == bitK) || bits[byteK] & Mask(bitK) != 0
  {
    hide Mask;
    if byteK == byteI {
      MaskOr(bits[byteI], bitI, bitK);
    }
  }

  lemma SamePlace(i: nat, k: nat)
    ensures i == k <==> i / 8 == k / 8 && i % 8 == k % 8
  {
  }

  /** No bit at or past `count`. */
  ghost predicate NoSpareBits(bits: Bitmap, count: nat) {
    forall i: nat :: i >= count ==> !IsSet(bits, i)
  }

  // ---------------------------------------------------------------- counting, one segment or one byte at a time

  function One(b: bool): nat {
    if b then 1 else 0
  }

  /** Set bits below `n`. */
  function CountBelow(bits: Bitmap, n: nat): (c: nat)
    ensures c <= n
  {
    if n == 0 then 0 else CountBelow(bits, n - 1) + One(IsSet(bits, n - 1))
  }

  /** Transport bytes of the set segments below `n`. */
  function BytesBelow(p: SegmentPlan, bits: Bitmap, n: nat): nat
    requires Planned(p) && n <= p.segmentCount
  {
    if n == 0 then 0
    else
      RangeFits(p, n - 1);
      BytesBelow(p, bits, n - 1) + (if IsSet(bits, n - 1) then End(p, n - 1) - Start(p, n - 1) else 0)
  }

  lemma {:induction false} CountAfterSet(bits: Bitmap, i: nat, n: nat)
    requires i / 8 < |bits| && !IsSet(bits, i)
    ensures CountBelow(SetBit(bits, i), n) == CountBelow(bits, n) + One(i < n)
  {
    hide SetBit, IsSet;
    if n > 0 {
      CountAfterSet(bits, i, n - 1);
      SetBitSets(bits, i, n - 1);
    }
  }

  lemma {:induction false} BytesAfterSet(p: SegmentPlan, bits: Bitmap, i: nat, n: nat)
    requires Planned(p) && i < p.segmentCount && n <= p.segmentCount && i / 8 < |bits| && !IsSet(bits, i)
    ensures BytesBelow(p, SetBit(bits, i), n) == BytesBelow(p, bits, n) + (if i < n then End(p, i) - Start(p, i) else 0)
  {
    hide SetBit, IsSet;
    if n > 0 {
      BytesAfterSet(p, bits, i, n - 1);
      SetBitSets(bits, i, n - 1);
    }
  }

  /** All set up to `n`, byte count at its maximum, and segment count at its maximum are one condition. */
  lemma {:induction false} FullIff(p: SegmentPlan, bits: Bitmap, n: nat)
    requires Planned(p) && n <= p.segmentCount
    ensures BytesBelow(p, bits, n) <= (if n == p.segmentCount then p.transportSize else Start(p, n))
    ensures CountBelow(bits, n) == n <==> forall i :: 0 <= i < n ==> IsSet(bits, i)
    ensures CountBelow(bits, n) == n <==>
              BytesBelow(p, bits, n) == (if n == p.segmentCount then p.transportSize else Start(p, n))
  {
    hide IsSet;
    if n > 0 {
      FullIff(p, bits, n - 1);
      RangeFits(p, n - 1);
    }
  }

  function PopBelow(b: bv8, k: nat): nat
    requires k <= 8
  {
    if k == 0 then 0 else PopBelow(b, k - 1) + One(b & Mask(k - 1) != 0)
  }

  function PopByte(b: bv8): nat {
    PopBelow(b, 8)
  }

  /** The recurrence the source builds its lookup table with. */
  lemma PopByteHalves(b: bv8)
    ensures PopByte(b) == One(b & 1 != 0) + PopByte(b >> 1)
  {
    PopShifts(b, 7);
    TopBit(b);
  }

  lemma {:induction false} PopShifts(b: bv8, k: nat)
    requires k < 8
    ensures PopBelow(b, k + 1) == One(b & 1 != 0) + PopBelow(b >> 1, k)
  {
    hide Mask;
    if k == 0 {
      FirstBit(b);
    } else {
      PopShifts(b, k - 1);
      MaskShifts(b, k - 1);
    }
  }

  lemma FirstBit(b: bv8)
    ensures PopBelow(b, 1) == One(b & 1 != 0)
  {
  }

  lemma MaskShifts(b: bv8, k: nat)
    requires k < 7
    ensures (b >> 1) & Mask(k) != 0 <==> b & Mask(k + 1) != 0
  {
  }

  lemma TopBit(b: bv8)
    ensures (b >> 1) & Mask(7) == 0
  {
  }

  /** The byte-at-a-time population count. */
  function PopCount(bits: Bitmap): nat {
    if bits == [] then 0 else PopCount(bits[..|bits| - 1]) + PopByte(bits[|bits| - 1])
  }

  lemma {:induction false} PopCountCounts(bits: Bitmap)
    ensures PopCount(bits) == CountBelow(bits, 8 * |bits|)
  {
    if bits != [] {
      var last := |bits| - 1;
      PopCountCounts(bits[..last]);
      CountPrefix(bits, last, 8 * last);
      LastByte(bits, last);
    }
  }

  lemma {:induction false} CountPrefix(bits: Bitmap, last: nat, n: nat)
    requires last <= |bits| && n <= 8 * last
    ensures CountBelow(bits[..last], n) == CountBelow(bits, n)
  {
    if n > 0 {
      CountPrefix(bits, last, n - 1);
    }
  }

  lemma LastByte(bits: Bitmap, last: nat)
    requires last < |bits|
    ensures CountBelow(bits, 8 * last + 8) == CountBelow(bits, 8 * last) + PopByte(bits[last])
  {
    var base := 8 * last;
    forall k | 0 <= k < 8
      ensures IsSet(bits, base + k) <==> bits[last] & Mask(k) != 0
    {
      assert (base + k) / 8 == last && (base + k) % 8 == k;
    }
    CountByte(bits, base, bits[last], 8);
  }

  lemma {:induction false} CountByte(bits: Bitmap, base: nat, b: bv8, n: nat)
    requires n <= 8
    requires forall k :: 0 <= k < 8 ==> (IsSet(bits, base + k) <==> b & Mask(k) != 0)
    ensures CountBelow(bits, base + n) == CountBelow(bits, base) + PopBelow(b, n)
  {
    hide Mask, IsSet;
    if n > 0 {
      CountByte(bits, base, b, n - 1);
      assert IsSet(bits, base + (n - 1)) <==> b & Mask(n - 1) != 0;
    }
  }

  /** Above the last segment nothing is set, so nothing more is counted. */
  lemma {:induction false} CountPastEnd(bits: Bitmap, count: nat, n: nat)
    requires NoSpareBits(bits, count) && count <= n
    ensures CountBelow(bits, n) == CountBelow(bits, count)
  {
    if count < n {
      CountPastEnd(bits, count, n - 1);
    }
  }

  /** Transport bytes a bitmap accounts for, as the store adds them up. */
  method CommittedBytesOf(p: SegmentPlan, bits: Bitmap) returns (total: nat)
    requires Planned(p)
    ensures total == BytesBelow(p, bits, p.segmentCount)
  {
    hide IsSet, Start, End, Planned;
    total := 0;
    var index := 0;
    while index < p.segmentCount
      invariant 0 <= index <= p.segmentCount && total == BytesBelow(p, bits, index)
    {
      RangeFits(p, index);
      if IsSet(bits, index) {
        total := total + (End(p, index) - Start(p, index));
      }
      index := index + 1;
    }
  }

  method CountCommitted(bits: Bitmap) returns (count: nat)
    ensures count == PopCount(bits)
  {
    count := 0;
    var i := 0;
    while i < |bits|
      invariant 0 <= i <= |bits| && count == PopCount(bits[..i])
    {
      assert bits[..i + 1][..i] == bits[..i];
      count := count + PopByte(bits[i]);
      i := i + 1;
    }
    assert bits[..i] == bits;
  }
}
