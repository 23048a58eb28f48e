/** Unsigned integers in network byte order. */
module BigEndian {
  import opened Bytes

  function Value(b: Byte): nat {
    b as nat
  }

  function Octet(x: nat): Byte
    requires x < 0x100
  {
    x as bv8
  }

  lemma NextValue(b: Byte)
    requires b != 255
    ensures Value(b + 1) == Value(b) + 1
  {
  }

  /** Every number below 256 is the value of a byte. */
  lemma {:induction false} ValueIsOnto(x: nat) returns (b: Byte)
    requires x < 0x100
    ensures Value(b) == x
  {
    if x == 0 {
      b := 0;
    } else {
      b := ValueIsOnto(x - 1);
      LastValue(b);
      NextValue(b);
      b := b + 1;
    }
  }

  lemma LastValue(b: Byte)
    ensures b == 255 ==> Value(b) == 255
  {
  }

  lemma OctetHolds(x: nat)
    requires x < 0x100
    ensures Value(Octet(x)) == x
  {
    hide Value, Octet;
    var b := ValueIsOnto(x);
    ValueFits(b);
  }

  lemma ValueFits(b: Byte)
    ensures Value(b) < 0x100 && Octet(Value(b)) == b
  {
  }

  function U16(b: ByteString): nat
    requires |b| == 2
  {
    Value(b[0]) * 0x100 + Value(b[1])
  }

  function U32(b: ByteString): nat
    requires |b| == 4
  {
    Value(b[0]) * 0x100_0000 + Value(b[1]) * 0x1_0000 + Value(b[2]) * 0x100 + Value(b[3])
  }

  function Put16(n: nat): (b: ByteString)
    requires n < 0x1_0000
    ensures |b| == 2
  {
    [Octet(n / 0x100), Octet(n % 0x100)]
  }

  function Put32(n: nat): (b: ByteString)
    requires n < 0x1_0000_0000
    ensures |b| == 4
  {
    [Octet(n / 0x100_0000), Octet(n / 0x1_0000 % 0x100), Octet(n / 0x100 % 0x100), Octet(n % 0x100)]
  }

  /** The most significant byte comes first. */
  lemma NetworkOrder(n: nat)
    requires n < 0x1_0000_0000
    ensures Put32(n)[0] as nat == n / 0x100_0000 && Put32(n)[1] as nat == n / 0x1_0000 % 0x100
    ensures Put32(n)[2] as nat == n / 0x100 % 0x100 && Put32(n)[3] as nat == n % 0x100
    ensures n < 0x1_0000 ==> Put16(n)[0] as nat == n / 0x100 && Put16(n)[1] as nat == n % 0x100
  {
    OctetHolds(n / 0x100_0000);
    OctetHolds(n / 0x1_0000 % 0x100);
    OctetHolds(n / 0x100 % 0x100);
    OctetHolds(n % 0x100);
    if n < 0x1_0000 {
      OctetHolds(n / 0x100);
    }
  }

  lemma NetworkOrder64(n: nat)
    requires n < 0x1_0000_0000_0000_0000
    ensures Put64(n) == Put32(n / 0x1_0000_0000) + Put32(n % 0x1_0000_0000)
  {
  }

  lemma Put16Reads(n: nat)
    requires n < 0x1_0000
    ensures U16(Put16(n)) == n
  {
    hide Value, Octet;
    OctetHolds(n / 0x100);
    OctetHolds(n % 0x100);
  }

  lemma Put32Reads(n: nat)
    requires n < 0x1_0000_0000
    ensures U32(Put32(n)) == n
  {
    hide Value, Octet;
    OctetHolds(n / 0x100_0000);
    OctetHolds(n / 0x1_0000 % 0x100);
    OctetHolds(n / 0x100 % 0x100);
    OctetHolds(n % 0x100);
    Split(n, n / 0x100, n / 0x1_0000, n / 0x100_0000);
  }

  lemma Split(n: nat, a: nat, b: nat, c: nat)
    requires a == n / 0x100 && b == n / 0x1_0000 && c == n / 0x100_0000
    ensures b == a / 0x100 && c == b / 0x100
    ensures n == c * 0x100_0000 + b % 0x100 * 0x1_0000 + a % 0x100 * 0x100 + n % 0x100
  {
  }

  lemma Read16Puts(b: ByteString)
    requires |b| == 2
    ensures U16(b) < 0x1_0000 && Put16(U16(b)) == b
  {
    hide Value, Octet;
    ValueFits(b[0]);
    ValueFits(b[1]);
  }

  lemma Read32Puts(b: ByteString)
    requires |b| == 4
    ensures U32(b) < 0x1_0000_0000 && Put32(U32(b)) == b
  {
    hide Value, Octet;
    ValueFits(b[0]);
    ValueFits(b[1]);
    ValueFits(b[2]);
    ValueFits(b[3]);
    Digits(Value(b[0]), Value(b[1]), Value(b[2]), Value(b[3]));
  }

  lemma Digits(a: nat, b: nat, c: nat, d: nat)
    requires a < 0x100 && b < 0x100 && c < 0x100 && d < 0x100
    ensures var n := a * 0x100_0000 + b * 0x1_0000 + c * 0x100 + d;
            n < 0x1_0000_0000 && n / 0x100_0000 == a && n / 0x1_0000 % 0x100 == b && n / 0x100 % 0x100 == c
            && n % 0x100 == d
  {
    var n := a * 0x100_0000 + b * 0x1_0000 + c * 0x100 + d;
    var high := a * 0x1_0000 + b * 0x100 + c;
    LastDigit(high, d);
    LastDigit(a * 0x100 + b, c);
    LastDigit(a, b);
    Split(n, n / 0x100, n / 0x1_0000, n / 0x100_0000);
  }

  lemma LastDigit(high: nat, low: nat)
    requires low < 0x100
    ensures (high * 0x100 + low) / 0x100 == high && (high * 0x100 + low) % 0x100 == low
  {
  }

  // ---------------------------------------------------------------- 64 bits, as two halves

  function U64(b: ByteString): nat
    requires |b| == 8
  {
    U32(b[..4]) * 0x1_0000_0000 + U32(b[4..])
  }

  function Put64(n: nat): (b: ByteString)
    requires n < 0x1_0000_0000_0000_0000
    ensures |b| == 8
  {
    Put32(n / 0x1_0000_0000) + Put32(n % 0x1_0000_0000)
  }

  lemma Put64Reads(n: nat)
    requires n < 0x1_0000_0000_0000_0000
    ensures U64(Put64(n)) == n
  {
    hide U32, Put32;
    Put32Reads(n / 0x1_0000_0000);
    Put32Reads(n % 0x1_0000_0000);
    assert Put64(n)[..4] == Put32(n / 0x1_0000_0000) && Put64(n)[4..] == Put32(n % 0x1_0000_0000);
  }

  lemma Read64Puts(b: ByteString)
    requires |b| == 8
    ensures U64(b) < 0x1_0000_0000_0000_0000 && Put64(U64(b)) == b
  {
    hide U32, Put32;
    Read32Puts(b[..4]);
    Read32Puts(b[4..]);
    Halves(U32(b[..4]), U32(b[4..]));
    assert b == b[..4] + b[4..];
  }

  lemma Halves(high: nat, low: nat)
    requires low < 0x1_0000_0000
    ensures (high * 0x1_0000_0000 + low) / 0x1_0000_0000 == high && (high * 0x1_0000_0000 + low) % 0x1_0000_0000 == low
  {
  }
}
