/** Byte strings and the XOR algebra every fountain equation is written in. */
module Bytes {
  type Byte = bv8
  type ByteString = seq<Byte>

  datatype Option<+T> = None | Some(value: T)
  datatype Result<+T, +E> = Success(value: T) | Failure(error: E)

  function Zeros(n: nat): (z: ByteString)
    ensures |z| == n
  {
    seq(n, _ => 0)
  }

  /** Pointwise XOR of two equally long strings. */
  function Xor(a: ByteString, b: ByteString): (x: ByteString)
    requires |a| == |b|
    ensures |x| == |a|
  {
    seq(|a|, i requires 0 <= i < |a| => a[i] ^ b[i])
  }

  lemma XorCommutes(a: ByteString, b: ByteString)
    requires |a| == |b|
    ensures Xor(a, b) == Xor(b, a)
  {
  }

  lemma XorAssociates(a: ByteString, b: ByteString, c: ByteString)
    requires |a| == |b| == |c|
    ensures Xor(Xor(a, b), c) == Xor(a, Xor(b, c))
  {
    forall i | 0 <= i < |a|
      ensures Xor(Xor(a, b), c)[i] == Xor(a, Xor(b, c))[i]
    {
      assert (a[i] ^ b[i]) ^ c[i] == a[i] ^ (b[i] ^ c[i]);
    }
  }

  lemma XorCancels(a: ByteString, b: ByteString)
    requires |a| == |b|
    ensures Xor(Xor(a, b), b) == a
  {
    forall i | 0 <= i < |a|
      ensures Xor(Xor(a, b), b)[i] == a[i]
    {
      assert (a[i] ^ b[i]) ^ b[i] == a[i];
    }
  }

  lemma XorZeros(a: ByteString)
    ensures Xor(a, Zeros(|a|)) == a
  {
    forall i | 0 <= i < |a|
      ensures Xor(a, Zeros(|a|))[i] == a[i]
    {
      assert a[i] ^ 0 == a[i];
    }
  }

  lemma XorSwaps(a: ByteString, b: ByteString, c: ByteString)
    requires |a| == |b| == |c|
    ensures Xor(a, Xor(b, c)) == Xor(b, Xor(a, c))
  {
    XorAssociates(a, b, c);
    XorCommutes(a, b);
    XorAssociates(b, a, c);
  }
}
