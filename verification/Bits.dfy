// Single bits of bytes, and byte arrays read as bit strings.

module Bits {
  import opened Dyadic

  // (b & (1 << k)) >> k
  predicate TestBit(b: bv8, k: nat)
    requires k < 8
  {
    (b & ((1 as bv8) << k)) >> k == 1
  }

  lemma Halved(b: bv8)
    ensures (b >> 1) as int == b as int / 2
    ensures TestBit(b, 0) <==> b as int % 2 == 1
  {
  }

  lemma ShiftedDown(b: bv8, k: nat)
    requires 0 < k < 8
    ensures TestBit(b, k) == TestBit(b >> 1, k - 1)
  {
    if k == 1 {} else if k == 2 {} else if k == 3 {} else if k == 4 {}
    else if k == 5 {} else if k == 6 {} else {}
  }

  // It is the bit worth 2^k.
  lemma {:induction false} TestBitByValue(b: bv8, k: nat)
    requires k < 8
    ensures TestBit(b, k) <==> b as int / Pow2(k) % 2 == 1
  {
    Halved(b);
    if k > 0 {
      ShiftedDown(b, k);
      TestBitByValue(b >> 1, k - 1);
      HalveThenDivide(b as int, Pow2(k - 1), Pow2(k));
    }
  }

  // b &= ~(1 << k); b |= v << k
  function PutBit(b: bv8, k: nat, v: bool): bv8
    requires k < 8
  {
    (b & !((1 as bv8) << k)) | ((if v then 1 as bv8 else 0) << k)
  }

  lemma TestPutSame(b: bv8, k: nat, v: bool)
    requires k < 8
    ensures TestBit(PutBit(b, k, v), k) == v
  {
    if k == 0 {} else if k == 1 {} else if k == 2 {} else if k == 3 {}
    else if k == 4 {} else if k == 5 {} else if k == 6 {} else {}
  }

  // Writing one bit leaves the other seven of the byte.
  lemma TestPutOther(b: bv8, k: nat, v: bool, j: nat)
    requires k < 8 && j < 8 && j != k
    ensures TestBit(PutBit(b, k, v), j) == TestBit(b, j)
  {
    if k == 0 {} else if k == 1 {} else if k == 2 {} else if k == 3 {}
    else if k == 4 {} else if k == 5 {} else if k == 6 {} else {}
  }

  // b & (1 << k), as a condition
  predicate IsSet(b: bv8, k: nat)
    requires k < 8
  {
    b & ((1 as bv8) << k) != 0
  }

  lemma IsSetIsTest(b: bv8, k: nat)
    requires k < 8
    ensures IsSet(b, k) == TestBit(b, k)
  {
    if k == 0 {} else if k == 1 {} else if k == 2 {} else if k == 3 {}
    else if k == 4 {} else if k == 5 {} else if k == 6 {} else {}
  }

  // The first n bits of an array of bytes, low bit of each byte first; past its
  // end there are none.
  ghost function BitsOf(bytes: seq<bv8>, n: nat): (s: seq<bool>)
    ensures |s| == n && forall i | 0 <= i < n && i / 8 < |bytes| :: s[i] == TestBit(bytes[i / 8], i % 8)
  {
    seq(n, i requires 0 <= i < n => i / 8 < |bytes| && TestBit(bytes[i / 8], i % 8))
  }

  // Writing bit i of the string leaves all others, also those in its byte.
  lemma PutBitOf(bytes: seq<bv8>, n: nat, i: nat, v: bool)
    requires i < n <= 8 * |bytes|
    ensures BitsOf(bytes[i / 8 := PutBit(bytes[i / 8], i % 8, v)], n) == BitsOf(bytes, n)[i := v]
  {
    var b := bytes[i / 8];
    var after := bytes[i / 8 := PutBit(b, i % 8, v)];
    forall k | 0 <= k < n
      ensures BitsOf(after, n)[k] == BitsOf(bytes, n)[i := v][k]
    {
      if k == i {
        TestPutSame(b, i % 8, v);
      } else if k / 8 == i / 8 {
        TestPutOther(b, i % 8, v, k % 8);
      }
    }
  }
}
