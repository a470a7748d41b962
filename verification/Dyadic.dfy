// Arithmetic of aligned power-of-two blocks.
//
// Shifts, alignment and exclusive-or are defined by halving, so that every
// proof below is an induction on the number of bits; ShiftIsDivision and
// AlignedIsMultiple tie the definitions back to `/` and `%`.

module Dyadic {

  // 1UL << k
  function Pow2(k: nat): (r: nat)
    ensures r >= 1
  {
    if k == 0 then 1 else 2 * Pow2(k - 1)
  }

  // a >> k
  function Shr(a: nat, k: nat): nat
  {
    if k == 0 then a else Shr(a / 2, k - 1)
  }

  // The k low bits of a are all zero.
  predicate Aligned(a: nat, k: nat)
  {
    k == 0 || (a % 2 == 0 && Aligned(a / 2, k - 1))
  }

  // a ^ b on unsigned words
  function Xor(a: nat, b: nat): nat
    decreases a + b
  {
    if a == 0 then b
    else if b == 0 then a
    else (if a % 2 == b % 2 then 0 else 1) + 2 * Xor(a / 2, b / 2)
  }

  // Offset of the buddy of the block of size 2^order at offset a: bit `order`
  // is flipped.  BuddyIsXor shows that it is a ^ (1UL << order).
  function Buddy(a: nat, order: nat): nat
  {
    if order == 0 then (if a % 2 == 0 then a + 1 else a - 1)
    else a % 2 + 2 * Buddy(a / 2, order - 1)
  }

  function Min(a: nat, b: nat): nat
  {
    if a < b then a else b
  }

  lemma {:induction false} MultipleAtLeast(e: nat, m: nat)
    requires e > 0
    ensures e * m >= m
  {
    if e > 1 {
      MultipleAtLeast(e - 1, m);
      assert e * m == (e - 1) * m + m;
    }
  }

  lemma QuotientUnique(x: int, m: nat, q: int, d: int)
    requires 0 <= x - q * m < m && 0 <= x - d * m < m
    ensures q == d
  {
    if q > d {
      MultipleAtLeast(q - d, m);
    } else if d > q {
      MultipleAtLeast(d - q, m);
    }
  }

  lemma HalveThenDivide(a: nat, m: nat, n: nat)
    requires m > 0 && n == 2 * m
    ensures a / n == (a / 2) / m
    ensures a % n == 2 * ((a / 2) % m) + a % 2
  {
    var q, r := (a / 2) / m, (a / 2) % m;
    assert a / 2 == q * m + r;
    assert q * n == 2 * (q * m);
    var d, s := a / n, a % n;
    assert a == d * n + s;
    QuotientUnique(a, n, q, d);
  }

  lemma {:induction false} ShiftIsDivision(a: nat, k: nat)
    ensures Shr(a, k) == a / Pow2(k)
    ensures Aligned(a, k) <==> a % Pow2(k) == 0
  {
    if k > 0 {
      ShiftIsDivision(a / 2, k - 1);
      HalveThenDivide(a, Pow2(k - 1), Pow2(k));
    }
  }

  lemma {:induction false} Pow2Monotone(j: nat, k: nat)
    requires j <= k
    ensures Pow2(j) <= Pow2(k)
    ensures j < k ==> 2 * Pow2(j) <= Pow2(k)
  {
    if j < k {
      Pow2Monotone(j, k - 1);
    }
  }

  // Two aligned blocks are nested or disjoint; the smaller lies in the larger.
  lemma {:induction false} Nested(a: nat, j: nat, b: nat, k: nat)
    requires j <= k && Aligned(a, j) && Aligned(b, k)
    requires a < b + Pow2(k) && b < a + Pow2(j)
    ensures b <= a && a + Pow2(j) <= b + Pow2(k)
  {
    if j > 0 {
      Nested(a / 2, j - 1, b / 2, k - 1);
    }
  }

  lemma {:induction false} AlignedDown(a: nat, j: nat, k: nat)
    requires j <= k && Aligned(a, k)
    ensures Aligned(a, j)
  {
    if j > 0 {
      AlignedDown(a / 2, j - 1, k - 1);
    }
  }

  lemma {:induction false} AlignedByParity(a: nat, k: nat)
    requires Aligned(a, k)
    ensures Aligned(a, k + 1) <==> Shr(a, k) % 2 == 0
    ensures Shr(a, k) % 2 == 1 ==> a >= Pow2(k) && Aligned(a - Pow2(k), k + 1)
  {
    if k > 0 {
      AlignedByParity(a / 2, k - 1);
    }
  }

  lemma {:induction false} AlignedSelf(k: nat)
    ensures Aligned(0, k) && Aligned(Pow2(k), k)
  {
    if k > 0 {
      AlignedSelf(k - 1);
    }
  }

  lemma XorStep(a: nat, m: nat)
    requires m > 0
    ensures Xor(a, 2 * m) == a % 2 + 2 * Xor(a / 2, m)
  {
    assert (2 * m) / 2 == m && (2 * m) % 2 == 0;
  }

  lemma {:induction false} BuddyIsXor(a: nat, k: nat)
    ensures Buddy(a, k) == Xor(a, Pow2(k))
  {
    if k == 0 {
      assert Xor(a / 2, 0) == a / 2;
    } else {
      BuddyIsXor(a / 2, k - 1);
      XorStep(a, Pow2(k - 1));
    }
  }

  lemma {:induction false} BuddyDiffers(a: nat, k: nat)
    ensures Buddy(a, k) != a
  {
    if k > 0 {
      BuddyDiffers(a / 2, k - 1);
    }
  }

  lemma {:induction false} BuddyOfLower(low: nat, order: nat)
    requires Aligned(low, order + 1)
    ensures Buddy(low, order) == low + Pow2(order)
    ensures Buddy(low + Pow2(order), order) == low
    ensures Aligned(low, order) && Aligned(low + Pow2(order), order)
    ensures Shr(low, order) % 2 == 0 && Shr(low + Pow2(order), order) % 2 == 1
  {
    if order > 0 {
      BuddyOfLower(low / 2, order - 1);
      var b := low + Pow2(order);
      assert b / 2 == low / 2 + Pow2(order - 1) && b % 2 == 0;
    }
  }

  lemma ParentInPool(low: nat, order: nat, top: nat)
    requires order <= top && Aligned(low, order) && low < Pow2(top)
    ensures low + Pow2(order) <= Pow2(top)
  {
    AlignedSelf(top);
    Nested(low, order, 0, top);
  }

  // Everything the allocator relies on about buddies: an aligned block below
  // the pool top has a buddy in the pool, of the same alignment, exactly one
  // block away, whose buddy it is; together they are the aligned parent block,
  // which starts at the lower of the two.
  lemma BuddyFacts(a: nat, order: nat, top: nat)
    requires order < top && Aligned(a, order) && a + Pow2(order) <= Pow2(top)
    ensures var b := Buddy(a, order);
            && b != a && Aligned(b, order) && b + Pow2(order) <= Pow2(top)
            && Buddy(b, order) == a
            && (Shr(a, order) % 2 == 0 ==> b == a + Pow2(order))
            && (Shr(a, order) % 2 == 1 ==> a == b + Pow2(order))
            && Aligned(Min(a, b), order + 1)
            && Min(a, b) + Pow2(order + 1) <= Pow2(top)
  {
    AlignedByParity(a, order);
    var low := if Shr(a, order) % 2 == 0 then a else a - Pow2(order);
    BuddyOfLower(low, order);
    ParentInPool(low, order + 1, top);
  }

  // Block numbers identify aligned blocks.
  lemma {:induction false} ShrInjective(a: nat, b: nat, k: nat)
    requires Aligned(a, k) && Aligned(b, k) && Shr(a, k) == Shr(b, k)
    ensures a == b
  {
    if k > 0 {
      ShrInjective(a / 2, b / 2, k - 1);
    }
  }

  lemma {:induction false} ShrBound(a: nat, k: nat, top: nat)
    requires k <= top && a < Pow2(top)
    ensures Shr(a, k) < Pow2(top - k)
  {
    if k > 0 {
      ShrBound(a / 2, k - 1, top - 1);
    }
  }
}
