// The list of buddy pools as values: who holds which address, how a memory
// range is cut into pools, and which pool a freed address is routed to.

module PoolList {
  import opened Dyadic
  import opened BuddySpec
  import opened BuddyTheorems

  const PAGE_SHIFT: nat := 12

  // Bytes in a number of pages (PAGE_SIZE is 4096).
  function Bytes(pages: nat): nat { 4096 * pages }

  // The kernel's direct map: __va and __pa differ by a constant.
  const PAGE_OFFSET: nat := 0xffff_8800_0000_0000

  function Va(pa: nat): nat { pa + PAGE_OFFSET }

  // Addresses are 64-bit words.
  const WORD: nat := 0x1_0000_0000_0000_0000

  // A pool and the virtual address it starts at.
  datatype View = View(base: nat, pool: Pool)

  // ------------------------------------------------------------- page orders

  // get_order in pages: the smallest k with 2^k >= n.
  function GetOrder(n: nat): (k: nat)
    ensures n <= Pow2(k)
    ensures forall j: nat :: n <= Pow2(j) ==> k <= j
  {
    if n <= 1 then 0 else
      var k := 1 + GetOrder((n + 1) / 2);
      assert forall j: nat :: n <= Pow2(j) ==> j > 0 && (n + 1) / 2 <= Pow2(j - 1);
      k
  }

  function PageOrder(pages: nat): nat
  {
    GetOrder(pages) + PAGE_SHIFT
  }

  lemma PageOrderLeast(pages: nat, k: nat)
    requires Bytes(pages) <= Pow2(k) && 4096 <= Pow2(k)
    ensures PageOrder(pages) <= k
  {
    Pow2Pages(0);
    if k < PAGE_SHIFT {
      Pow2Monotone(k, PAGE_SHIFT);
    } else {
      Pow2Pages(k - PAGE_SHIFT);
    }
  }

  // The smallest block of at least a page that holds the pages.
  lemma PageOrderExact(pages: nat)
    ensures Bytes(pages) <= Pow2(PageOrder(pages)) && Pow2(PageOrder(pages)) >= 4096
    ensures forall k: nat :: Bytes(pages) <= Pow2(k) && 4096 <= Pow2(k) ==> PageOrder(pages) <= k
  {
    Pow2Pages(GetOrder(pages));
    forall k: nat | Bytes(pages) <= Pow2(k) && 4096 <= Pow2(k)
      ensures PageOrder(pages) <= k
    {
      PageOrderLeast(pages, k);
    }
  }

  // fls: one more than the number of the highest set bit, 0 for 0.
  function Fls(n: nat): (k: nat)
    ensures n < Pow2(k)
    ensures k > 0 ==> n >= Pow2(k - 1)
    ensures k == 0 <==> n == 0
  {
    if n == 0 then 0 else 1 + Fls(n / 2)
  }

  lemma HighBitUnique(n: nat, j: nat, k: nat)
    requires Pow2(j) <= n < 2 * Pow2(j) && Pow2(k) <= n < 2 * Pow2(k)
    ensures j == k
  {
    if j < k {
      Pow2Monotone(j, k);
    } else if k < j {
      Pow2Monotone(k, j);
    }
  }

  // The number of the highest set bit.
  ghost function HighBit(n: nat): (k: nat)
    requires n > 0
    ensures Pow2(k) <= n < 2 * Pow2(k)
  {
    assert Pow2(Fls(n) - 1) <= n < 2 * Pow2(Fls(n) - 1);
    var k: nat :| Pow2(k) <= n < 2 * Pow2(k);
    k
  }

  lemma FlsIsHighBit(n: nat)
    ensures Fls(n) == if n == 0 then 0 else HighBit(n) + 1
  {
    if n > 0 {
      HighBitUnique(n, Fls(n) - 1, HighBit(n));
    }
  }

  // ----------------------------------------------------- cutting up a range

  // Sizes (as orders, in pages) of the pools ADD_MEMORY makes of n pages.
  ghost function Cut(n: nat): seq<nat>
  {
    if n == 0 then [] else [HighBit(n)] + Cut(n - Pow2(HighBit(n)))
  }

  function Pages(orders: seq<nat>): nat
  {
    if orders == [] then 0 else Pow2(orders[0]) + Pages(orders[1..])
  }

  lemma {:induction false} CutDescends(n: nat, bound: nat)
    requires n < Pow2(bound)
    ensures forall i | 0 <= i < |Cut(n)| :: Cut(n)[i] < bound
    ensures forall i, j | 0 <= i < j < |Cut(n)| :: Cut(n)[j] < Cut(n)[i]
  {
    if n > 0 {
      var top := HighBit(n);
      if bound <= top {
        Pow2Monotone(bound, top);
      }
      CutDescends(n - Pow2(top), top);
    }
  }

  lemma {:induction false} CutSum(n: nat)
    ensures Pages(Cut(n)) == n
  {
    if n > 0 {
      CutSum(n - Pow2(HighBit(n)));
    }
  }

  lemma {:induction false} ShrOfTop(n: nat, top: nat, k: nat)
    requires Pow2(top) <= n < 2 * Pow2(top)
    ensures Shr(n, k) % 2 == 1 <==> k == top || Shr(n - Pow2(top), k) % 2 == 1
    ensures k >= top ==> Shr(n - Pow2(top), k) == 0
  {
    if k == 0 {
      if top > 0 {
        assert Pow2(top) == 2 * Pow2(top - 1);
      }
    } else if top == 0 {
      assert n == 1 && Shr(0, k) == Shr(0, k - 1);
      ShrZero(k - 1);
    } else {
      ShrOfTop(n / 2, top - 1, k - 1);
    }
  }

  lemma {:induction false} ShrZero(k: nat)
    ensures Shr(0, k) == 0
  {
    if k > 0 {
      ShrZero(k - 1);
    }
  }

  // One pool for each set bit of the page count, and no other.
  lemma {:induction false} CutIsBits(n: nat, k: nat)
    ensures k in Cut(n) <==> Shr(n, k) % 2 == 1
  {
    if n == 0 {
      ShrZero(k);
    } else {
      var top := HighBit(n);
      ShrOfTop(n, top, k);
      CutIsBits(n - Pow2(top), k);
    }
  }

  // ---------------------------------------------------------------- the list

  function Top(v: View): nat
  {
    v.base + Pow2(v.pool.top)
  }

  ghost predicate ViewOk(vs: seq<View>, i: nat)
  {
    i < |vs| ==>
      && Inv(vs[i].pool) && vs[i].pool.min == PAGE_SHIFT
      && vs[i].base >= PAGE_OFFSET
  }

  predicate RangesApart(vs: seq<View>, i: nat, k: nat)
  {
    i < |vs| && k < |vs| && i != k ==> Top(vs[i]) <= vs[k].base || Top(vs[k]) <= vs[i].base
  }

  ghost predicate Pools(vs: seq<View>)
  {
    && (forall i: nat :: ViewOk(vs, i))
    && (forall i: nat, k: nat :: RangesApart(vs, i, k))
  }

  // The block at physical address pa was handed out by pool i.
  ghost predicate Owns(vs: seq<View>, i: nat, pa: nat)
  {
    i < |vs| && Va(pa) >= vs[i].base && Va(pa) - vs[i].base in Live(vs[i].pool)
  }

  ghost predicate Accounted(vs: seq<View>, live: map<nat, nat>, pa: nat)
  {
    pa in live ==> exists i: nat :: Owns(vs, i, pa)
  }

  ghost predicate Recorded(vs: seq<View>, live: map<nat, nat>, i: nat, pa: nat)
  {
    Owns(vs, i, pa) ==> pa in live && live[pa] == Live(vs[i].pool)[Va(pa) - vs[i].base]
  }

  // live holds exactly the blocks handed out by all pools together.
  ghost predicate Ledger(vs: seq<View>, live: map<nat, nat>)
  {
    && (forall pa: nat :: Accounted(vs, live, pa))
    && (forall i: nat, pa: nat :: Recorded(vs, live, i, pa))
  }

  // Pool i is the first with room for a block of this order.
  // No pool has room for a block of this order.
  ghost predicate Full(vs: seq<View>, order: nat)
  {
    forall i | 0 <= i < |vs| :: NoRoom(vs[i].pool, order)
  }

  ghost predicate FirstWithRoom(vs: seq<View>, i: nat, order: nat)
  {
    i < |vs| && !NoRoom(vs[i].pool, order) && forall k | 0 <= k < i :: NoRoom(vs[k].pool, order)
  }

  lemma OwnedInRange(vs: seq<View>, i: nat, pa: nat)
    requires Pools(vs) && Owns(vs, i, pa)
    ensures vs[i].base <= Va(pa) && Va(pa) + Pow2(Live(vs[i].pool)[Va(pa) - vs[i].base]) <= Top(vs[i])
    ensures Va(pa) < Top(vs[i])
  {
    var h := Va(pa) - vs[i].base;
    assert ViewOk(vs, i);
    assert Fits(vs[i].pool, h, vs[i].pool.part[h].order);
  }

  lemma OneOwnerOnly(vs: seq<View>, i: nat, k: nat, pa: nat)
    requires Pools(vs) && Owns(vs, i, pa) && k < |vs| && vs[k].base <= Va(pa) < Top(vs[k])
    ensures i == k
  {
    OwnedInRange(vs, i, pa);
    assert RangesApart(vs, i, k);
  }

  lemma PoolsUpdate(vs: seq<View>, i: nat, pool: Pool)
    requires Pools(vs) && i < |vs|
    requires Inv(pool) && pool.top == vs[i].pool.top && pool.min == vs[i].pool.min
    ensures Pools(vs[i := View(vs[i].base, pool)])
  {
    var ws := vs[i := View(vs[i].base, pool)];
    forall k: nat
      ensures ViewOk(ws, k)
    {
      assert ViewOk(vs, k);
    }
    forall j: nat, k: nat
      ensures RangesApart(ws, j, k)
    {
      assert RangesApart(vs, j, k);
    }
  }

  // Only what pool i holds changes, and it changes by `change`.
  lemma LedgerUpdate(vs: seq<View>, live: map<nat, nat>, i: nat, pool: Pool, pa: nat, live': map<nat, nat>)
    requires Pools(vs) && Ledger(vs, live) && i < |vs| && vs[i].base <= Va(pa) < Top(vs[i])
    requires forall x: nat | x != pa :: (x in live' <==> x in live) && (x in live' ==> live'[x] == live[x])
    requires var h := Va(pa) - vs[i].base;
             && (forall g: nat | g != h :: (g in Live(pool) <==> g in Live(vs[i].pool))
                                        && (g in Live(pool) ==> Live(pool)[g] == Live(vs[i].pool)[g]))
             && (h in Live(pool) <==> pa in live')
             && (h in Live(pool) ==> Live(pool)[h] == live'[pa])
    ensures Ledger(vs[i := View(vs[i].base, pool)], live')
  {
    var ws, h := vs[i := View(vs[i].base, pool)], Va(pa) - vs[i].base;
    forall x: nat
      ensures Accounted(ws, live', x)
    {
      if x in live' {
        if x == pa {
          assert Owns(ws, i, x);
        } else {
          assert Accounted(vs, live, x);
          var k: nat :| Owns(vs, k, x);
          assert Owns(ws, k, x);
        }
      }
    }
    forall k: nat, x: nat
      ensures Recorded(ws, live', k, x)
    {
      assert Recorded(vs, live, k, x);
      if Owns(ws, k, x) && x == pa && k != i {
        OneOwnerOnly(vs, k, i, pa);
      }
    }
  }

  // ----------------------------------------------------------- adding memory

  // Where a pool starts, and its order.
  datatype Range = Range(base: nat, order: nat)

  predicate Avoids(rs: seq<Range>, i: nat, lo: nat, hi: nat)
  {
    i < |rs| ==> rs[i].base + Pow2(rs[i].order) <= lo || hi <= rs[i].base
  }

  // No pool reaches into [lo, hi).
  ghost predicate Unused(rs: seq<Range>, lo: nat, hi: nat)
  {
    forall i: nat :: Avoids(rs, i, lo, hi)
  }

  lemma UnusedPrefix(rs: seq<Range>, lo: nat, mid: nat, hi: nat)
    requires Unused(rs, lo, hi) && mid <= hi
    ensures Unused(rs, lo, mid)
  {
    forall i: nat
      ensures Avoids(rs, i, lo, mid)
    {
      assert Avoids(rs, i, lo, hi);
    }
  }

  lemma UnusedAfter(rs: seq<Range>, r: Range, mid: nat, hi: nat)
    requires Unused(rs, r.base, hi) && mid == r.base + Pow2(r.order) <= hi
    ensures Unused([r] + rs, mid, hi)
  {
    forall i: nat
      ensures Avoids([r] + rs, i, mid, hi)
    {
      if i > 0 {
        assert Avoids(rs, i - 1, r.base, hi);
      }
    }
  }

  function RangeOf(v: View): Range
  {
    Range(v.base, v.pool.top)
  }

  // The list after pools of these sizes, in pages as orders, were laid back to
  // back from base: each new pool goes in front.
  function AddRanges(rs: seq<Range>, base: nat, cut: seq<nat>): seq<Range>
    decreases cut
  {
    if cut == [] then rs
    else AddRanges([Range(base, cut[0] + PAGE_SHIFT)] + rs, base + Bytes(Pow2(cut[0])), cut[1..])
  }

  lemma AddRangesUnfold(rs: seq<Range>, base: nat, cut: seq<nat>)
    requires cut != []
    ensures AddRanges(rs, base, cut) ==
              AddRanges([Range(base, cut[0] + PAGE_SHIFT)] + rs, base + Bytes(Pow2(cut[0])), cut[1..])
  {
  }

  // One round of the loop: the largest pool that fits, then the rest.
  lemma CutStep(n: nat)
    requires n > 0
    ensures var o := HighBit(n);
            && Pow2(o) <= n && Cut(n) != [] && Cut(n)[0] == o && Cut(n)[1..] == Cut(n - Pow2(o))
            && Bytes(Pow2(o)) + Bytes(n - Pow2(o)) == Bytes(n)
  {
  }

  // num pages from base up to end are left to cut, are unused, and will make the
  // list `plan`.
  ghost predicate OnPlan(rs: seq<Range>, base: nat, num: nat, end: nat, plan: seq<Range>)
  {
    base + Bytes(num) == end && Unused(rs, base, end) && AddRanges(rs, base, Cut(num)) == plan
  }

  lemma PlanStep(rs: seq<Range>, base: nat, num: nat, end: nat, plan: seq<Range>)
    requires OnPlan(rs, base, num, end, plan) && num > 0
    ensures var o := HighBit(num);
            && Pow2(o) <= num
            && OnPlan([Range(base, o + PAGE_SHIFT)] + rs, base + Bytes(Pow2(o)), num - Pow2(o), end, plan)
  {
    var o := HighBit(num);
    CutStep(num);
    AddRangesUnfold(rs, base, Cut(num));
    Pow2Pages(o);
    UnusedAfter(rs, Range(base, o + PAGE_SHIFT), base + Bytes(Pow2(o)), end);
  }

  lemma {:induction false} AddRangesKeeps(rs: seq<Range>, base: nat, cut: seq<nat>, i: nat)
    requires i < |rs|
    ensures |AddRanges(rs, base, cut)| == |cut| + |rs|
    ensures AddRanges(rs, base, cut)[|cut| + i] == rs[i]
    decreases cut
  {
    if cut != [] {
      AddRangesKeeps([Range(base, cut[0] + PAGE_SHIFT)] + rs, base + Bytes(Pow2(cut[0])), cut[1..], i + 1);
    }
  }

  lemma PagesStep(cut: seq<nat>, i: nat)
    requires 0 < i <= |cut|
    ensures Pages(cut[..i]) == Pow2(cut[0]) + Pages(cut[1..][..i - 1])
  {
    assert cut[..i][1..] == cut[1..][..i - 1];
  }

  // The i-th new pool starts where the ones before it end; the last one comes
  // first in the list.
  lemma {:induction false} AddRangesTile(rs: seq<Range>, base: nat, cut: seq<nat>, i: nat)
    requires i < |cut|
    ensures |AddRanges(rs, base, cut)| == |cut| + |rs|
    ensures AddRanges(rs, base, cut)[|cut| - 1 - i] == Range(base + Bytes(Pages(cut[..i])), cut[i] + PAGE_SHIFT)
    decreases cut
  {
    var rs', base' := [Range(base, cut[0] + PAGE_SHIFT)] + rs, base + Bytes(Pow2(cut[0]));
    if i == 0 {
      AddRangesKeeps(rs', base', cut[1..], 0);
    } else {
      AddRangesTile(rs', base', cut[1..], i - 1);
      PagesStep(cut, i);
    }
  }

  lemma {:induction false} Pow2Pages(o: nat)
    ensures Pow2(o + PAGE_SHIFT) == Bytes(Pow2(o))
  {
    if o == 0 {
      assert Pow2(4) == 16 && Pow2(8) == 256 by {
        assert Pow2(2) == 4 && Pow2(6) == 64;
      }
      assert Pow2(10) == 1024;
    } else {
      Pow2Pages(o - 1);
    }
  }

  lemma PoolsPush(vs: seq<View>, rs: seq<Range>, live: map<nat, nat>, v: View)
    requires Pools(vs) && Ledger(vs, live)
    requires |rs| == |vs| && (forall i | 0 <= i < |vs| :: rs[i] == RangeOf(vs[i])) && Unused(rs, v.base, Top(v))
    requires ViewOk([v], 0) && Live(v.pool) == map[]
    ensures Pools([v] + vs) && Ledger([v] + vs, live)
  {
    var ws := [v] + vs;
    forall i: nat
      ensures ViewOk(ws, i)
    {
      if i > 0 {
        assert ViewOk(vs, i - 1);
      }
    }
    forall i: nat, k: nat
      ensures RangesApart(ws, i, k)
    {
      if i > 0 && k > 0 {
        assert RangesApart(vs, i - 1, k - 1);
      } else if i > 0 {
        assert Avoids(rs, i - 1, v.base, Top(v));
      } else if k > 0 {
        assert Avoids(rs, k - 1, v.base, Top(v));
      }
    }
    forall pa: nat
      ensures Accounted(ws, live, pa)
    {
      assert Accounted(vs, live, pa);
      if pa in live {
        var i: nat :| Owns(vs, i, pa);
        assert Owns(ws, i + 1, pa);
      }
    }
    forall i: nat, pa: nat
      ensures Recorded(ws, live, i, pa)
    {
      if i > 0 {
        assert Recorded(vs, live, i - 1, pa);
      }
    }
  }

  // ---------------------------------------------------------------- routing

  // (0x1 << k) with a 32-bit int on the left, as petmem_free_pages computes a
  // pool's size.  C leaves k > 31 undefined.
  function IntShift(k: nat): int
    requires k <= 31
  {
    if k == 31 then -0x8000_0000 else Pow2(k)
  }

  predicate Accepts(base: nat, poolOrder: nat, va: nat)
    requires poolOrder <= 31
  {
    base <= va && va < base + IntShift(poolOrder)
  }

  // The range check accepts exactly the pool's addresses for pools of up to
  // 2^30 bytes; a pool of 2^31 bytes accepts none of its own.
  lemma RoutingExact(v: View)
    requires v.pool.top <= 31
    ensures (forall va: nat :: Accepts(v.base, v.pool.top, va) <==> v.base <= va < Top(v)) <==> v.pool.top <= 30
  {
    if v.pool.top == 31 {
      assert !Accepts(v.base, 31, v.base) && v.base < Top(v);
    }
  }

  // The pool a freed address is routed to is the pool it came from.
  lemma RoutesHome(vs: seq<View>, i: nat, k: nat, pa: nat)
    requires Pools(vs) && Owns(vs, i, pa) && k < |vs| && vs[k].pool.top <= 31
    ensures Accepts(vs[k].base, vs[k].pool.top, Va(pa)) <==> k == i && vs[k].pool.top <= 30
  {
    OwnedInRange(vs, i, pa);
    if Accepts(vs[k].base, vs[k].pool.top, Va(pa)) && k != i {
      OneOwnerOnly(vs, i, k, pa);
    }
  }

  // ------------------------------------------------------------------ pages

  // When no pool has room for one page, every page of every pool is handed out
  // (given that all blocks handed out are single pages).
  lemma FullMeansAllLive(vs: seq<View>, live: map<nat, nat>, i: nat, h: nat)
    requires Pools(vs) && Ledger(vs, live) && i < |vs|
    requires NoRoom(vs[i].pool, PAGE_SHIFT) && Fits(vs[i].pool, h, PAGE_SHIFT)
    requires forall pa: nat | pa in live :: live[pa] == PAGE_SHIFT
    ensures h in Live(vs[i].pool)
  {
    var p := vs[i].pool;
    assert !Clear(Live(p), h, PAGE_SHIFT);
    var g: nat :| !Misses(Live(p), g, h, PAGE_SHIFT);
    assert ViewOk(vs, i);
    var pa := vs[i].base + g - PAGE_OFFSET;
    assert Owns(vs, i, pa) && Recorded(vs, live, i, pa);
    assert Fits(p, g, p.part[g].order);
    Nested(g, PAGE_SHIFT, h, PAGE_SHIFT);
    Nested(h, PAGE_SHIFT, g, PAGE_SHIFT);
  }

  // Pool i handed the block out, and no other did.
  ghost predicate OwnedBy(vs: seq<View>, i: nat, pa: nat)
  {
    Owns(vs, i, pa) && forall k: nat :: Owns(vs, k, pa) ==> k == i
  }

  lemma OneOwner(vs: seq<View>, live: map<nat, nat>, pa: nat)
    requires Pools(vs) && Ledger(vs, live) && pa in live
    ensures exists i: nat :: OwnedBy(vs, i, pa)
  {
    assert Accounted(vs, live, pa);
    var i: nat :| Owns(vs, i, pa);
    forall k: nat | Owns(vs, k, pa)
      ensures k == i
    {
      OwnedInRange(vs, i, pa);
      OneOwnerOnly(vs, k, i, pa);
    }
    assert OwnedBy(vs, i, pa);
  }

  // Blocks handed out never overlap, whichever pools they come from.
  lemma LiveApart(vs: seq<View>, live: map<nat, nat>, pa: nat, pb: nat)
    requires Pools(vs) && Ledger(vs, live) && pa in live && pb in live && pa < pb
    ensures pa + Pow2(live[pa]) <= pb
  {
    assert Accounted(vs, live, pa) && Accounted(vs, live, pb);
    var i: nat :| Owns(vs, i, pa);
    var k: nat :| Owns(vs, k, pb);
    assert Recorded(vs, live, i, pa) && Recorded(vs, live, k, pb);
    OwnedInRange(vs, i, pa);
    OwnedInRange(vs, k, pb);
    if i == k {
      assert ViewOk(vs, i);
      assert Apart(vs[i].pool.part, Va(pa) - vs[i].base, Va(pb) - vs[i].base);
    } else {
      assert RangesApart(vs, i, k);
    }
  }

  // ------------------------------------------------------------ conservation

  // Bytes in all pools; bytes free or handed out in all pools.
  function Size(vs: seq<View>): nat
  {
    if vs == [] then 0 else Pow2(vs[0].pool.top) + Size(vs[1..])
  }

  ghost function BytesThat(vs: seq<View>, free: bool): nat
  {
    if vs == [] then 0 else Total(BuddyTheorems.Owned(vs[0].pool, free)) + BytesThat(vs[1..], free)
  }

  // Nothing is lost over the whole list of pools.
  lemma {:induction false} ListConservation(vs: seq<View>)
    requires Pools(vs)
    ensures BytesThat(vs, true) + BytesThat(vs, false) == Size(vs)
  {
    if vs != [] {
      assert ViewOk(vs, 0);
      Conservation(vs[0].pool);
      forall i: nat
        ensures ViewOk(vs[1..], i)
      {
        assert ViewOk(vs, i + 1);
      }
      forall i: nat, k: nat
        ensures RangesApart(vs[1..], i, k)
      {
        assert RangesApart(vs, i + 1, k + 1);
      }
      ListConservation(vs[1..]);
    }
  }

  // ------------------------------------------------- freeing a virtual address

  // The vspace free path hands petmem_free_pages a kernel virtual address where
  // a physical one is expected.  Converted once more, modulo the word size, it
  // lies below every pool: nothing is freed, whatever memory it stands for.
  lemma VirtualFreeIgnored(v: View, pa: nat)
    requires v.pool.top <= 31 && v.base >= PAGE_OFFSET && Va(pa) < WORD
    ensures !Accepts(v.base, v.pool.top, Va(Va(pa)) % WORD)
  {
    assert Va(Va(pa)) % WORD == pa + 0xffff_1000_0000_0000;
  }
}
