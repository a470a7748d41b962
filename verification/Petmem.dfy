// The module's page allocator: a list of buddy pools carved out of the memory
// ranges handed to it.  Addresses given out and taken back are physical.

module Petmem {
  import opened Options
  import opened Dyadic
  import opened BuddySpec
  import opened BuddySteps
  import opened BuddyTheorems
  import opened PoolList
  import opened BuddyMempool

  // From 2^31 pages on, the 32-bit shifts of ADD_MEMORY are undefined.
  const MAX_PAGES: nat := 0x8000_0000

  class PageAllocator {
    // petmem_pool_list, first pool first.
    var pools: seq<Mempool>
    // Every block handed out, by physical address, with its order.
    ghost var live: map<nat, nat>
    ghost var Repr: set<object>

    ghost function Views(): (vs: seq<View>)
      reads this, pools
      ensures |vs| == |pools|
      ensures forall i | 0 <= i < |pools| :: vs[i] == View(pools[i].base, pools[i].pool)
    {
      seq(|pools|, i requires 0 <= i < |pools| reads this, pools => View(pools[i].base, pools[i].pool))
    }

    ghost predicate PoolOk(i: nat)
      reads this, Repr
      requires this in Repr
    {
      i < |pools| ==>
        && pools[i] in Repr && pools[i].tagBits in Repr && pools[i].Valid()
        && pools[i].minOrder == PAGE_SHIFT
    }

    predicate Distinct(i: nat, k: nat)
      reads this
    {
      i < |pools| && k < |pools| && i != k ==> pools[i] != pools[k] && pools[i].tagBits != pools[k].tagBits
    }

    // Each pool is sound, and no two share an object.
    ghost predicate Sound()
      reads this, Repr
    {
      && this in Repr
      && (forall i: nat :: PoolOk(i))
      && (forall i: nat, k: nat :: Distinct(i, k))
      && (forall p | p in pools :: p in Repr)
    }

    ghost predicate Valid()
      reads this, Repr
    {
      Sound() && Pools(Views()) && Ledger(Views(), live)
    }

    constructor ()
      ensures Valid() && fresh(Repr) && pools == [] && live == map[] && Ranges() == []
    {
      pools := [];
      live := map[];
      Repr := {this};
    }

    function Ranges(): seq<Range>
      reads this
    {
      seq(|pools|, i requires 0 <= i < |pools| reads this => Range(pools[i].base, pools[i].poolOrder))
    }

    lemma RangesOfViews()
      requires Valid()
      ensures |Ranges()| == |Views()|
      ensures forall i | 0 <= i < |pools| :: Ranges()[i] == RangeOf(Views()[i])
    {
      forall i | 0 <= i < |pools|
        ensures Ranges()[i] == RangeOf(Views()[i])
      {
        assert PoolOk(i);
      }
    }

    // ADD_MEMORY: cut the range into pools of descending size.
    method AddMemory(pa: nat, pages: nat) returns (ghost added: set<object>)
      requires Valid() && pages < MAX_PAGES
      requires Unused(Ranges(), Va(pa), Va(pa) + Bytes(pages))
      modifies this
      ensures Valid() && Repr == old(Repr) + added && fresh(added) && live == old(live)
      ensures Ranges() == AddRanges(old(Ranges()), Va(pa), Cut(pages))
      ensures EndsWith(pools, old(pools))
    {
      added := CutUp(Va(pa), pages, Va(pa) + Bytes(pages), AddRanges(Ranges(), Va(pa), Cut(pages)), pools);
    }

    // The loop of ADD_MEMORY.
    method CutUp(from: nat, pages: nat, ghost end: nat, ghost plan: seq<Range>, ghost earlier: seq<Mempool>)
      returns (ghost added: set<object>)
      requires Valid() && from >= PAGE_OFFSET
      requires OnPlan(Ranges(), from, pages, end, plan) && EndsWith(pools, earlier)
      modifies this
      ensures Valid() && live == old(live) && Repr == old(Repr) + added && fresh(added)
      ensures OnPlan(Ranges(), end, 0, end, plan) && EndsWith(pools, earlier)
    {
      var base, num := from, pages;
      added := {};
      var regOrder := FindLastSet(num);
      while regOrder != 0
        invariant Valid() && live == old(live) && Repr == old(Repr) + added && fresh(added)
        invariant regOrder == (if num == 0 then 0 else HighBit(num) + 1) && base >= PAGE_OFFSET
        invariant OnPlan(Ranges(), base, num, end, plan) && EndsWith(pools, earlier)
        decreases num
      {
        ghost var more;
        base, num, more := AddLargest(base, num, regOrder, end, plan, earlier);
        added := added + more;
        regOrder := FindLastSet(num);
      }
    }

    static method FindLastSet(n: nat) returns (k: nat)
      ensures k == if n == 0 then 0 else HighBit(n) + 1
    {
      FlsIsHighBit(n);
      k := Fls(n);
    }

    // One round: the largest pool that fits at base; what is left.
    method AddLargest(base: nat, num: nat, regOrder: nat, ghost end: nat, ghost plan: seq<Range>,
                      ghost earlier: seq<Mempool>)
      returns (next: nat, rest: nat, ghost more: set<object>)
      requires Valid() && base >= PAGE_OFFSET && num > 0 && regOrder == HighBit(num) + 1
      requires OnPlan(Ranges(), base, num, end, plan) && EndsWith(pools, earlier)
      modifies this
      ensures Valid() && live == old(live) && Repr == old(Repr) + more && fresh(more)
      ensures rest < num && next > base
      ensures OnPlan(Ranges(), next, rest, end, plan) && EndsWith(pools, earlier)
    {
      PlanStep(Ranges(), base, num, end, plan);
      var size: nat := Pow2(regOrder - 1);
      next, rest := base + Bytes(size), num - size;
      AddPool(base, regOrder - 1, end);
      StillEndsWith(pools, old(pools), earlier);
      more := {pools[0], pools[0].tagBits};
    }

    // Put a pool over the first 2^o pages of the unused range up to end in
    // front.
    method AddPool(base: nat, o: nat, ghost end: nat)
      requires Valid() && base >= PAGE_OFFSET && base + Bytes(Pow2(o)) <= end
      requires Unused(Ranges(), base, end)
      modifies this
      ensures Valid() && live == old(live) && pools != [] && pools[1..] == old(pools)
      ensures Repr == old(Repr) + {pools[0], pools[0].tagBits} && fresh(pools[0]) && fresh(pools[0].tagBits)
      ensures Ranges() == [Range(base, o + PAGE_SHIFT)] + old(Ranges())
    {
      Pow2Pages(o);
      var pool := NewPool(base, o);
      PushPool(pool, end);
    }

    lemma PushReady(pool: Mempool, end: nat)
      requires Valid() && pool.Valid() && Live(pool.pool) == map[]
      requires pool.minOrder == PAGE_SHIFT && pool.base >= PAGE_OFFSET
      requires pool.base + Pow2(pool.poolOrder) <= end && Unused(Ranges(), pool.base, end)
      ensures Pools([View(pool.base, pool.pool)] + Views())
      ensures Ledger([View(pool.base, pool.pool)] + Views(), live)
    {
      var v := View(pool.base, pool.pool);
      RangesOfViews();
      UnusedPrefix(Ranges(), pool.base, Top(v), end);
      PoolsPush(Views(), Ranges(), live, v);
    }

    // list_add of a pool whose blocks are all free.
    method PushPool(pool: Mempool, ghost end: nat)
      requires Valid() && pool.Valid() && pool !in Repr && pool.tagBits !in Repr
      requires pool.minOrder == PAGE_SHIFT && pool.base >= PAGE_OFFSET
      requires Live(pool.pool) == map[]
      requires pool.base + Pow2(pool.poolOrder) <= end && Unused(Ranges(), pool.base, end)
      modifies this
      ensures Valid() && Repr == old(Repr) + {pool, pool.tagBits} && live == old(live)
      ensures pools == [pool] + old(pools)
      ensures Ranges() == [Range(pool.base, pool.poolOrder)] + old(Ranges())
    {
      PushReady(pool, end);
      pools := [pool] + pools;
      Repr := Repr + {pool, pool.tagBits};
      Pushed();
    }

    // A pool initialised and freed whole.  Every page but the first then passes
    // the check of buddy_free, though nothing is live.
    method NewPool(base: nat, o: nat) returns (pool: Mempool)
      ensures fresh(pool) && fresh(pool.tagBits) && pool.Valid()
      ensures pool.base == base && pool.poolOrder == o + PAGE_SHIFT && pool.minOrder == PAGE_SHIFT
      ensures Live(pool.pool) == map[]
      ensures FirstMarkedOnly(pool.tagBits[..], pool.poolOrder)
    {
      PageFixup();
      pool := BuddyInit(base, o + PAGE_SHIFT, PAGE_SHIFT);
      FreshInv(o + PAGE_SHIFT, PAGE_SHIFT);
      ghost var tags := pool.tagBits[..];
      pool.Free(base, o + PAGE_SHIFT);
      OnlyFirstMarked(tags, pool.tagBits[..], o + PAGE_SHIFT);
    }

    twostate lemma Pushed()
      requires old(Sound()) && |pools| > 0 && pools[1..] == old(pools)
      requires Repr == old(Repr) + {pools[0], pools[0].tagBits}
      requires pools[0] !in old(Repr) && pools[0].tagBits !in old(Repr)
      requires pools[0].Valid() && pools[0].minOrder == PAGE_SHIFT
      requires forall o | o in old(Repr) && o != this :: unchanged(o)
      ensures Sound() && Views() == [View(pools[0].base, pools[0].pool)] + old(Views())
      ensures Ranges() == [Range(pools[0].base, pools[0].poolOrder)] + old(Ranges())
    {
      RangesPushed();
      forall p | p in old(pools)
        ensures unchanged(p)
      {
        assert p in old(Repr);
      }
      ViewsPushed();
      PoolPushed();
    }

    twostate lemma RangesPushed()
      requires |pools| > 0 && pools[1..] == old(pools)
      ensures Ranges() == [Range(pools[0].base, pools[0].poolOrder)] + old(Ranges())
    {
      forall k | 0 < k < |pools|
        ensures Ranges()[k] == old(Ranges())[k - 1]
      {
        assert pools[k] == pools[1..][k - 1];
      }
    }

    twostate lemma ViewsPushed()
      requires |pools| > 0 && pools[1..] == old(pools)
      requires forall p | p in old(pools) :: unchanged(p)
      ensures Views() == [View(pools[0].base, pools[0].pool)] + old(Views())
    {
      forall k | 0 < k < |pools|
        ensures Views()[k] == old(Views())[k - 1]
      {
        var p := old(pools)[k - 1];
        assert pools[k] == pools[1..][k - 1] == p;
        assert p in old(pools) && p.pool == old(p.pool);
      }
    }

    twostate lemma PoolPushed()
      requires old(Sound()) && |pools| > 0 && pools[1..] == old(pools)
      requires Repr == old(Repr) + {pools[0], pools[0].tagBits}
      requires pools[0] !in old(Repr) && pools[0].tagBits !in old(Repr)
      requires pools[0].Valid() && pools[0].minOrder == PAGE_SHIFT
      requires forall o | o in old(Repr) && o != this :: unchanged(o)
      ensures Sound()
    {
      forall k: nat
        ensures PoolOk(k)
      {
        if k > 0 {
          assert old(PoolOk(k - 1));
        }
      }
      forall j: nat, k: nat
        ensures Distinct(j, k)
      {
        if j > 0 && k > 0 {
          assert old(Distinct(j - 1, k - 1));
        } else if j > 0 {
          assert old(PoolOk(j - 1));
        } else if k > 0 {
          assert old(PoolOk(k - 1));
        }
      }
    }

    twostate lemma OnlyPoolChanged(i: nat)
      requires old(Sound()) && Repr == old(Repr) && pools == old(pools) && i < |pools|
      requires pools[i].Valid()
      requires forall o | o in Repr && o != this && o != pools[i] && o != pools[i].tagBits :: unchanged(o)
      ensures Sound()
      ensures Views() == old(Views())[i := View(pools[i].base, pools[i].pool)]
    {
      forall k: nat
        ensures PoolOk(k)
        ensures k < |pools| && k != i ==> pools[k].pool == old(pools[k].pool)
      {
        assert old(PoolOk(k)) && old(Distinct(i, k));
      }
      forall j: nat, k: nat
        ensures Distinct(j, k)
      {
        assert old(Distinct(j, k));
      }
    }

    // Pages of this size were handed out at pa, by the first pool with room.
    twostate predicate HandsOut(pa: nat, order: nat)
      reads this, Repr, pools
    {
      && pa !in old(live) && live == old(live)[pa := order]
      && exists i: nat :: FirstWithRoom(old(Views()), i, order) && Owns(Views(), i, pa)
    }

    // petmem_alloc_pages: the first pool with room.  0 means failure, or that
    // the pages are those at physical address 0, which nobody will then use.
    method AllocPages(pages: nat) returns (pa: nat)
      requires Valid() && pages > 0
      requires forall i | 0 <= i < |pools| :: PageOrder(pages) <= pools[i].poolOrder
      modifies Repr
      ensures Valid() && Repr == old(Repr) && pools == old(pools)
      ensures if Full(old(Views()), PageOrder(pages)) then pa == 0 && live == old(live)
              else HandsOut(pa, PageOrder(pages))
    {
      var order := PageOrder(pages);
      var i := 0;
      while i < |pools|
        invariant i <= |pools| && Valid() && Repr == old(Repr) && pools == old(pools)
        invariant live == old(live) && Views() == old(Views())
        invariant forall k | 0 <= k < i :: NoRoom(old(Views())[k].pool, order)
      {
        var block := AllocFrom(i, order);
        if block.Some? {
          assert FirstWithRoom(old(Views()), i, order);
          return block.value - PAGE_OFFSET;
        }
        i := i + 1;
      }
      return 0;
    }

    method AllocFrom(i: nat, order: nat) returns (r: Option<nat>)
      requires Valid() && i < |pools| && PAGE_SHIFT <= order <= pools[i].poolOrder
      modifies Repr
      ensures Valid() && Repr == old(Repr) && pools == old(pools)
      ensures r == None <==> NoRoom(old(Views())[i].pool, order)
      ensures r == None ==> live == old(live) && Views() == old(Views())
      ensures r.Some? ==> r.value >= PAGE_OFFSET && r.value - PAGE_OFFSET !in old(live)
      ensures r.Some? ==> live == old(live)[r.value - PAGE_OFFSET := order]
      ensures r.Some? ==> Owns(Views(), i, r.value - PAGE_OFFSET)
    {
      ghost var vs := Views();
      assert PoolOk(i) && ViewOk(vs, i);
      AllocInv(pools[i].pool, order);
      r := pools[i].Alloc(order);
      ghost var now := pools[i].pool;
      PoolsUpdate(vs, i, now);
      if r == None {
        OnlyPoolChanged(i);
        assert Views() == vs;
      } else {
        ghost var pa: nat := r.value - PAGE_OFFSET;
        HandOut(vs, live, i, now, pa, order);
        live := live[pa := order];
        OnlyPoolChanged(i);
      }
    }

    // petmem_free_pages: the pool whose address range accepts the block.  The
    // range of an order-31 pool is computed as empty; beyond, the shift is
    // undefined.
    method FreePages(pa: nat, pages: nat)
      requires Valid() && pages > 0
      requires pa in live && live[pa] == PageOrder(pages)
      requires forall i | 0 <= i < |pools| :: PageOrder(pages) <= pools[i].poolOrder <= 31
      modifies Repr
      ensures Valid() && Repr == old(Repr) && pools == old(pools)
      ensures exists home: nat ::
                && Owns(old(Views()), home, pa)
                && live == if pools[home].poolOrder <= 30 then old(live) - {pa} else old(live)
    {
      assert Accounted(Views(), live, pa);
      ghost var home: nat :| Owns(Views(), home, pa);
      var i := 0;
      while i < |pools|
        invariant i <= |pools| && Valid() && Repr == old(Repr) && pools == old(pools)
        invariant live == old(live) && Owns(Views(), home, pa)
        invariant home < i ==> pools[home].poolOrder == 31
      {
        assert PoolOk(i) && ViewOk(Views(), i);
        RoutesHome(Views(), home, i, pa);
        if Accepts(pools[i].base, pools[i].poolOrder, Va(pa)) {
          FreeTo(i, pa, PageOrder(pages));
          assert Owns(old(Views()), home, pa);
          return;
        }
        i := i + 1;
      }
    }

    method FreeTo(i: nat, pa: nat, order: nat)
      requires Valid() && Owns(Views(), i, pa) && pa in live && live[pa] == order && order <= pools[i].poolOrder
      modifies Repr
      ensures Valid() && Repr == old(Repr) && pools == old(pools) && live == old(live) - {pa}
    {
      ghost var vs := Views();
      assert PoolOk(i) && ViewOk(vs, i) && Recorded(vs, live, i, pa);
      ghost var h := Va(pa) - vs[i].base;
      assert Fits(vs[i].pool, h, vs[i].pool.part[h].order);
      pools[i].Free(Va(pa), order);
      ghost var now := pools[i].pool;
      PoolsUpdate(vs, i, now);
      OwnedInRange(vs, i, pa);
      LedgerUpdate(vs, live, i, now, pa, live - {pa});
      live := live - {pa};
      OnlyPoolChanged(i);
    }
  }

  // The tag bit of page h, if it is not the first, is clear.
  predicate Unmarked(tags: seq<bool>, top: nat, h: nat)
  {
    0 < h < Pow2(top) && Aligned(h, PAGE_SHIFT) ==> Shr(h, PAGE_SHIFT) < |tags| && !tags[Shr(h, PAGE_SHIFT)]
  }

  ghost predicate FirstMarkedOnly(tags: seq<bool>, top: nat)
  {
    forall h: nat :: Unmarked(tags, top, h)
  }

  lemma OnlyFirstMarked(before: seq<bool>, after: seq<bool>, top: nat)
    requires PAGE_SHIFT <= top && |before| == Pow2(top - PAGE_SHIFT) && Shr(0, PAGE_SHIFT) < |before|
    requires after == before[Shr(0, PAGE_SHIFT) := true] && forall i | 0 <= i < |before| :: !before[i]
    ensures FirstMarkedOnly(after, top)
  {
    AlignedSelf(PAGE_SHIFT);
    forall h: nat
      ensures Unmarked(after, top, h)
    {
      if 0 < h < Pow2(top) && Aligned(h, PAGE_SHIFT) {
        ShrBound(h, PAGE_SHIFT, top);
        if Shr(h, PAGE_SHIFT) == Shr(0, PAGE_SHIFT) {
          ShrInjective(h, 0, PAGE_SHIFT);
        }
      }
    }
  }

  predicate EndsWith<T(==)>(s: seq<T>, t: seq<T>)
  {
    |t| <= |s| && s[|s| - |t|..] == t
  }

  lemma StillEndsWith<T>(r: seq<T>, s: seq<T>, t: seq<T>)
    requires r != [] && r[1..] == s && EndsWith(s, t)
    ensures EndsWith(r, t)
  {
    assert r[|r| - |t|..] == s[|s| - |t|..];
  }

  // A block fresh in pool i is fresh in the whole list.
  lemma HandOut(vs: seq<View>, live: map<nat, nat>, i: nat, now: Pool, pa: nat, order: nat)
    requires Pools(vs) && Ledger(vs, live) && i < |vs| && Inv(now) && now.top == vs[i].pool.top
    requires Va(pa) >= vs[i].base && Va(pa) - vs[i].base !in Live(vs[i].pool)
    requires Live(now) == Live(vs[i].pool)[Va(pa) - vs[i].base := order]
    ensures pa !in live && Ledger(vs[i := View(vs[i].base, now)], live[pa := order])
  {
    var h := Va(pa) - vs[i].base;
    assert h in Live(now);
    assert Fits(now, h, now.part[h].order);
    if pa in live {
      assert Accounted(vs, live, pa);
      var k: nat :| Owns(vs, k, pa);
      OneOwnerOnly(vs, k, i, pa);
    }
    LedgerUpdate(vs, live, i, now, pa, live[pa := order]);
  }

  // A page is large enough for a block structure.
  lemma PageFixup()
    ensures MinOrderFixup(PAGE_SHIFT) == PAGE_SHIFT
  {
    MinOrderFixupExact(PAGE_SHIFT);
    Pow2Monotone(5, PAGE_SHIFT);
  }
}
