// One-page allocations: the frames the page allocator hands out and takes back.

module Frames {
  import opened Dyadic
  import opened BuddySpec
  import opened PoolList
  import opened Petmem

  // Frame f lies in pool i.
  predicate Manages(rs: seq<Range>, i: nat, f: nat)
  {
    i < |rs| && rs[i].base <= Va(Bytes(f)) && Va(Bytes(f)) + 4096 <= rs[i].base + Pow2(rs[i].order)
  }

  predicate PageAligned(rs: seq<Range>, i: nat)
  {
    i < |rs| ==> rs[i].base % 4096 == 0
  }

  lemma Pow2Of12()
    ensures Pow2(12) == 4096
  {
    Pow2Pages(0);
  }

  lemma AlignedPage(h: nat)
    ensures Aligned(h, PAGE_SHIFT) <==> h % 4096 == 0
  {
    Pow2Of12();
    ShiftIsDivision(h, PAGE_SHIFT);
  }

  // A one-page block handed out by an aligned pool is a frame of that pool.
  lemma HandedOutFrame(vs: seq<View>, i: nat, pa: nat)
    requires Pools(vs) && Owns(vs, i, pa) && vs[i].base % 4096 == 0
    requires Live(vs[i].pool)[Va(pa) - vs[i].base] == PAGE_SHIFT
    ensures pa % 4096 == 0
    ensures vs[i].base <= Va(pa) && Va(pa) + 4096 <= Top(vs[i])
  {
    var h := Va(pa) - vs[i].base;
    OwnedInRange(vs, i, pa);
    assert ViewOk(vs, i) && Fits(vs[i].pool, h, PAGE_SHIFT);
    AlignedPage(h);
    Pow2Of12();
  }

  // Conversely a frame of an aligned pool is a legal one-page block of it.
  lemma FrameFits(vs: seq<View>, i: nat, f: nat)
    requires Pools(vs) && i < |vs| && vs[i].base % 4096 == 0
    requires vs[i].base <= Va(Bytes(f)) && Va(Bytes(f)) + 4096 <= Top(vs[i])
    ensures Fits(vs[i].pool, Va(Bytes(f)) - vs[i].base, PAGE_SHIFT)
  {
    var h := Va(Bytes(f)) - vs[i].base;
    assert ViewOk(vs, i);
    Pow2Of12();
    assert h % 4096 == 0;
    AlignedPage(h);
  }

  predicate OnePage(live: map<nat, nat>, pa: nat)
  {
    pa in live ==> live[pa] == PAGE_SHIFT && pa % 4096 == 0
  }

  predicate Tracks(live: map<nat, nat>, frames: set<nat>, f: nat)
  {
    f in frames <==> Bytes(f) in live
  }

  // The frames managed are those of the pools.
  ghost predicate FrameOf(rs: seq<Range>, managed: set<nat>, f: nat)
  {
    f in managed <==> exists i: nat :: Manages(rs, i, f)
  }

  class FrameSource {
    const pages: PageAllocator
    // The frames handed out, and those of all pools.
    ghost var live: set<nat>
    ghost const managed: set<nat>
    ghost var Repr: set<object>

    ghost predicate Valid()
      reads this, Repr
    {
      && this in Repr && pages in Repr && pages.Repr <= Repr && this !in pages.Repr
      && pages.Valid()
      && (forall i: nat :: PageAligned(pages.Ranges(), i))
      && (forall i | 0 <= i < |pages.pools| :: pages.pools[i].poolOrder <= 30)
      && (forall pa: nat :: OnePage(pages.live, pa))
      && (forall f: nat :: Tracks(pages.live, live, f))
      && (forall f: nat :: FrameOf(pages.Ranges(), managed, f))
      && live <= managed && 0 !in managed
    }

    constructor (pages: PageAllocator, ghost managed: set<nat>)
      requires pages.Valid() && pages.live == map[]
      requires forall i: nat :: PageAligned(pages.Ranges(), i)
      requires forall i | 0 <= i < |pages.pools| :: pages.pools[i].poolOrder <= 30
      requires forall f: nat :: FrameOf(pages.Ranges(), managed, f)
      requires 0 !in managed
      ensures Valid() && this.pages == pages && this.managed == managed && live == {}
      ensures Repr == pages.Repr + {this}
    {
      this.pages, this.managed, live := pages, managed, {};
      Repr := pages.Repr + {this};
      new;
      assert pages.Ranges() == old(pages.Ranges());
    }

    // A block handed out is a frame of some pool.
    lemma LiveIsFrame(pa: nat)
      requires pages.Valid() && pa in pages.live && pages.live[pa] == PAGE_SHIFT
      requires forall i: nat :: PageAligned(pages.Ranges(), i)
      ensures pa % 4096 == 0 && exists i: nat :: Manages(pages.Ranges(), i, pa / 4096)
    {
      var vs := pages.Views();
      assert Accounted(vs, pages.live, pa);
      var i: nat :| Owns(vs, i, pa);
      assert Recorded(vs, pages.live, i, pa);
      pages.RangesOfViews();
      assert PageAligned(pages.Ranges(), i);
      HandedOutFrame(vs, i, pa);
      assert Bytes(pa / 4096) == pa;
      assert Manages(pages.Ranges(), i, pa / 4096);
    }

    // With no room for a page in any pool, every frame is handed out.
    lemma FullIsAllLive(f: nat)
      requires Valid() && f in managed
      requires Full(pages.Views(), PAGE_SHIFT)
      ensures f in live
    {
      var vs := pages.Views();
      assert FrameOf(pages.Ranges(), managed, f);
      var i: nat :| Manages(pages.Ranges(), i, f);
      pages.RangesOfViews();
      assert PageAligned(pages.Ranges(), i);
      FrameFits(vs, i, f);
      assert forall pa: nat | pa in pages.live :: OnePage(pages.live, pa);
      FullMeansAllLive(vs, pages.live, i, Va(Bytes(f)) - vs[i].base);
      assert Owns(vs, i, Bytes(f)) && Recorded(vs, pages.live, i, Bytes(f));
      assert Tracks(pages.live, live, f);
    }

    // A frame still free is a one-page block some pool has room for.
    lemma FreeMeansRoom()
      requires Valid() && live != managed
      ensures !Full(pages.Views(), PAGE_SHIFT)
    {
      var f :| f in managed && f !in live;
      if Full(pages.Views(), PAGE_SHIFT) {
        FullIsAllLive(f);
      }
    }

    // petmem_alloc_pages(1): a physical address, or 0 when every frame is in
    // use.
    method Alloc() returns (pa: nat)
      requires Valid()
      modifies Repr
      ensures Valid() && Repr == old(Repr)
      ensures pa == 0 <==> old(live) == managed
      ensures pa == 0 ==> live == old(live)
      ensures pa != 0 ==> pa == Bytes(pa / 4096) && pa / 4096 in managed && pa / 4096 !in old(live)
      ensures pa != 0 ==> live == old(live) + {pa / 4096}
    {
      EnoughOrder();
      if live != managed {
        FreeMeansRoom();
      }
      ghost var room := !Full(pages.Views(), PAGE_SHIFT);
      pa := pages.AllocPages(1);
      SameFrames();
      if room {
        NewFrame(pa);
        live := live + {pa / 4096};
        HandedOut(pa);
      }
    }

    // Pages just handed out are a frame not in use, and not that of address 0.
    twostate lemma NewFrame(pa: nat)
      requires old(Valid()) && pages.Valid() && pages.pools == old(pages.pools)
      requires pages.live == old(pages.live)[pa := PAGE_SHIFT] && pa !in old(pages.live)
      ensures pa == Bytes(pa / 4096) && pa / 4096 in managed && pa / 4096 !in old(live) && pa != 0
    {
      SameFrames();
      LiveIsFrame(pa);
      assert FrameOf(pages.Ranges(), managed, pa / 4096) && Tracks(old(pages.live), old(live), pa / 4096);
    }

    twostate lemma HandedOut(pa: nat)
      requires old(Valid()) && pa % 4096 == 0
      requires pages.live == old(pages.live)[pa := PAGE_SHIFT] && live == old(live) + {pa / 4096}
      ensures forall x: nat :: OnePage(pages.live, x)
      ensures forall g: nat :: Tracks(pages.live, live, g)
    {
      forall x: nat
        ensures OnePage(pages.live, x)
      {
        assert OnePage(old(pages.live), x);
      }
      forall g: nat
        ensures Tracks(pages.live, live, g)
      {
        assert Tracks(old(pages.live), old(live), g);
      }
    }

    // The pools stay where they are.
    twostate lemma SameFrames()
      requires old(Valid()) && pages.pools == old(pages.pools)
      ensures pages.Ranges() == old(pages.Ranges())
      ensures forall i: nat :: PageAligned(pages.Ranges(), i)
      ensures forall f: nat :: FrameOf(pages.Ranges(), managed, f)
    {
      assert pages.Ranges() == old(pages.Ranges());
      forall f: nat
        ensures FrameOf(pages.Ranges(), managed, f)
      {
        assert FrameOf(old(pages.Ranges()), managed, f);
      }
    }

    lemma EnoughOrder()
      requires Valid()
      ensures forall i | 0 <= i < |pages.pools| :: PAGE_SHIFT <= pages.pools[i].poolOrder
    {
      forall i | 0 <= i < |pages.pools|
        ensures PAGE_SHIFT <= pages.pools[i].poolOrder
      {
        assert pages.PoolOk(i);
      }
    }

    // petmem_free_pages(pa, 1)
    method Free(pa: nat)
      requires Valid() && pa == Bytes(pa / 4096) && pa / 4096 in live
      modifies Repr
      ensures Valid() && Repr == old(Repr)
      ensures live == old(live) - {pa / 4096}
    {
      EnoughOrder();
      assert Tracks(pages.live, live, pa / 4096) && OnePage(pages.live, pa);
      pages.FreePages(pa, 1);
      live := live - {pa / 4096};
      forall x: nat
        ensures OnePage(pages.live, x)
      {
        assert old(OnePage(pages.live, x));
      }
      forall f: nat
        ensures Tracks(pages.live, live, f)
      {
        assert old(Tracks(pages.live, live, f));
      }
      SameFrames();
    }
  }
}
