// When a fault can be sure to find a frame: the frames handed out and the slots in
// use are counted by the tree, so a clock victim and a free slot are there as
// long as the process does not touch more pages than the machine has room for.

module Room {
  import opened Options
  import opened Swap
  import opened AddressSpace
  import opened PagingSteps
  import opened Regions
  import opened Clock
  import opened FaultSpec
  import opened FaultSteps

  // ------------------------------------------------------------------ counting

  lemma SubsetSize<T>(a: set<T>, b: set<T>)
    requires a <= b
    ensures |a| <= |b|
  {
    assert b == a + (b - a);
  }

  // The tables and pages of the tree that sit in frames handed out.
  function OwnedNodes(vm: Vm): set<Node>
  {
    set n | n in vm.tab && vm.tab[n] in vm.live
  }

  lemma {:induction false} SameSize(nodes: set<Node>, frames: set<nat>, tab: map<Node, nat>)
    requires nodes <= tab.Keys && frames == set n | n in nodes :: tab[n]
    requires forall n, k | n in nodes && k in nodes && n != k :: tab[n] != tab[k]
    ensures |nodes| == |frames|
    decreases |nodes|
  {
    if nodes == {} {
      assert frames == {};
    } else {
      var n :| n in nodes;
      SameSize(nodes - {n}, frames - {tab[n]}, tab);
    }
  }

  // No frame leaks: those handed out are counted by the tree.
  lemma NoFrameLeaks(vm: Vm)
    requires TreeOk(vm)
    ensures vm.live == set n | n in OwnedNodes(vm) :: vm.tab[n]
    ensures |vm.live| == |OwnedNodes(vm)|
  {
    forall f | f in vm.live
      ensures exists n :: n in OwnedNodes(vm) && vm.tab[n] == f
    {
      assert Used(vm, f);
    }
    forall n, k | n in OwnedNodes(vm) && k in OwnedNodes(vm) && n != k
      ensures vm.tab[n] != vm.tab[k]
    {
      assert Unshared(vm, n, k);
    }
    SameSize(OwnedNodes(vm), vm.live, vm.tab);
  }

  function OwnedTables(vm: Vm): set<Node>
  {
    set n | n in vm.tab && vm.tab[n] in vm.live && n.level > 0
  }

  function PageNodes(vm: Vm): set<Node>
  {
    set n | n in vm.tab && n.level == 0
  }

  // Frames are tables or pages.
  lemma FramesAreTablesAndPages(vm: Vm)
    requires TreeOk(vm)
    ensures |vm.live| == |OwnedTables(vm)| + |PageNodes(vm)|
  {
    NoFrameLeaks(vm);
    forall n | n in PageNodes(vm)
      ensures n in OwnedNodes(vm)
    {
      assert NodeOk(vm, n);
    }
    assert OwnedNodes(vm) == OwnedTables(vm) + PageNodes(vm);
  }

  // The pages that have bytes.
  function Touched(vm: Vm): set<nat>
  {
    set vp: nat | FIRST_PAGE <= vp < END_PAGE && !StateOf(vm, vp).Untouched?
  }

  function SwappedPages(vm: Vm): set<nat>
  {
    set vp: nat | FIRST_PAGE <= vp < END_PAGE && StateOf(vm, vp).SwappedOut?
  }

  ghost function Orphans(vm: Vm): set<nat>
  {
    set s: nat | s < |vm.store.used| && Orphan(vm, s)
  }

  function SlotsOf(vm: Vm, pages: set<nat>): set<nat>
    requires forall vp | vp in pages :: StateOf(vm, vp).SwappedOut?
  {
    set vp | vp in pages :: StateOf(vm, vp).slot
  }

  lemma {:induction false} SlotsAtMost(vm: Vm, pages: set<nat>)
    requires forall vp | vp in pages :: StateOf(vm, vp).SwappedOut?
    ensures |SlotsOf(vm, pages)| <= |pages|
    decreases |pages|
  {
    if pages == {} {
      assert SlotsOf(vm, pages) == {};
    } else {
      var vp :| vp in pages;
      SlotsAtMost(vm, pages - {vp});
      assert SlotsOf(vm, pages) == SlotsOf(vm, pages - {vp}) + {StateOf(vm, vp).slot};
    }
  }

  function UpTo(n: nat): (r: set<nat>)
    ensures forall s: nat :: s in r <==> s < n
    ensures |r| == n
  {
    if n == 0 then {} else UpTo(n - 1) + {n - 1}
  }

  // Used slots are orphans or hold swapped-out pages, so with fewer of both than
  // slots there is a free one.
  lemma FreeSlot(vm: Vm)
    requires |Orphans(vm)| + |SwappedPages(vm)| < |vm.store.used|
    ensures HasFree(vm.store.used)
  {
    if !HasFree(vm.store.used) {
      var slots := SlotsOf(vm, SwappedPages(vm));
      SlotsAtMost(vm, SwappedPages(vm));
      forall s: nat | s in UpTo(|vm.store.used|)
        ensures s in Orphans(vm) + slots
      {
        if Claimed(vm, None, s) {
          var vp: nat :| Holds(vm, None, vp) && StateOf(vm, vp) == SwappedOut(s);
          assert vp in SwappedPages(vm);
        }
      }
      SubsetSize(UpTo(|vm.store.used|), Orphans(vm) + slots);
    }
  }

  // --------------------------------------------------------------------- ample

  predicate StartsRegion(rs: seq<Region>, vp: nat)
  {
    exists i | 0 <= i < |rs| :: rs[i].addr == 4096 * vp
  }

  // A region just given starts where the clock will look.
  lemma GivenStarts(rs: seq<Region>, size: nat, addr: nat)
    requires ListOk(rs) && Allocate(rs, size).1 == addr
    ensures StartsRegion(Allocate(rs, size).0, addr / 4096)
  {
    var i := FirstFit(rs, size);
    RegionAligned(rs, i);
    assert Allocate(rs, size).0[i].addr == 4096 * (addr / 4096);
  }

  function PageTables(pages: set<nat>): set<Node>
  {
    set vp | vp in pages :: Parent(Page(vp))
  }

  function PageDirectories(pages: set<nat>): set<Node>
  {
    set vp | vp in pages :: Parent(Parent(Page(vp)))
  }

  // The tables on the way to these pages.
  function TablesFor(pages: set<nat>): set<Node>
  {
    {TOP} + PageTables(pages) + PageDirectories(pages)
  }

  lemma {:induction false} PageTablesAtMost(pages: set<nat>)
    ensures |PageTables(pages)| <= |pages|
    decreases |pages|
  {
    if pages == {} {
      assert PageTables(pages) == {};
    } else {
      var vp :| vp in pages;
      PageTablesAtMost(pages - {vp});
      assert PageTables(pages) == PageTables(pages - {vp}) + {Parent(Page(vp))};
    }
  }

  lemma {:induction false} PageDirectoriesAtMost(pages: set<nat>)
    ensures |PageDirectories(pages)| <= |pages|
    decreases |pages|
  {
    if pages == {} {
      assert PageDirectories(pages) == {};
    } else {
      var vp :| vp in pages;
      PageDirectoriesAtMost(pages - {vp});
      assert PageDirectories(pages) == PageDirectories(pages - {vp}) + {Parent(Parent(Page(vp)))};
    }
  }

  // ... are at most one and two for each page.
  lemma TablesAtMost(pages: set<nat>)
    ensures |TablesFor(pages)| <= 1 + 2 * |pages|
  {
    PageTablesAtMost(pages);
    PageDirectoriesAtMost(pages);
  }

  // Frames for the tables and two pages more, a slot for every page, and each
  // page touched so far the first of a region, where the clock looks.
  ghost predicate Ample(vm: Vm, managed: nat, rs: seq<Region>, pages: set<nat>)
  {
    && Touched(vm) <= pages
    && |OwnedTables(vm) + TablesFor(pages)| + 2 <= managed
    && |Orphans(vm)| + |pages| <= |vm.store.used|
    && forall vp | vp in Touched(vm) :: StartsRegion(rs, vp)
  }

  // Every step on the way to a page keeps it.
  lemma AmpleKept(vm: Vm, vm': Vm, managed: nat, rs: seq<Region>, pages: set<nat>, vp: nat, except: Option<nat>)
    requires TreeOk(vm) && TreeOk(vm') && Kept(vm, vm', except) && (except == None || except == Some(vp))
    requires Ample(vm, managed, rs, pages) && vp in pages && StartsRegion(rs, vp) && OnlyPath(vm, vm', vp)
    ensures Ample(vm', managed, rs, pages)
  {
    forall vq | vq in Touched(vm') && vq != vp
      ensures vq in Touched(vm)
    {
      assert Moves(vm, vm', vq);
    }
    forall n | n in OwnedTables(vm')
      ensures n in OwnedTables(vm) + TablesFor(pages)
    {
      if n in vm.tab {
        assert TableKept(vm, vm', n) && NodeOk(vm, n) && Used(vm', vm'.tab[n]);
      } else {
        assert NewOnPath(vm, vm', vp, n);
      }
    }
    SubsetSize(OwnedTables(vm') + TablesFor(pages), OwnedTables(vm) + TablesFor(pages));
    forall s | s in Orphans(vm')
      ensures s in Orphans(vm)
    {
      assert OrphanKept(vm, vm', s);
    }
    SubsetSize(Orphans(vm'), Orphans(vm));
  }

  lemma TwoOf(nodes: set<Node>) returns (a: Node, b: Node)
    requires |nodes| >= 2
    ensures a in nodes && b in nodes && a != b
  {
    a :| a in nodes;
    assert |nodes - {a}| >= 1;
    b :| b in nodes - {a};
  }

  // With all frames in use at least two pages are resident ...
  lemma TwoResidents(vm: Vm, managed: nat, rs: seq<Region>, pages: set<nat>) returns (va: nat, vb: nat)
    requires TreeOk(vm) && Ample(vm, managed, rs, pages) && |vm.live| == managed
    ensures va != vb && Page(va) in vm.tab && Page(vb) in vm.tab
    ensures va in pages && vb in pages && va !in SwappedPages(vm) && StartsRegion(rs, va) && StartsRegion(rs, vb)
  {
    FramesAreTablesAndPages(vm);
    SubsetSize(OwnedTables(vm), OwnedTables(vm) + TablesFor(pages));
    var a, b := TwoOf(PageNodes(vm));
    assert NodeOk(vm, a) && NodeOk(vm, b);
    va, vb := a.prefix, b.prefix;
    assert a == Page(va) && b == Page(vb);
    assert va in Touched(vm) && vb in Touched(vm);
  }

  lemma SweepFinds(vm: Vm, rs: seq<Region>, hand: nat, i: nat, vp: nat)
    requires hand <= |rs| && i < |rs| && i + 1 != hand && rs[i].addr == 4096 * vp && Page(vp) in vm.tab
    ensures exists p :: p in SweepOrder(rs, hand) && IsResident(Seen(vm), p)
  {
    var k := SweepCovers(rs, hand, i);
    assert SweepOrder(rs, hand)[k] in SweepOrder(rs, hand) && IsResident(Seen(vm), SweepOrder(rs, hand)[k]);
  }

  // ... and the hand is on the region of at most one of them.
  lemma AmpleHasVictim(vm: Vm, managed: nat, rs: seq<Region>, hand: nat, pages: set<nat>)
    requires TreeOk(vm) && Ample(vm, managed, rs, pages) && |vm.live| == managed && hand <= |rs|
    ensures exists p :: p in SweepOrder(rs, hand) && IsResident(Seen(vm), p)
  {
    var va, vb := TwoResidents(vm, managed, rs, pages);
    var i :| 0 <= i < |rs| && rs[i].addr == 4096 * va;
    var j :| 0 <= j < |rs| && rs[j].addr == 4096 * vb;
    if i + 1 != hand {
      SweepFinds(vm, rs, hand, i, va);
    } else {
      SweepFinds(vm, rs, hand, j, vb);
    }
  }

  // ... and the swap map has room for the victim.
  lemma AmpleHasSlot(vm: Vm, managed: nat, rs: seq<Region>, pages: set<nat>)
    requires TreeOk(vm) && Ample(vm, managed, rs, pages) && |vm.live| == managed
    ensures HasFree(vm.store.used)
  {
    var va, vb := TwoResidents(vm, managed, rs, pages);
    assert SwappedPages(vm) <= Touched(vm);
    SubsetSize(SwappedPages(vm) + {va}, pages);
    FreeSlot(vm);
  }

  // So no fault on one of the pages gets stuck.
  lemma AmpleNeverSticks(vm: Vm, managed: set<nat>, rs: seq<Region>, pages: set<nat>, vp: nat)
    requires TreeOk(vm) && Ample(vm, |managed|, rs, pages) && vp in pages && StartsRegion(rs, vp)
    ensures !MayStick(vm, managed, rs, vp)
  {
    forall vm1: Vm, hand: nat
      ensures !StuckOnTheWay(vm, vm1, managed, rs, hand, vp)
    {
      if StuckOnTheWay(vm, vm1, managed, rs, hand, vp) {
        AmpleKept(vm, vm1, |managed|, rs, pages, vp, None);
        AmpleHasVictim(vm1, |managed|, rs, hand, pages);
        AmpleHasSlot(vm1, |managed|, rs, pages);
      }
    }
  }

  // A region more changes nothing.
  lemma AmpleGrows(vm: Vm, managed: nat, rs: seq<Region>, size: nat, pages: set<nat>)
    requires Ample(vm, managed, rs, pages)
    ensures Ample(vm, managed, Allocate(rs, size).0, pages)
  {
    var qs := Allocate(rs, size).0;
    forall vp | vp in Touched(vm)
      ensures StartsRegion(qs, vp)
    {
      var i :| 0 <= i < |rs| && rs[i].addr == 4096 * vp;
      NodesStay(rs, size, i + 1);
      assert qs[i].addr == 4096 * vp || qs[i + 1].addr == 4096 * vp;
    }
  }

  // Nor does an access use anything up.
  lemma AmpleStays(vm: Vm, vm': Vm, managed: nat, rs: seq<Region>, pages: set<nat>)
    requires Stays(vm, vm') && Ample(vm, managed, rs, pages)
    ensures Ample(vm', managed, rs, pages)
  {
    forall vp | vp in Touched(vm')
      ensures vp in Touched(vm)
    {
      assert SameState(vm, vm', vp);
    }
    SameStatesKeepSlots(vm, vm', None);
    forall s | s in Orphans(vm')
      ensures s in Orphans(vm)
    {
      assert OrphanKept(vm, vm', s);
    }
    SubsetSize(Orphans(vm'), Orphans(vm));
    assert OwnedTables(vm') == OwnedTables(vm);
  }
}
