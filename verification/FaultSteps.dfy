// The steps of a fault as values: what the methods of Paging.dfy need to know about
// each of them.

module FaultSteps {
  import opened Options
  import opened PgTables
  import opened Swap
  import opened AddressSpace
  import opened PagingSteps
  import opened PagingTrace
  import opened Regions
  import opened Clock
  import opened FaultSpec
  import opened FaultCourse

  // ---------------------------------------------- the steps and the course

  lemma FrameSpent(managed: set<nat>, live: set<nat>, f: nat)
    requires f in managed && f !in live
    ensures |managed - (live + {f})| == |managed - live| - 1
  {
    assert managed - live == (managed - (live + {f})) + {f};
  }

  lemma NoneFree(managed: set<nat>, live: set<nat>)
    requires live <= managed
    ensures |managed - live| == 0 <==> live == managed
  {
    assert |managed - live| == 0 ==> managed - live == {};
  }

  // The clock's sweep.
  lemma SweptFace(vm: Vm, vm': Vm, managed: set<nat>, rs: seq<Region>, hand: nat, hand': nat)
    requires hand <= |rs| && Cleared(vm, vm', PassedOver(Seen(vm), SweepOrder(rs, hand)))
    requires hand' == Swept(FaceOf(vm, managed, hand), rs).hand
    ensures FaceOf(vm', managed, hand') == Swept(FaceOf(vm, managed, hand), rs)
  {
    ClearedSight(vm, vm', PassedOver(Seen(vm), SweepOrder(rs, hand)));
  }

  lemma SameAccessed(vm: Vm, vm': Vm)
    requires forall vp: nat :: AccessedAt(vm', vp) == AccessedAt(vm, vp)
    ensures Seen(vm').accessed == Seen(vm).accessed
  {
  }

  predicate SameUse(e: Pte, e': Pte)
  {
    e'.accessed == e.accessed && SameAttributes(e, e')
  }

  lemma EvictFace(vm: Vm, vm': Vm, vp: nat, e: Pte, managed: set<nat>, hand: nat)
    requires TreeOk(vm) && Sized(vm.store) && HasFree(vm.store.used) && vm.live <= managed
    requires Evictable(vm, vp, e, LeastFree(vm.store.used)) && SameUse(EntryOf(vm, Page(vp)), e)
    requires vm.tab[Page(vp)] in vm.mem && vm.tab[Page(vp)] in vm.live
    requires vm' == Evict(vm, vp, e, Out(vm.store, vm.mem[vm.tab[Page(vp)]]))
    ensures FaceOf(vm', managed, hand) == PutAway(FaceOf(vm, managed, hand), vp)
  {
    forall vq: nat
      ensures AccessedAt(vm', vq) == AccessedAt(vm, vq)
    {
      EvictEntry(vm, vp, e, LeastFree(vm.store.used), vm'.store, Page(vq));
    }
    SameAccessed(vm, vm');
    FrameSpent(managed, vm'.live, vm.tab[Page(vp)]);
    assert vm'.live + {vm.tab[Page(vp)]} == vm.live;
  }

  lemma AttachFace(vm: Vm, vm': Vm, c: Node, f: nat, bytes: Frame, e: Pte, managed: set<nat>, hand: nat)
    requires TreeOk(vm) && Attachable(vm, c, f, bytes, e) && f in managed
    requires SameUse(EntryOf(vm, c), e) && vm' == Attach(vm, c, f, bytes, e)
    ensures FaceOf(vm, managed, hand).free > 0
    ensures FaceOf(vm', managed, hand) == PutAt(FaceOf(vm, managed, hand), c)
  {
    forall vq: nat
      ensures AccessedAt(vm', vq) == AccessedAt(vm, vq)
    {
      AttachEntry(vm, c, f, bytes, e, Page(vq));
    }
    SameAccessed(vm, vm');
    FrameSpent(managed, vm.live, f);
  }

  lemma OpenFace(vm: Vm, c: Node, e: Pte, managed: set<nat>, hand: nat)
    requires TreeOk(vm) && HasTable(vm, c) && SameUse(EntryOf(vm, c), e)
    ensures FaceOf(WriteEntry(vm, c, e), managed, hand) == FaceOf(vm, managed, hand)
  {
    var vm' := WriteEntry(vm, c, e);
    forall vq: nat
      ensures AccessedAt(vm', vq) == AccessedAt(vm, vq)
    {
      if HasTable(vm, Page(vq)) {
        WriteEntryOthers(vm, c, e, Page(vq));
      }
    }
    SameAccessed(vm, vm');
  }

  lemma OnPathOnly(vm: Vm, vm': Vm, c: Node, vp: nat)
    requires vm'.tab.Keys <= vm.tab.Keys + {c} && OnPath(c, vp)
    ensures OnlyPath(vm, vm', vp)
  {
  }

  // A resident page has all its tables.
  lemma NotBelow(vm: Vm, page: Node)
    requires TreeOk(vm) && page.level == 0
    ensures page in vm.tab ==>
              Parent(page) in vm.tab && Parent(Parent(page)) in vm.tab && Parent(Parent(Parent(page))) in vm.tab
  {
    assert NodeOk(vm, page) && NodeOk(vm, Parent(page)) && NodeOk(vm, Parent(Parent(page)));
  }

  lemma RightsStay(vm: Vm, c: Node, e: Pte)
    requires TreeOk(vm) && AllRightsOk(vm, None) && HasTable(vm, c)
    requires Open(EntryOf(vm, c)) <==> Open(e)
    ensures AllRightsOk(WriteEntry(vm, c, e), None)
  {
    forall n: Node
      ensures RightsOk(WriteEntry(vm, c, e), n)
    {
      assert RightsOk(vm, n);
      if HasTable(vm, n) {
        WriteEntryOthers(vm, c, e, n);
      }
    }
  }

  lemma ClearedRights(vm: Vm, vp: nat)
    requires TreeOk(vm) && HasTable(vm, Page(vp)) && AllRightsOk(vm, None)
    ensures AllRightsOk(ClearAccessed(vm, vp), None)
  {
    RightsStay(vm, Page(vp), EntryOf(vm, Page(vp)).(accessed := false));
  }

  lemma PageFrame(vm: Vm, vp: nat)
    requires TreeOk(vm) && Page(vp) in vm.tab && InRegion(vp) && HasTable(vm, Page(vp))
    ensures EntryOf(vm, Page(vp)).base == vm.tab[Page(vp)]
    ensures vm.tab[Page(vp)] in vm.live && vm.tab[Page(vp)] in vm.mem
    ensures vm.tab[Page(vp)] != vm.tab[Parent(Page(vp))]
  {
    assert NodeOk(vm, Page(vp)) && EntryOk(vm, Page(vp)) && Unshared(vm, Page(vp), Parent(Page(vp)));
  }

  lemma EvictOk(vm: Vm, vp: nat, e: Pte, flight: Option<nat>)
    requires VmOk(vm, flight) && AllRightsOk(vm, None) && HasFree(vm.store.used) && flight != Some(vp)
    requires Evictable(vm, vp, e, LeastFree(vm.store.used)) && vm.tab[Page(vp)] in vm.mem
    requires SameAttributes(EntryOf(vm, Page(vp)), e) && SameRights(EntryOf(vm, Page(vp)), e)
    ensures var vm' := Evict(vm, vp, e, Out(vm.store, vm.mem[vm.tab[Page(vp)]]));
            && VmOk(vm', flight) && AllRightsOk(vm', None) && Advances(vm, vm', flight)
            && Evicted(vm, vm', vp)
  {
    EvictKeeps(vm, vp, e, flight);
    EvictLeads(vm, vp, e, flight);
    assert RightsOk(vm, Page(vp));
    EvictEntry(vm, vp, e, LeastFree(vm.store.used), Out(vm.store, vm.mem[vm.tab[Page(vp)]]), Page(vp));
    EvictState(vm, vp, e, LeastFree(vm.store.used), Out(vm.store, vm.mem[vm.tab[Page(vp)]]), vp);
    PageFrame(vm, vp);
    EvictKept(vm, vp, e, LeastFree(vm.store.used), Out(vm.store, vm.mem[vm.tab[Page(vp)]]), flight);
  }

  lemma EvictLost(vm: Vm, vp: nat, e: Pte)
    requires TreeOk(vm) && AllRightsOk(vm, None) && Sized(vm.store) && !HasFree(vm.store.used)
    requires Evictable(vm, vp, e, 0) && vm.tab[Page(vp)] in vm.mem && SameRights(EntryOf(vm, Page(vp)), e)
    ensures var vm' := Evict(vm, vp, e, Out(vm.store, vm.mem[vm.tab[Page(vp)]]));
            Evicted(vm, vm', vp) && Lost(vm, vm', vp)
  {
    EvictWhenFull(vm, vp, e);
    EvictState(vm, vp, e, 0, vm.store, vp);
    EvictEntry(vm, vp, e, 0, vm.store, Page(vp));
    PageFrame(vm, vp);
    assert RightsOk(vm, Page(vp));
  }

  lemma LostAfter(vm: Vm, vm1: Vm, vm2: Vm, vp: nat)
    requires Kept(vm, vm1, None) && vm1.store == vm.store && InRegion(vp) && Lost(vm1, vm2, vp)
    ensures Lost(vm, vm2, vp)
  {
    assert SamePage(vm, vm1, vp);
    forall vq: nat | InRegion(vq) && vq != vp
      ensures SamePage(vm, vm2, vq)
    {
      assert SamePage(vm, vm1, vq) && SamePage(vm1, vm2, vq);
    }
  }

  // The page a position stands for, if it is one.
  function Subject(c: Node): Option<nat>
  {
    if c.level == 0 then Some(c.prefix) else None
  }

  // The slot a page is in is one of the file's.
  lemma SlotInFile(vm: Vm, vp: nat)
    requires VmOk(vm, None) && InRegion(vp) && StateOf(vm, vp).SwappedOut?
    ensures StateOf(vm, vp).slot < |vm.store.used|
  {
    assert SlotOk(vm, None, vp);
  }

  // Where a fault is on its way to was not there, and has not moved.
  lemma SameWay(vm: Vm, vm': Vm, vp: nat)
    requires InRegion(vp) && Kept(vm, vm', None) && TreeOk(vm) && TreeOk(vm')
    requires Parent(Page(vp)) in vm.tab ==> vm' == vm
    ensures Page(vp) in vm.tab ==> vm' == vm
    ensures StateOf(vm', vp) == StateOf(vm, vp)
  {
    assert NodeOk(vm, Page(vp)) && Moves(vm, vm', vp);
  }

  // Making room leaves the place for c where it was.
  lemma StillMissing(vm: Vm, vm': Vm, c: Node, except: Option<nat>)
    requires TreeOk(vm) && TreeOk(vm') && Kept(vm, vm', except) && vm'.tab.Keys <= vm.tab.Keys
    requires Relevant(c) && c.level < 4 && Parent(c) in vm.tab && c !in vm.tab
    ensures c !in vm'.tab && HasTable(vm', c) && vm'.tab[Parent(c)] == vm.tab[Parent(c)]
  {
    assert TableKept(vm, vm', Parent(c));
    Descend(vm', c);
  }

  // c has been put in.
  ghost predicate Placed(vm: Vm, vm': Vm, c: Node, bytes: Frame)
  {
    && Kept(vm, vm', Subject(c)) && c in vm'.tab && HasTable(vm', c)
    && (c.level == 0 ==> Content(vm', c.prefix) == Some(bytes))
  }

  // The frame's bytes, then the entry, make the address space with c in it.
  lemma AttachOk(vm: Vm, vm': Vm, c: Node, f: nat, bytes: Frame, e: Pte, flight: Option<nat>)
    requires VmOk(vm, flight) && AllRightsOk(vm, None) && Attachable(vm, c, f, bytes, e) && MayAttach(vm, c, flight)
    requires flight == None || flight == Subject(c)
    requires SameAttributes(EntryOf(vm, c), e) && (c == TOP ==> SameRights(EntryOf(vm, c), e))
    requires vm' == Attach(vm, c, f, bytes, e) && (flight == None ==> bytes == ZeroFrame())
    ensures VmOk(vm', None) && AllRightsOk(vm', Some(c)) && EntryOf(vm', c) == e
    ensures Placed(vm, vm', c, bytes) && Lands(vm, vm', flight, bytes)
  {
    AttachLands(vm, c, f, bytes, e, flight);
    AttachKeeps(vm, c, f, bytes, e, flight);
    AttachKept(vm, c, f, bytes, e, Subject(c));
    AttachEntry(vm, c, f, bytes, e, c);
  }

  lemma PlacedLater(vm0: Vm, vm: Vm, vm': Vm, c: Node, bytes: Frame, flight: Option<nat>)
    requires Advances(vm0, vm, flight) && (flight == None || flight == Subject(c))
    requires Placed(vm, vm', c, bytes) && Lands(vm, vm', flight, bytes)
    ensures Placed(vm0, vm', c, bytes) && Lands(vm0, vm', flight, bytes)
  {
    LandsLater(vm0, vm, vm', flight, bytes);
    if flight == None {
      KeptWeaken(vm0, vm, Subject(c));
    }
    KeptTrans(vm0, vm, vm', Subject(c));
  }

  lemma SameButStore(vm: Vm, vm': Vm, vp: nat)
    requires TreeOk(vm) && vm' == vm.(store := vm'.store) && KeepsOthers(vm, vm', Some(vp)) && KeepsSlots(vm, vm')
    requires AllRightsOk(vm, None)
    ensures Kept(vm, vm', Some(vp)) && AllRightsOk(vm', None)
  {
    TopTable(vm);
    forall n: Node
      ensures RightsOk(vm', n)
    {
      assert RightsOk(vm, n);
    }
    forall vq: nat
      ensures Moves(vm, vm', vq)
    {
    }
  }

  lemma OpenAtLast(vm: Vm, c: Node)
    requires AllRightsOk(vm, Some(c)) && HasTable(vm, c) && Open(EntryOf(vm, c))
    ensures AllRightsOk(vm, None)
  {
    forall n: Node
      ensures RightsOk(vm, n)
    {
      assert n != c ==> RightsOk(vm, n);
    }
  }

  // A table that is missing has none below it.
  lemma TablesAbove(vm: Vm, page: Node)
    requires TreeOk(vm) && page.level == 0
    ensures Parent(page) in vm.tab ==> Parent(Parent(page)) in vm.tab
    ensures Parent(Parent(page)) in vm.tab ==> Parent(Parent(Parent(page))) in vm.tab
  {
    assert NodeOk(vm, Parent(page)) && NodeOk(vm, Parent(Parent(page)));
  }

  lemma PageAbove(vm: Vm, vp: nat)
    requires TreeOk(vm)
    ensures Page(vp) in vm.tab ==> Parent(Page(vp)) in vm.tab
  {
    assert NodeOk(vm, Page(vp));
  }

  // A resident page needs nothing.
  lemma NothingNeeded(vm: Vm, vp: nat)
    requires TreeOk(vm) && InRegion(vp) && Page(vp) in vm.tab
    ensures FramesNeeded(vm.tab.Keys, vp) == 0
  {
    RegionTree(vp);
    PageAbove(vm, vp);
    TablesAbove(vm, Page(vp));
  }

  // The pages the handler and the region list are about are the same.
  lemma RegionPages(vp: nat)
    ensures InRegion(vp) <==> REGION_START <= 4096 * vp && 4096 * (vp + 1) <= REGION_END
  {
  }

  lemma UsedInRegion(rs: seq<Region>, address: nat)
    requires ListOk(rs) && Mapped(rs, address)
    ensures InRegion(address / 4096)
  {
    var r :| r in Live(rs) && r.addr <= address < End(r);
    var k :| 0 <= k < |rs| && rs[k] == r;
    InBounds(rs, REGION_START, REGION_END, k);
  }

  // Bringing in the tables first does not change what the fault does.
  lemma HandledOnTheWay(vm: Vm, vm1: Vm, vm2: Vm, vp: nat)
    requires InRegion(vp) && Advances(vm, vm1, None) && Handled(vm1, vm2, vp) && OnlyPath(vm, vm1, vp)
    ensures Handled(vm, vm2, vp)
  {
    LeadsTrans(vm, vm1, vm2, None);
    assert Moves(vm, vm1, vp) && SamePage(vm, vm1, vp);
    KeptWeaken(vm, vm1, Some(vp));
    KeptTrans(vm, vm1, vm2, Some(vp));
    OnlyPathTrans(vm, vm1, vm2, vp);
  }

  lemma HandledIsUsable(vm: Vm, vm': Vm, vp: nat)
    requires InRegion(vp) && Handled(vm, vm', vp) && AllRightsOk(vm', None)
    ensures Usable(vm, vm', vp)
  {
    forall store
      ensures Permitted(vm', vp, store) <==> Allows(EntryOf(vm, TOP), store)
    {
      ResidentIsPermitted(vm', vp, store);
    }
  }

  // No page but vp is moved.
  ghost predicate NoneMoved(vm: Vm, vm': Vm, vp: nat)
  {
    forall vq: nat | vq != vp :: SameState(vm, vm', vq)
  }

  // When no position of the tree is lost, nothing was evicted.
  lemma NothingEvicted(vm: Vm, vm': Vm, vp: nat)
    requires Kept(vm, vm', Some(vp)) && vm.tab.Keys <= vm'.tab.Keys
    ensures NoneMoved(vm, vm', vp)
  {
    forall vq: nat | vq != vp
      ensures SameState(vm, vm', vq)
    {
      assert InRegion(vq) ==> Moves(vm, vm', vq);
    }
  }

  // Allocating keeps a list node where it is, or moves it one up.
  lemma NodesStay(rs: seq<Region>, size: nat, hand: nat)
    requires hand <= |rs|
    ensures var qs := Allocate(rs, size).0;
            && |rs| <= |qs|
            && (hand > 0 && qs[hand - 1].addr != rs[hand - 1].addr ==>
                  hand < |qs| && qs[hand].addr == rs[hand - 1].addr)
  {
  }

  lemma ReadKeeps(vm: Vm, vm': Vm, vp: nat, e: Pte)
    requires VmOk(vm, None) && AllRightsOk(vm, None) && InRegion(vp) && Page(vp) in vm.tab && HasTable(vm, Page(vp))
    requires e == EntryOf(vm, Page(vp)).(accessed := true) && vm' == WriteEntry(vm, Page(vp), e)
    ensures e.base in vm.mem && AllRightsOk(vm', None) && WasRead(vm, vm', vp, vm.mem[e.base])
  {
    assert NodeOk(vm, Page(vp)) && EntryOk(vm, Page(vp));
    FlagsKeep(vm, Page(vp), e, None);
    FlagsLead(vm, Page(vp), e, None);
    RightsStay(vm, Page(vp), e);
    TopTable(vm);
    WriteEntryOthers(vm, Page(vp), e, TOP);
    forall vq: nat
      ensures SameState(vm, WriteEntry(vm, Page(vp), e), vq)
    {
      if InRegion(vq) {
        FlagsState(vm, Page(vp), e, vq);
      }
    }
    EntryAttributes(vm, Page(vp), e);
    EntryNoted(vm, vp, e);
  }

  lemma EntryAttributes(vm: Vm, c: Node, e: Pte)
    requires TreeOk(vm) && HasTable(vm, c) && SameAttributes(EntryOf(vm, c), e)
    ensures forall d: Node :: AttributesKept(vm, WriteEntry(vm, c, e), d)
  {
    forall d: Node
      ensures AttributesKept(vm, WriteEntry(vm, c, e), d)
    {
      if HasTable(vm, d) {
        WriteEntryOthers(vm, c, e, d);
      }
    }
  }

  // The accessed bit of a page is set.
  lemma EntryNoted(vm: Vm, vp: nat, e: Pte)
    requires TreeOk(vm) && InRegion(vp) && HasTable(vm, Page(vp)) && e.accessed
    ensures Noted(vm, WriteEntry(vm, Page(vp), e), vp) && EntryAt(WriteEntry(vm, Page(vp), e), Page(vp)) == e
  {
    var w := WriteEntry(vm, Page(vp), e);
    forall vq: nat
      ensures AccessedAt(w, vq) <==> AccessedAt(vm, vq) || vq == vp
    {
      if HasTable(vm, Page(vq)) {
        WriteEntryOthers(vm, Page(vp), e, Page(vq));
      }
    }
  }

  // Writing a page's bytes touches no table.
  lemma BytesUnseen(vm: Vm, vp: nat, bytes: Frame)
    requires TreeOk(vm) && Page(vp) in vm.tab
    ensures Seen(WritePage(vm, vp, bytes)) == Seen(vm)
    ensures forall c: Node :: EntryAt(WritePage(vm, vp, bytes), c) == EntryAt(vm, c)
  {
    var w := WritePage(vm, vp, bytes);
    assert NodeOk(vm, Page(vp));
    forall c: Node
      ensures EntryAt(w, c) == EntryAt(vm, c)
    {
      assert Unshared(vm, Page(vp), Parent(c));
    }
    forall vq: nat
      ensures AccessedAt(w, vq) == AccessedAt(vm, vq)
    {
      assert Unshared(vm, Page(vp), Parent(Page(vq)));
    }
    SameAccessed(vm, w);
  }

  lemma StoreLeads(vm: Vm, vp: nat, e: Pte, bytes: Frame)
    requires InRegion(vp) && Page(vp) in vm.tab && HasTable(vm, Page(vp)) && SameMeaning(EntryOf(vm, Page(vp)), e)
    ensures Leads(vm, WritePage(WriteEntry(vm, Page(vp), e), vp, bytes), None)
  {
    var w := WriteEntry(vm, Page(vp), e);
    FlagsLead(vm, Page(vp), e, None);
    WriteLeads(w, vp, bytes);
    LeadsTrans(vm, w, WritePage(w, vp, bytes), None);
  }

  lemma WriteKeeps(vm: Vm, vm': Vm, vp: nat, e: Pte, bytes: Frame)
    requires VmOk(vm, None) && AllRightsOk(vm, None) && InRegion(vp) && Page(vp) in vm.tab && HasTable(vm, Page(vp))
    requires e == EntryOf(vm, Page(vp)).(accessed := true, dirty := true)
    requires vm' == WritePage(WriteEntry(vm, Page(vp), e), vp, bytes)
    ensures AllRightsOk(vm', None) && WasWritten(vm, vm', vp, bytes)
  {
    assert NodeOk(vm, Page(vp)) && EntryOk(vm, Page(vp));
    FlagsKeep(vm, Page(vp), e, None);
    RightsStay(vm, Page(vp), e);
    TopTable(vm);
    WriteEntryOthers(vm, Page(vp), e, TOP);
    StoreLeads(vm, vp, e, bytes);
    var w := WriteEntry(vm, Page(vp), e);
    WritePageKeeps(w, vp, bytes);
    assert Unshared(w, Page(vp), Parent(TOP));
    forall vq: nat
      ensures SameState(vm, WritePage(w, vp, bytes), vq)
    {
      assert Unshared(w, Page(vp), Parent(Page(vq)));
      if InRegion(vq) {
        FlagsState(vm, Page(vp), e, vq);
      }
    }
    forall vq: nat | InRegion(vq) && vq != vp
      ensures SamePage(vm, WritePage(w, vp, bytes), vq)
    {
      assert SamePage(vm, w, vq) && SamePage(w, WritePage(w, vp, bytes), vq);
    }
    EntryAttributes(vm, Page(vp), e);
    EntryNoted(vm, vp, e);
    BytesUnseen(w, vp, bytes);
    forall n: Node
      ensures RightsOk(WritePage(w, vp, bytes), n) && AttributesKept(vm, WritePage(w, vp, bytes), n)
    {
      assert RightsOk(w, n) && Unshared(w, Page(vp), Parent(n)) && AttributesKept(vm, w, n);
    }
  }

  // All frames are in use, and the clock finds no victim or the swap map has no
  // slot for one.
  ghost predicate Stuck(vm: Vm, managed: set<nat>, rs: seq<Region>, hand: nat)
  {
    && vm.live == managed && hand <= |rs|
    && ((forall p | p in SweepOrder(rs, hand) :: !IsResident(Seen(vm), p)) || !HasFree(vm.store.used))
  }

  ghost predicate StuckOnTheWay(vm: Vm, vm1: Vm, managed: set<nat>, rs: seq<Region>, hand: nat, vp: nat)
  {
    TreeOk(vm1) && Kept(vm, vm1, None) && OnlyPath(vm, vm1, vp) && Stuck(vm1, managed, rs, hand)
  }

  // Some state on the way to page vp is stuck.
  ghost predicate MayStick(vm: Vm, managed: set<nat>, rs: seq<Region>, vp: nat)
  {
    exists vm1: Vm, hand: nat :: StuckOnTheWay(vm, vm1, managed, rs, hand, vp)
  }
}
