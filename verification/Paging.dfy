// The page-fault handler: walk the tables, allocate what is missing, evict by
// the clock when memory is short, zero-fill or swap in the page.

module Paging {
  import opened Options
  import opened PgTables
  import opened Swap
  import opened AddressSpace
  import opened PagingSteps
  import opened PagingTrace
  import opened Regions
  import opened Clock
  import opened FaultSpec
  import opened FaultCourse
  import opened FaultSteps
  import opened Frames
  import opened PoolList

  const ERROR_PERMISSION: nat := 2

  // What the processor makes of an address.
  datatype Walk = Missing | Denied | Granted

  class Process {
    const cr3: nat
    const regions: RegionList
    const swap: SwapSpace<Frame>
    const source: FrameSource
    // Physical memory.
    var mem: map<nat, Frame>
    var clockHand: nat
    ghost var tab: map<Node, nat>
    ghost const outside: set<nat>

    // The process takes over an address space in which none of the module's
    // frames is in use yet; the tables there are set up by others.
    constructor (cr3: nat, regions: RegionList, swap: SwapSpace<Frame>, source: FrameSource,
                 mem: map<nat, Frame>, ghost tab: map<Node, nat>, ghost outside: set<nat>)
      requires swap.Valid() && source.Valid() && swap.size <= 0x8_0000
      requires regions !in source.Repr && swap !in source.Repr
      requires swap.allocMap !in source.Repr && swap.swapFile !in source.Repr
      requires source.managed <= mem.Keys
      requires forall f | f in source.managed :: 0 < f < BASE_LIMIT && f !in outside
      requires ROOT in tab && tab[ROOT] == cr3
      requires VmOk(Vm(mem, tab, outside, source.live, swap.Contents()), None)
      requires AllRightsOk(Vm(mem, tab, outside, source.live, swap.Contents()), None)
      requires ListOk(regions.regions)
      ensures Valid() && this.regions == regions && this.swap == swap && this.source == source
      ensures View() == Vm(mem, tab, outside, source.live, swap.Contents()) && clockHand == 0
    {
      this.cr3, this.regions, this.swap, this.source := cr3, regions, swap, source;
      this.mem, this.tab, this.outside, clockHand := mem, tab, outside, 0;
    }

    ghost function View(): Vm
      reads this, source, swap, swap.allocMap, swap.swapFile
    {
      Vm(mem, tab, outside, source.live, swap.Contents())
    }

    // The parts fit together: nothing is shared between them, and every frame
    // the allocator manages exists and is nobody else's.
    ghost predicate Wired()
      reads this, source, source.Repr, swap
    {
      && source.Valid() && swap.Valid() && swap.size <= 0x8_0000
      && this !in source.Repr && regions !in source.Repr && swap !in source.Repr
      && swap.allocMap !in source.Repr && swap.swapFile !in source.Repr
      && source.managed <= mem.Keys && ManagedOk()
    }

    ghost predicate ManagedOk()
    {
      forall f | f in source.managed :: 0 < f < BASE_LIMIT && f !in outside
    }

    ghost predicate Ready(flight: Option<nat>)
      reads this, source, source.Repr, swap, swap.allocMap, swap.swapFile, regions
    {
      Wired() && Sound(flight)
    }

    // The address space and the region list, apart from the allocator.
    ghost predicate Sound(flight: Option<nat>)
      reads this, source, swap, swap.allocMap, swap.swapFile, regions
    {
      && swap.Valid() && VmOk(View(), flight) && AllRightsOk(View(), None)
      && (ROOT in tab ==> tab[ROOT] == cr3)
      && ListOk(regions.regions) && clockHand <= |regions.regions|
    }

    ghost predicate Valid()
      reads this, source, source.Repr, swap, swap.allocMap, swap.swapFile, regions
    {
      Ready(None)
    }

    // ----------------------------------------------------------------- the clock

    // get_valid_page_entry: where the leaf entry is, if the page is resident.
    method GetValidPageEntry(address: nat, ghost flight: Option<nat>) returns (ok: bool, table: nat, index: nat)
      requires Sound(flight) && InRegion(address / 4096)
      ensures ok <==> Page(address / 4096) in tab
      ensures ok ==> HasTable(View(), Page(address / 4096))
      ensures ok ==> table == tab[Parent(Page(address / 4096))] && index == Index(Page(address / 4096))
    {
      ok, table, index := false, cr3, Pml4Index(address);
      ghost var vm, page := View(), Page(address / 4096);
      MacrosFollowTree(address);
      RegionTree(address / 4096);
      Descend(vm, TOP);
      if !mem[table][index].present {
        NotBelow(vm, page);
        return;
      }
      table, index := mem[table][index].base, PdpIndex(address);
      Descend(vm, Parent(Parent(page)));
      if !mem[table][index].present {
        NotBelow(vm, page);
        return;
      }
      table, index := mem[table][index].base, PdIndex(address);
      Descend(vm, Parent(page));
      if !mem[table][index].present {
        NotBelow(vm, page);
        return;
      }
      table, index := mem[table][index].base, PtIndex(address);
      Descend(vm, page);
      ok := mem[table][index].present;
    }

    // page_replacement_clock.
    method PageReplacementClock(ghost flight: Option<nat>)
      returns (ok: bool, table: nat, index: nat, ghost vp: nat)
      requires Sound(flight)
      modifies `mem, `clockHand
      ensures Sound(flight)
      ensures var vm, order := old(View()), SweepOrder(regions.regions, old(clockHand));
              var v := Victim(Seen(vm), order);
              && Cleared(vm, View(), PassedOver(Seen(vm), order))
              && (ok <==> v < |order|)
              && (ok ==> order[v] == Some(vp)
                         && clockHand == NextNode(|order|, NodeAfter(|order|, old(clockHand), v + 1)))
      ensures !ok ==> clockHand == old(clockHand)
      ensures ok ==> Found(table, index, vp) && Behind(regions.regions, vp, clockHand)
    {
      var pos;
      ok, pos, table, index, vp := SweepTwice(flight);
      if ok {
        HandBehind(regions.regions, clockHand, Victim(Seen(old(View())), SweepOrder(regions.regions, clockHand)));
        clockHand := NextNode(|regions.regions|, pos);
      }
    }

    // The source sweeps until it finds a victim.  The second sweep finds one if
    // anything is resident; if neither does, no later sweep will.
    method SweepTwice(ghost flight: Option<nat>)
      returns (ok: bool, pos: nat, table: nat, index: nat, ghost vp: nat)
      requires Sound(flight)
      modifies `mem
      ensures Sound(flight)
      ensures var vm, order := old(View()), SweepOrder(regions.regions, clockHand);
              var v := Victim(Seen(vm), order);
              && Cleared(vm, View(), PassedOver(Seen(vm), order))
              && (ok <==> v < |order|)
              && (ok ==> order[v] == Some(vp) && pos == NodeAfter(|order|, clockHand, v + 1) && pos <= |order|)
      ensures ok ==> Found(table, index, vp)
    {
      ghost var vm, order := View(), SweepOrder(regions.regions, clockHand);
      SweepIsOnePass(regions.regions, clockHand);
      SweepStart(vm, order);
      ghost var k;
      ok, pos, table, index, vp, k := Sweep(vm, order, false, flight);
      if !ok {
        SweepAgain(vm, View(), order);
        ok, pos, table, index, vp, k := Sweep(vm, order, true, flight);
        if !ok {
          SweepDone(vm, View(), order);
        }
      }
    }

    // list_for_each_safe over the nodes after the hand, back to the hand.
    method Sweep(ghost vm: Vm, ghost order: seq<Option<nat>>, ghost second: bool, ghost flight: Option<nat>)
      returns (ok: bool, pos: nat, table: nat, index: nat, ghost vp: nat, ghost k: nat)
      requires Sound(flight) && TreeOk(vm) && OnePass(order)
      requires order == SweepOrder(regions.regions, clockHand) && Sweeping(vm, View(), order, second, 0)
      modifies `mem
      ensures Sound(flight)
      ensures !ok ==> Sweeping(vm, View(), order, second, |order|)
      ensures ok ==> Stopped(vm, order, table, index, vp, k) && AtNode(order, pos, k)
    {
      k := 0;
      pos := First(order);
      ok, table, index, vp := false, 0, 0, 0;
      while !ok && pos != clockHand
        invariant AtNode(order, pos, k)
        invariant Sound(flight)
        invariant !ok ==> Sweeping(vm, View(), order, second, k)
        invariant ok ==> Stopped(vm, order, table, index, vp, k)
        decreases |order| - k, !ok
      {
        ok, pos, table, index, vp, k := Pass(pos, vm, order, second, k, flight);
      }
    }

    // pos is the k-th node after the hand.
    ghost predicate AtNode(order: seq<Option<nat>>, pos: nat, k: nat)
      reads this
    {
      && clockHand <= |order| && k <= |order| && pos <= |order|
      && pos == NodeAfter(|order|, clockHand, k + 1) && (pos == clockHand <==> k == |order|)
    }

    method First(ghost order: seq<Option<nat>>) returns (pos: nat)
      requires |order| == |regions.regions| && clockHand <= |order|
      ensures AtNode(order, pos, 0)
    {
      WalkStep(|order|, clockHand, 0);
      pos := NextNode(|regions.regions|, clockHand);
    }

    method Next(ghost order: seq<Option<nat>>, pos: nat, ghost k: nat) returns (next: nat)
      requires |order| == |regions.regions| && AtNode(order, pos, k) && k < |order|
      ensures AtNode(order, next, k + 1)
    {
      WalkStep(|order|, clockHand, k);
      WalkStep(|order|, clockHand, k + 1);
      next := NextNode(|regions.regions|, pos);
    }

    // The page at order[k] is the victim.
    ghost predicate Stopped(vm: Vm, order: seq<Option<nat>>, table: nat, index: nat, vp: nat, k: nat)
      reads this, source, swap, swap.allocMap, swap.swapFile
    {
      && Victim(Seen(vm), order) == k < |order| && order[k] == Some(vp)
      && Cleared(vm, View(), PassedOver(Seen(vm), order)) && Found(table, index, vp)
    }

    // The leaf entry of a resident page of the region.
    ghost predicate Found(table: nat, index: nat, vp: nat)
      reads this, source, swap, swap.allocMap, swap.swapFile
    {
      && InRegion(vp) && Page(vp) in tab && HasTable(View(), Page(vp))
      && table == tab[Parent(Page(vp))] && index == Index(Page(vp))
    }

    // One round: the next node is looked up first.
    method Pass(pos: nat, ghost vm: Vm, ghost order: seq<Option<nat>>, ghost second: bool, ghost k: nat,
                ghost flight: Option<nat>)
      returns (ok: bool, next: nat, table: nat, index: nat, ghost vp: nat, ghost k': nat)
      requires Sound(flight) && TreeOk(vm) && OnePass(order) && k < |order|
      requires order == SweepOrder(regions.regions, clockHand) && AtNode(order, pos, k)
      requires Sweeping(vm, View(), order, second, k)
      modifies `mem
      ensures Sound(flight) && AtNode(order, next, k') && k' == (if ok then k else k + 1)
      ensures if ok then Stopped(vm, order, table, index, vp, k') else Sweeping(vm, View(), order, second, k')
    {
      next := Next(order, pos, k);
      ok, table, index, vp := Visit(pos, vm, order, second, k, flight);
      k' := k + 1;
      if ok {
        next, k' := pos, k;
      }
    }

    // One node of a sweep: a resident page that was accessed loses the bit, one
    // that was not is the victim.
    method Visit(pos: nat, ghost vm: Vm, ghost order: seq<Option<nat>>, ghost second: bool, ghost k: nat,
                 ghost flight: Option<nat>)
      returns (ok: bool, table: nat, index: nat, ghost vp: nat)
      requires Sound(flight) && TreeOk(vm) && OnePass(order) && k < |order|
      requires order == SweepOrder(regions.regions, clockHand) && AtNode(order, pos, k)
      requires Sweeping(vm, View(), order, second, k)
      modifies `mem
      ensures Sound(flight)
      ensures !ok ==> Sweeping(vm, View(), order, second, k + 1)
      ensures ok ==> Stopped(vm, order, table, index, vp, k)
    {
      assert order[k] == FirstPage(regions.regions, pos);
      ok, table, index, vp := false, 0, 0, 0;
      if pos != 0 {
        var address := regions.regions[pos - 1].addr;
        vp := address / 4096;
        ok, table, index := GetValidPageEntry(address, flight);
      }
      if !ok {
        SweepSkip(vm, View(), order, second, k);
        return;
      }
      ok := SecondChance(table, index, vp, vm, order, second, k, flight);
    }

    // The page is resident.
    method SecondChance(table: nat, index: nat, ghost vp: nat, ghost vm: Vm, ghost order: seq<Option<nat>>,
                        ghost second: bool, ghost k: nat, ghost flight: Option<nat>)
      returns (ok: bool)
      requires Sound(flight) && TreeOk(vm) && OnePass(order)
      requires k < |order| && order[k] == Some(vp) && Found(table, index, vp)
      requires Sweeping(vm, View(), order, second, k)
      modifies `mem
      ensures Sound(flight)
      ensures !ok ==> Sweeping(vm, View(), order, second, k + 1)
      ensures ok ==> Stopped(vm, order, table, index, vp, k)
    {
      AccessedNow(vm, View(), order, second, k);
      ok := !mem[table][index].accessed;
      if ok {
        SweepStop(vm, View(), order, second, k);
      } else {
        SweepClear(vm, View(), order, second, k, flight);
        ClearBit(table, index, vp, flight);
      }
    }

    // page->accessed = 0
    method ClearBit(table: nat, index: nat, ghost vp: nat, ghost flight: Option<nat>)
      requires Sound(flight) && Found(table, index, vp)
      requires VmOk(ClearAccessed(View(), vp), flight)
      modifies `mem
      ensures Sound(flight) && View() == ClearAccessed(old(View()), vp)
    {
      ClearedRights(View(), vp);
      mem := SetWord(mem, table, index, mem[table][index].(accessed := false));
      assert View() == ClearAccessed(old(View()), vp);
    }

    // ------------------------------------------------------------------ eviction

    // What the course of a fault goes by.
    ghost function Outlook(): Face
      reads this, source, swap, swap.allocMap, swap.swapFile
    {
      FaceOf(View(), source.managed, clockHand)
    }

    // clear_up_memory, once the victim is known: write it to the swap file, free
    // its frame, and leave the slot number in its entry.
    method EvictFound(table: nat, index: nat, ghost vp: nat, ghost flight: Option<nat>) returns (done: bool)
      requires Ready(flight) && Found(table, index, vp) && flight != Some(vp)
      modifies `mem, `tab, source.Repr, swap.allocMap, swap.swapFile
      ensures done <==> HasFree(old(View()).store.used)
      ensures Evicted(old(View()), View(), vp)
      ensures done ==> Ready(flight) && Advances(old(View()), View(), flight)
      ensures done ==> Outlook() == PutAway(old(Outlook()), vp)
      ensures !done ==> Lost(old(View()), View(), vp)
      ensures source.Repr == old(source.Repr)
    {
      ghost var vm, f, e := View(), Outlook(), mem[table][index];
      PageFrame(vm, vp);
      done, e := TakeOut(table, index, vp);
      if done {
        EvictFace(vm, View(), vp, e, source.managed, clockHand);
        assert Outlook() == PutAway(f, vp);
        EvictOk(vm, vp, e, flight);
      } else {
        EvictLost(vm, vp, e);
      }
    }

    method TakeOut(table: nat, index: nat, ghost vp: nat) returns (done: bool, ghost e: Pte)
      requires Wired() && TreeOk(View()) && Found(table, index, vp)
      modifies `mem, `tab, source.Repr, swap.allocMap, swap.swapFile
      ensures Wired() && source.Repr == old(source.Repr)
      ensures Sized(old(View()).store) && (done <==> HasFree(old(View()).store.used))
      ensures Evictable(old(View()), vp, e, if done then LeastFree(old(View()).store.used) else 0)
      ensures SameUse(old(mem[table][index]), e) && SameRights(old(mem[table][index]), e)
      ensures old(tab)[Page(vp)] in old(mem)
      ensures View() == Evict(old(View()), vp, e, Out(old(View()).store, old(mem)[old(tab)[Page(vp)]]))
    {
      ghost var vm := View();
      PageFrame(vm, vp);
      var out := mem[table][index].(present := false, dirty := true);
      var slot;
      slot, done := WriteOut(table, index, out, vp);
      NameSlot(table, index, slot, vp);
      e := out.(base := slot);
      LastWordStays(vm.mem, table, index, out, e);
    }

    // page_to_replace->page_base_addr = index
    method NameSlot(table: nat, index: nat, slot: Base, ghost vp: nat)
      requires Wired() && table in mem && index < 512
      modifies `mem, `tab
      ensures Wired() && mem == SetWord(old(mem), table, index, old(mem)[table][index].(base := slot))
      ensures tab == old(tab) - {Page(vp)}
    {
      mem := SetWord(mem, table, index, mem[table][index].(base := slot));
      tab := tab - {Page(vp)};
    }

    method WriteOut(table: nat, index: nat, e: Pte, ghost vp: nat) returns (slot: nat, done: bool)
      requires Wired() && TreeOk(View()) && Found(table, index, vp)
      requires e == mem[table][index].(present := false, dirty := true) && e.base == tab[Page(vp)]
      modifies `mem, source.Repr, swap.allocMap, swap.swapFile
      ensures Wired() && source.Repr == old(source.Repr) && mem == SetWord(old(mem), table, index, e)
      ensures tab[Page(vp)] in old(mem) && Sized(old(swap.Contents()))
      ensures swap.Contents() == Out(old(swap.Contents()), old(mem)[tab[Page(vp)]])
      ensures tab[Page(vp)] in old(source.live) && source.live == old(source.live) - {tab[Page(vp)]}
      ensures done <==> HasFree(old(swap.Contents()).used)
      ensures slot < BASE_LIMIT && slot == if done then LeastFree(old(swap.Contents()).used) else 0
    {
      PageFrame(View(), vp);
      var frame := e.base;
      mem := SetWord(mem, table, index, e);
      slot, done := swap.SwapOutPage(0, mem[frame]);
      source.Free(BaseToPage(frame));
    }

    ghost predicate InFlight(flight: Option<nat>)
      reads this
    {
      flight.Some? ==> Page(flight.value) !in tab
    }

    method ClearUpMemory(ghost flight: Option<nat>) returns (outcome: Outcome)
      requires Ready(flight) && InFlight(flight)
      modifies this, source.Repr, swap.allocMap, swap.swapFile
      ensures outcome == old(MakeSpace(Outlook(), regions.regions).0)
      ensures outcome == Done ==> Outlook() == old(MakeSpace(Outlook(), regions.regions).1)
      ensures outcome == Done ==> Ready(flight) && Advances(old(View()), View(), flight)
      ensures outcome != Spins ==>
                var victim := old(Choice(Outlook(), regions.regions));
                victim.Some? && Evicted(old(View()), View(), victim.value)
                && (outcome == SwapFull ==> Lost(old(View()), View(), victim.value))
      ensures source.Repr == old(source.Repr)
    {
      var ok, table, index;
      ghost var vp;
      ok, table, index, vp := PickVictim(flight);
      if !ok {
        return Spins;
      }
      ghost var vm1 := View();
      var done := EvictFound(table, index, vp, flight);
      if !done {
        LostAfter(old(View()), vm1, View(), vp);
        return SwapFull;
      }
      KeptWeaken(old(View()), vm1, flight);
      AdvancesTrans(old(View()), vm1, View(), flight);
      return Done;
    }

    // The clock, seen from clear_up_memory.
    method PickVictim(ghost flight: Option<nat>) returns (ok: bool, table: nat, index: nat, ghost vp: nat)
      requires Ready(flight) && InFlight(flight)
      modifies `mem, `clockHand
      ensures Ready(flight) && Kept(old(View()), View(), None) && Leads(old(View()), View(), flight)
      ensures old(Choice(Outlook(), regions.regions)) == if ok then Some(vp) else None
      ensures Outlook() == old(Swept(Outlook(), regions.regions))
      ensures ok ==> Found(table, index, vp) && flight != Some(vp)
      ensures View() == old(View()).(mem := mem)
    {
      ghost var vm, hand, order := View(), clockHand, SweepOrder(regions.regions, clockHand);
      ok, table, index, vp := PageReplacementClock(flight);
      ClearedKept(vm, View(), PassedOver(Seen(vm), order));
      SweptFace(vm, View(), source.managed, regions.regions, hand, clockHand);
    }

    // -------------------------------------------------------------------- frames

    // The address space without frame f, which has just been handed out and is
    // not part of it yet.
    ghost function Without(f: nat): Vm
      reads this, source, swap, swap.allocMap, swap.swapFile
    {
      View().(live := source.live - {f})
    }

    ghost predicate Holding(f: nat, flight: Option<nat>)
      reads this, source, source.Repr, swap, swap.allocMap, swap.swapFile, regions
    {
      && Wired() && f in source.managed && f in source.live
      && VmOk(Without(f), flight) && AllRightsOk(Without(f), None)
      && (ROOT in tab ==> tab[ROOT] == cr3)
      && ListOk(regions.regions) && clockHand <= |regions.regions|
    }

    // As Outlook, with frame f still to be put in.
    ghost function OutlookWithout(f: nat): Face
      reads this, source, swap, swap.allocMap, swap.swapFile
    {
      FaceOf(Without(f), source.managed, clockHand)
    }

    // petmem_alloc_pages(1)
    method TryFrame(ghost flight: Option<nat>) returns (pa: nat)
      requires Ready(flight)
      modifies source.Repr
      ensures pa == 0 <==> old(Outlook()).free == 0
      ensures pa == 0 ==> Ready(flight) && View() == old(View())
      ensures pa != 0 ==> pa == BaseToPage(pa / 4096) && Holding(pa / 4096, flight)
      ensures pa != 0 ==> Without(pa / 4096) == old(View()) && OutlookWithout(pa / 4096) == old(Outlook())
      ensures source.Repr == old(source.Repr)
    {
      ghost var vm := View();
      NoneFree(source.managed, source.live);
      pa := source.Alloc();
      assert if pa == 0 then View() == vm else Without(pa / 4096) == vm;
    }

    // A frame, if need be after making room.
    method ObtainFrame(ghost flight: Option<nat>) returns (outcome: Outcome, pa: nat)
      requires Ready(flight) && InFlight(flight)
      modifies this, source.Repr, swap.allocMap, swap.swapFile
      ensures outcome == old(FindFrame(Outlook(), regions.regions).0)
      ensures outcome == Done ==> OutlookWithout(pa / 4096) == old(FindFrame(Outlook(), regions.regions).1)
      ensures outcome == Done ==> pa == BaseToPage(pa / 4096) && Holding(pa / 4096, flight)
      ensures outcome == Done ==> Advances(old(View()), Without(pa / 4096), flight)
      ensures source.Repr == old(source.Repr)
    {
      AdvancesNowhere(View(), flight);
      pa := TryFrame(flight);
      outcome := Done;
      if pa == 0 {
        outcome, pa := MakeRoom(flight);
      }
    }

    // clear_up_memory and the second try, which cannot fail.
    method MakeRoom(ghost flight: Option<nat>) returns (outcome: Outcome, pa: nat)
      requires Ready(flight) && InFlight(flight)
      modifies this, source.Repr, swap.allocMap, swap.swapFile
      ensures outcome == old(MakeSpace(Outlook(), regions.regions).0)
      ensures outcome == Done ==> OutlookWithout(pa / 4096) == old(MakeSpace(Outlook(), regions.regions).1)
      ensures outcome == Done ==> pa == BaseToPage(pa / 4096) && Holding(pa / 4096, flight)
      ensures outcome == Done ==> Advances(old(View()), Without(pa / 4096), flight)
      ensures source.Repr == old(source.Repr)
    {
      pa := 0;
      outcome := ClearUpMemory(flight);
      if outcome == Done {
        pa := TryFrame(flight);
      }
    }

    ghost function FreeFrames(): nat
      reads source`live
    {
      |source.managed - source.live|
    }

    // A frame for the missing child c: making room leaves its place where it was.
    method FrameFor(ghost c: Node, ghost flight: Option<nat>) returns (outcome: Outcome, frame: nat)
      requires Ready(flight) && InFlight(flight)
      requires Relevant(c) && c.level < 4 && Parent(c) in tab && c !in tab
      modifies this, source.Repr, swap.allocMap, swap.swapFile
      ensures outcome == old(FindFrame(Outlook(), regions.regions).0)
      ensures outcome == Done ==> OutlookWithout(frame) == old(FindFrame(Outlook(), regions.regions).1)
      ensures outcome == Done ==> Holding(frame, flight) && Advances(old(View()), Without(frame), flight)
      ensures outcome == Done ==> HasTable(Without(frame), c) && c !in tab && tab[Parent(c)] == old(tab)[Parent(c)]
      ensures source.Repr == old(source.Repr)
    {
      ghost var vm := View();
      FoundLess(Outlook(), regions.regions);
      var pa;
      outcome, pa := ObtainFrame(flight);
      frame := pa / 4096;
      if outcome == Done {
        StillMissing(vm, Without(frame), c, flight);
      }
    }

    // -------------------------------------------------------------------- tables

    // memset or memcpy into the frame, then point the entry at it.
    method PointAt(table: nat, index: nat, frame: nat, bytes: Frame, e: Pte, ghost c: Node)
      requires this !in source.Repr && frame in source.live
      requires HasTable(Without(frame), c) && table == tab[Parent(c)] && index == Index(c) && table != frame
      modifies `mem, `tab
      ensures View() == Attach(old(Without(frame)), c, frame, bytes, e)
      ensures source.Repr == old(source.Repr) && (old(source.Valid()) ==> source.Valid())
    {
      ghost var vm := Without(frame);
      mem := mem[frame := bytes];
      mem := SetWord(mem, table, index, e);
      tab := tab[c := frame];
      assert mem == SetWord(vm.mem, table, index, e)[frame := bytes];
      assert vm.live + {frame} == source.live;
    }

    // As Ready, but the rights in c's entry are not set yet.
    ghost predicate Pending(c: Node)
      reads this, source, source.Repr, swap, swap.allocMap, swap.swapFile, regions
    {
      && Wired() && VmOk(View(), None) && AllRightsOk(View(), Some(c))
      && (ROOT in tab ==> tab[ROOT] == cr3)
      && ListOk(regions.regions) && clockHand <= |regions.regions|
    }

    // handle_table_memory: a zeroed frame for the child c of a table.
    method HandleTableMemory(table: nat, index: nat, ghost c: Node) returns (outcome: Outcome)
      requires Valid() && Relevant(c) && c.level < 4 && Parent(c) in tab && c !in tab
      requires table == tab[Parent(c)] && index == Index(c) && MayAttach(View(), c, None)
      modifies this, source.Repr, swap.allocMap, swap.swapFile
      ensures source.Repr == old(source.Repr)
      ensures outcome == old(Fetch(Outlook(), regions.regions, c).0)
      ensures outcome == Done ==> Outlook() == old(Fetch(Outlook(), regions.regions, c).1)
      ensures outcome == Done ==> Pending(c) && Placed(old(View()), View(), c, ZeroFrame()) && tab[Parent(c)] == table
      ensures outcome == Done && c.level == 0 ==> !EntryAt(View(), c).dirty
      ensures outcome == Done ==> Leads(old(View()), View(), None)
    {
      ghost var vm := View();
      var frame;
      outcome, frame := FrameFor(c, None);
      if outcome == Done {
        ghost var vm1 := Without(frame);
        assert c.level == 0 ==> Moves(vm, vm1, c.prefix);
        Install(table, index, frame, ZeroFrame(), mem[table][index].(present := true, base := frame), c, None);
        PlacedLater(vm, vm1, View(), c, ZeroFrame(), None);
        LandsWithout(vm, View(), ZeroFrame());
      }
    }

    // The frame in hand becomes the child c.
    method Install(table: nat, index: nat, frame: nat, bytes: Frame, e: Pte, ghost c: Node, ghost flight: Option<nat>)
      requires Holding(frame, flight) && if flight == None then bytes == ZeroFrame() else flight == Subject(c)
      requires Attachable(Without(frame), c, frame, bytes, e) && MayAttach(Without(frame), c, flight)
      requires table == tab[Parent(c)] && index == Index(c)
      requires SameUse(mem[table][index], e) && (c == TOP ==> SameRights(mem[table][index], e))
      modifies `mem, `tab
      ensures Pending(c) && source.Repr == old(source.Repr)
      ensures Placed(old(Without(frame)), View(), c, bytes) && Lands(old(Without(frame)), View(), flight, bytes)
      ensures tab[Parent(c)] == table && EntryOf(View(), c) == e
      ensures old(OutlookWithout(frame)).free > 0 && Outlook() == PutAt(old(OutlookWithout(frame)), c)
    {
      ghost var vm, f := Without(frame), OutlookWithout(frame);
      AttachFresh(vm, c, frame, bytes, e, Parent(c));
      PointAt(table, index, frame, bytes, e, c);
      AttachFace(vm, View(), c, frame, bytes, e, source.managed, clockHand);
      assert Outlook() == PutAt(f, c);
      AttachOk(vm, View(), c, frame, bytes, e, flight);
    }

    // present, writable and user of the entry that leads to c.
    method OpenEntry(table: nat, index: nat, ghost c: Node)
      requires Pending(c) && c in tab && c.level <= 2 && HasTable(View(), c)
      requires table == tab[Parent(c)] && index == Index(c)
      modifies `mem
      ensures Valid() && Advances(old(View()), View(), None)
      ensures Outlook() == old(Outlook())
      ensures var e := old(EntryOf(View(), c));
              View() == WriteEntry(old(View()), c, e.(present := true, writable := true, user := true))
    {
      ghost var vm, e := View(), mem[table][index].(present := true, writable := true, user := true);
      assert NodeOk(vm, c) && EntryOk(vm, c);
      OpenKept(vm, c, e, None);
      OpenFace(vm, c, e, source.managed, clockHand);
      mem := SetWord(mem, table, index, mem[table][index].(present := true, writable := true, user := true));
      assert View() == WriteEntry(vm, c, e);
    }

    // handle_table_memory, and opening the entry as its callers do: all but the
    // one for the PML4's.
    method Add(table: nat, index: nat, ghost c: Node) returns (outcome: Outcome)
      requires Valid() && Relevant(c) && c.level < 3 && Parent(c) in tab && c !in tab && MayAttach(View(), c, None)
      requires table == tab[Parent(c)] && index == Index(c)
      modifies this, source.Repr, swap.allocMap, swap.swapFile
      ensures source.Repr == old(source.Repr)
      ensures outcome == old(Fetch(Outlook(), regions.regions, c).0)
      ensures outcome == Done ==> Outlook() == old(Fetch(Outlook(), regions.regions, c).1)
      ensures outcome == Done ==> Valid() && Kept(old(View()), View(), Subject(c)) && c in tab
      ensures outcome == Done ==> Leads(old(View()), View(), None)
      ensures outcome == Done && c.level == 0 ==>
                Content(View(), c.prefix) == Some(ZeroFrame()) && !EntryAt(View(), c).dirty
    {
      ghost var vm := View();
      outcome := HandleTableMemory(table, index, c);
      if outcome == Done {
        ghost var vm1 := View();
        OpenEntry(table, index, c);
        KeptThen(vm, vm1, View(), Subject(c));
        LeadsTrans(vm, vm1, View(), None);
      }
    }

    // The PML4's own entry is left closed if it was: that says nothing about the
    // tables below.
    lemma TopNeedsNothing()
      requires Pending(TOP)
      ensures Valid()
    {
      forall n: Node
        ensures RightsOk(View(), n)
      {
        assert n != TOP ==> RightsOk(View(), n);
      }
    }

    // The entry for a table on the way to a page.
    method EnsureTable(table: nat, index: nat, open: bool, ghost c: Node) returns (outcome: Outcome, next: nat)
      requires Valid() && Relevant(c) && 0 < c.level < 4 && Parent(c) in tab
      requires (c.level == 3 ==> c == TOP) && (open <==> c.level < 3)
      requires table == tab[Parent(c)] && index == Index(c)
      modifies this, source.Repr, swap.allocMap, swap.swapFile
      ensures source.Repr == old(source.Repr)
      ensures outcome == old(Fetch(Outlook(), regions.regions, c).0)
      ensures outcome == Done ==> Outlook() == old(Fetch(Outlook(), regions.regions, c).1)
      ensures outcome == Done ==> Valid() && Advances(old(View()), View(), None) && c in tab && next == tab[c]
      ensures c in old(tab) ==> View() == old(View()) && clockHand == old(clockHand)
    {
      ghost var vm := View();
      Descend(vm, c);
      outcome, next := Done, 0;
      if !mem[table][index].present {
        if open {
          outcome := Add(table, index, c);
        } else {
          outcome := HandleTableMemory(table, index, c);
        }
        if outcome != Done {
          return;
        }
        if !open {
          TopNeedsNothing();
        }
        assert TableKept(vm, View(), Parent(c));
        Descend(View(), c);
      } else {
        AdvancesNowhere(vm, None);
      }
      next := mem[table][index].base;
    }

    // ------------------------------------------------------------------- swap in

    // swap_in_page: the bytes come back and the slot is free again before any
    // frame is asked for.
    method TakeFromSwap(table: nat, index: nat, ghost vp: nat) returns (bytes: Frame)
      requires Valid() && InRegion(vp) && Parent(Page(vp)) in tab && StateOf(View(), vp).SwappedOut?
      requires table == tab[Parent(Page(vp))] && index == Index(Page(vp))
      modifies swap.allocMap
      ensures Ready(Some(vp)) && Kept(old(View()), View(), Some(vp)) && InFlight(Some(vp))
      ensures Some(bytes) == old(Content(View(), vp)) && TakesOff(old(View()), View(), vp, bytes)
      ensures View() == old(View()).(store := View().store) &&
                old(StateOf(View(), vp)).slot < |old(View()).store.used| &&
                View().store == In(old(View()).store, old(StateOf(View(), vp)).slot)
      ensures Outlook() == old(Reclaimed(Outlook(), StateOf(View(), vp)))
    {
      ghost var vm := View();
      ReleaseKeeps(vm, vp);
      TopTable(vm);
      bytes := swap.SwapInPage(mem[table][index].base);
      assert View() == vm.(store := In(vm.store, StateOf(vm, vp).slot));
      SameButStore(vm, View(), vp);
      ReleaseTakesOff(vm, vp);
    }

    // The fault on a page that was swapped out.
    method SwapIn(table: nat, index: nat, ghost vp: nat) returns (outcome: Outcome)
      requires Valid() && InRegion(vp) && Parent(Page(vp)) in tab && StateOf(View(), vp).SwappedOut?
      requires table == tab[Parent(Page(vp))] && index == Index(Page(vp))
      modifies this, source.Repr, swap.allocMap, swap.swapFile
      ensures source.Repr == old(source.Repr)
      ensures outcome == old(FetchPage(Outlook(), regions.regions, vp, StateOf(View(), vp)).0) && outcome != SwapFull
      ensures outcome == Done ==> Outlook() == old(FetchPage(Outlook(), regions.regions, vp, StateOf(View(), vp)).1)
      ensures outcome == Done ==> Valid() && Kept(old(View()), View(), Some(vp)) && Page(vp) in tab
      ensures outcome == Done ==> Leads(old(View()), View(), None) && !EntryAt(View(), Page(vp)).dirty
      ensures outcome == Done ==> Content(View(), vp) == old(Content(View(), vp))
    {
      ghost var vm := View();
      SlotInFile(vm, vp);
      SwapInHasSlot(Outlook(), regions.regions, vp, StateOf(vm, vp));
      var bytes := TakeFromSwap(table, index, vp);
      ghost var vm1 := View();
      outcome := Restore(table, index, bytes, vp);
      if outcome == Done {
        KeptTrans(vm, vm1, View(), Some(vp));
        ThereAndBack(vm, vm1, View(), vp, bytes);
      }
    }

    // A frame for the page, its bytes into it, and the entry to it.
    method Restore(table: nat, index: nat, bytes: Frame, ghost vp: nat) returns (outcome: Outcome)
      requires Ready(Some(vp)) && InFlight(Some(vp)) && InRegion(vp)
      requires Parent(Page(vp)) in tab && table == tab[Parent(Page(vp))] && index == Index(Page(vp))
      modifies this, source.Repr, swap.allocMap, swap.swapFile
      ensures source.Repr == old(source.Repr)
      ensures outcome == old(Fetch(Outlook(), regions.regions, Page(vp)).0)
      ensures outcome == Done ==> Outlook() == old(Fetch(Outlook(), regions.regions, Page(vp)).1)
      ensures outcome == Done ==> Valid() && Placed(old(View()), View(), Page(vp), bytes)
      ensures outcome == Done ==> Lands(old(View()), View(), Some(vp), bytes) && !EntryAt(View(), Page(vp)).dirty
    {
      RegionTree(vp);
      ghost var vm := View();
      var frame;
      outcome, frame := FrameFor(Page(vp), Some(vp));
      if outcome == Done {
        ghost var vm1 := Without(frame);
        var e := mem[table][index].(present := true, writable := true, user := true, dirty := false, base := frame);
        Install(table, index, frame, bytes, e, Page(vp), Some(vp));
        OpenAtLast(View(), Page(vp));
        PlacedLater(vm, vm1, View(), Page(vp), bytes, Some(vp));
      }
    }

    // --------------------------------------------------------------- the handler

    // On the way from vm0 to page vp, as far as table n.  Nothing has changed if
    // that table was there.
    ghost predicate Underway(vm0: Vm, hand0: nat, n: Node, vp: nat)
      reads this, source, source.Repr, swap, swap.allocMap, swap.swapFile, regions
    {
      && Valid() && Advances(vm0, View(), None) && OnlyPath(vm0, View(), vp)
      && n in tab && (n in vm0.tab ==> View() == vm0 && clockHand == hand0)
    }

    lemma SetOut(vp: nat)
      requires Valid()
      ensures Underway(View(), clockHand, ROOT, vp)
    {
      AdvancesNowhere(View(), None);
    }

    // The search for a frame would not succeed here.
    lemma StuckHere(vm0: Vm, hand0: nat, n: Node, vp: nat, used: seq<bool>)
      requires Underway(vm0, hand0, n, vp) && FindFrame(Outlook().(used := used), regions.regions).0 != Done
      requires HasFree(View().store.used) ==> HasFree(used)
      ensures MayStick(vm0, source.managed, regions.regions, vp)
    {
      NoneFree(source.managed, source.live);
      assert StuckOnTheWay(vm0, View(), source.managed, regions.regions, clockHand, vp);
    }

    // The next table down the path.
    method StepDown(table: nat, index: nat, open: bool, ghost c: Node, ghost vm0: Vm, ghost hand0: nat, ghost vp: nat)
      returns (outcome: Outcome, next: nat)
      requires Underway(vm0, hand0, Parent(c), vp) && (c in vm0.tab ==> Parent(c) in vm0.tab)
      requires OnPath(c, vp) && Relevant(c) && 0 < c.level < 4 && (c.level == 3 ==> c == TOP) && (open <==> c.level < 3)
      requires table == tab[Parent(c)] && index == Index(c)
      modifies this, source.Repr, swap.allocMap, swap.swapFile
      ensures source.Repr == old(source.Repr)
      ensures outcome == old(Fetch(Outlook(), regions.regions, c).0)
      ensures outcome == Done ==> Outlook() == old(Fetch(Outlook(), regions.regions, c).1)
      ensures outcome == Done ==> Underway(vm0, hand0, c, vp) && next == tab[c]
      ensures outcome != Done ==> MayStick(vm0, source.managed, regions.regions, vp)
    {
      ghost var vm, f := View(), Outlook();
      if Fetch(f, regions.regions, c).0 != Done { StuckHere(vm0, hand0, Parent(c), vp, f.used); }
      FetchAdds(f, regions.regions, c);
      outcome, next := EnsureTable(table, index, open, c);
      if outcome == Done {
        OnPathOnly(vm, View(), c, vp);
        AdvancesTrans(vm0, vm, View(), None);
        OnlyPathTrans(vm0, vm, View(), vp);
      }
    }

    // The upper part of petmem_handle_pagefault: down to the page table.
    method WalkDown(address: nat) returns (outcome: Outcome, table: nat)
      requires Valid() && InRegion(address / 4096)
      modifies this, source.Repr, swap.allocMap, swap.swapFile
      ensures source.Repr == old(source.Repr)
      ensures outcome == old(FetchTables(Outlook(), regions.regions, address / 4096).0)
      ensures outcome == Done ==> Outlook() == old(FetchTables(Outlook(), regions.regions, address / 4096).1)
      ensures var n := Parent(Page(address / 4096));
              outcome == Done ==> Underway(old(View()), old(clockHand), n, address / 4096) && table == tab[n]
      ensures outcome != Done ==> MayStick(old(View()), source.managed, regions.regions, address / 4096)
    {
      ghost var vm, hand, vp := View(), clockHand, address / 4096;
      MacrosFollowTree(address);
      RegionTree(vp);
      TablesAbove(vm, Page(vp));
      outcome, table := WalkUpper(address);
      if outcome == Done {
        outcome, table := StepDown(table, PdIndex(address), true, Parent(Page(vp)), vm, hand, vp);
      }
    }

    // Down to the page directory.
    method WalkUpper(address: nat) returns (outcome: Outcome, table: nat)
      requires Valid() && InRegion(address / 4096)
      modifies this, source.Repr, swap.allocMap, swap.swapFile
      ensures source.Repr == old(source.Repr)
      ensures outcome == old(FetchUpper(Outlook(), regions.regions, address / 4096).0)
      ensures outcome == Done ==> Outlook() == old(FetchUpper(Outlook(), regions.regions, address / 4096).1)
      ensures var n := Parent(Parent(Page(address / 4096)));
              outcome == Done ==> Underway(old(View()), old(clockHand), n, address / 4096) && table == tab[n]
      ensures outcome != Done ==> MayStick(old(View()), source.managed, regions.regions, address / 4096)
    {
      ghost var vm, hand, vp := View(), clockHand, address / 4096;
      MacrosFollowTree(address);
      RegionTree(vp);
      TablesAbove(vm, Page(vp));
      SetOut(vp);
      outcome, table := StepDown(cr3, Pml4Index(address), false, TOP, vm, hand, vp);
      if outcome == Done {
        outcome, table := StepDown(table, PdpIndex(address), true, Parent(Parent(Page(vp))), vm, hand, vp);
      }
    }

    // The lower part: the page itself.
    method FaultIn(table: nat, index: nat, ghost vp: nat) returns (outcome: Outcome)
      requires Valid() && InRegion(vp) && Parent(Page(vp)) in tab
      requires table == tab[Parent(Page(vp))] && index == Index(Page(vp))
      modifies this, source.Repr, swap.allocMap, swap.swapFile
      ensures source.Repr == old(source.Repr)
      ensures outcome == old(FetchPage(Outlook(), regions.regions, vp, StateOf(View(), vp)).0)
      ensures outcome == Done ==> Outlook() == old(FetchPage(Outlook(), regions.regions, vp, StateOf(View(), vp)).1)
      ensures outcome == Done ==> Valid() && Handled(old(View()), View(), vp)
      ensures Page(vp) in old(tab) ==> View() == old(View()) && clockHand == old(clockHand)
    {
      ghost var vm, f := View(), Outlook();
      RegionTree(vp);
      Descend(vm, Page(vp));
      FetchAdds(Reclaimed(f, StateOf(vm, vp)), regions.regions, Page(vp));
      if !mem[table][index].present && !mem[table][index].dirty {
        outcome := Add(table, index, Page(vp));
      } else if !mem[table][index].present && mem[table][index].dirty {
        outcome := SwapIn(table, index, vp);
      } else {
        outcome := Done;
        TopTable(vm);
        KeptRefl(vm, Some(vp));
        LeadsItself(vm, None);
      }
      if outcome == Done {
        OnPathOnly(vm, View(), Page(vp), vp);
      }
    }

    // The same, seen from where the walk began.
    method ServePage(table: nat, index: nat, ghost vp: nat, ghost vm0: Vm, ghost hand0: nat) returns (outcome: Outcome)
      requires Underway(vm0, hand0, Parent(Page(vp)), vp) && InRegion(vp)
      requires table == tab[Parent(Page(vp))] && index == Index(Page(vp))
      modifies this, source.Repr, swap.allocMap, swap.swapFile
      ensures source.Repr == old(source.Repr)
      ensures outcome == old(FetchPage(Outlook(), regions.regions, vp, StateOf(View(), vp)).0)
      ensures outcome == Done ==> Outlook() == old(FetchPage(Outlook(), regions.regions, vp, StateOf(View(), vp)).1)
      ensures outcome == Done ==> Valid() && Handled(vm0, View(), vp)
      ensures Page(vp) in old(tab) ==> View() == old(View()) && clockHand == old(clockHand)
      ensures outcome != Done ==> MayStick(vm0, source.managed, regions.regions, vp)
    {
      ghost var vm1, r := View(), Reclaimed(Outlook(), StateOf(View(), vp));
      ReclaimedStillFree(Outlook(), StateOf(vm1, vp));
      if Fetch(r, regions.regions, Page(vp)).0 != Done { StuckHere(vm0, hand0, Parent(Page(vp)), vp, r.used); }
      outcome := FaultIn(table, index, vp);
      if outcome == Done {
        HandledOnTheWay(vm0, vm1, View(), vp);
      }
    }

    // A fault that is let through.
    method ServeFault(address: nat) returns (outcome: Outcome)
      requires Valid() && InRegion(address / 4096)
      modifies this, source.Repr, swap.allocMap, swap.swapFile
      ensures source.Repr == old(source.Repr)
      ensures outcome == old(FaultCourse(address / 4096).0)
      ensures outcome == Done ==> Outlook() == old(FaultCourse(address / 4096).1)
      ensures outcome == Done ==> Valid() && Handled(old(View()), View(), address / 4096)
      ensures outcome == Done && Page(address / 4096) in old(tab) ==>
                View() == old(View()) && clockHand == old(clockHand)
      ensures outcome != Done ==> MayStick(old(View()), source.managed, regions.regions, address / 4096)
    {
      ghost var vm, hand, vp := View(), clockHand, address / 4096;
      PageAbove(vm, vp);
      var table;
      outcome, table := WalkDown(address);
      if outcome == Done {
        SameWay(vm, View(), vp);
        MacrosFollowTree(address);
        outcome := ServePage(table, PtIndex(address), vp, vm, hand);
      }
    }

    // How the fault on a page goes.
    ghost function FaultCourse(vp: nat): (Outcome, Face)
      requires clockHand <= |regions.regions|
      reads this, source, swap, swap.allocMap, swap.swapFile, regions
    {
      Course(Outlook(), regions.regions, vp, StateOf(View(), vp))
    }

    // petmem_handle_pagefault.
    method HandlePageFault(address: nat, errorCode: nat) returns (outcome: Outcome)
      requires Valid()
      modifies this, source.Repr, swap.allocMap, swap.swapFile
      ensures source.Repr == old(source.Repr)
      ensures outcome == Refused <==> errorCode == ERROR_PERMISSION || !old(Mapped(regions.regions, address))
      ensures outcome == Refused ==> Valid() && View() == old(View()) && clockHand == old(clockHand)
      ensures outcome != Refused ==> outcome == old(FaultCourse(address / 4096).0)
      ensures outcome == Done ==> Outlook() == old(FaultCourse(address / 4096).1)
      ensures outcome == Done ==> InRegion(address / 4096) && Valid()
      ensures outcome == Done ==> Handled(old(View()), View(), address / 4096)
      ensures outcome == Done ==> Usable(old(View()), View(), address / 4096)
      ensures outcome != Refused && Page(address / 4096) in old(tab) ==>
                outcome == Done && View() == old(View()) && clockHand == old(clockHand)
      ensures var needed := FramesNeeded(old(tab).Keys, address / 4096);
              outcome != Refused && needed <= old(FreeFrames()) ==>
                && outcome == Done && FreeFrames() >= old(FreeFrames()) - needed
                && NoneMoved(old(View()), View(), address / 4096)
      ensures outcome == Spins || outcome == SwapFull ==>
                MayStick(old(View()), source.managed, regions.regions, address / 4096)
    {
      var inUse := regions.CheckAddressRange(address);
      if !inUse || errorCode == ERROR_PERMISSION {
        return Refused;
      }
      UsedInRegion(regions.regions, address);
      ghost var vm, vp, f := View(), address / 4096, Outlook();
      if Page(vp) in tab { NothingNeeded(vm, vp); }
      if FramesNeeded(tab.Keys, vp) <= FreeFrames() { EnoughFree(f, regions.regions, vp, StateOf(vm, vp)); }
      outcome := ServeFault(address);
      if outcome == Done {
        HandledIsUsable(vm, View(), vp);
        if vm.tab.Keys <= tab.Keys { NothingEvicted(vm, View(), vp); }
      }
    }

    // --------------------------------------------------------------- the process

    // The processor's walk: a missing entry on any level is one fault, a right
    // missing in any of them another.
    method Translate(address: nat, store: bool) returns (w: Walk)
      requires Valid() && InRegion(address / 4096)
      ensures w == Missing <==> Page(address / 4096) !in tab
      ensures w == Granted <==> Permitted(View(), address / 4096, store)
    {
      ghost var vm, page := View(), Page(address / 4096);
      MacrosFollowTree(address);
      RegionTree(address / 4096);
      NotBelow(vm, page);
      Descend(vm, TOP);
      var e := mem[cr3][Pml4Index(address)];
      if !e.present {
        return Missing;
      }
      var allowed := Allows(e, store);
      Descend(vm, Parent(Parent(page)));
      e := mem[e.base][PdpIndex(address)];
      if !e.present {
        return Missing;
      }
      allowed := allowed && Allows(e, store);
      Descend(vm, Parent(page));
      e := mem[e.base][PdIndex(address)];
      if !e.present {
        return Missing;
      }
      allowed := allowed && Allows(e, store);
      Descend(vm, page);
      e := mem[e.base][PtIndex(address)];
      if !e.present {
        return Missing;
      }
      allowed := allowed && Allows(e, store);
      w := if allowed then Granted else Denied;
    }

    // The processor reads a page for the process and notes the access.
    method Load(address: nat) returns (bytes: Frame)
      requires Valid() && InRegion(address / 4096) && Permitted(View(), address / 4096, false)
      modifies `mem
      ensures Valid() && WasRead(old(View()), View(), address / 4096, bytes)
    {
      bytes := Read(address);
    }

    // The same, without regard to the allocator.
    method Read(address: nat) returns (bytes: Frame)
      requires Sound(None) && InRegion(address / 4096) && Permitted(View(), address / 4096, false)
      modifies `mem
      ensures Sound(None) && WasRead(old(View()), View(), address / 4096, bytes)
    {
      Descend(View(), Page(address / 4096));
      var ok, table, index := GetValidPageEntry(address, None);
      ghost var vm, page := View(), Page(address / 4096);
      var e := mem[table][index].(accessed := true);
      PageFrame(vm, address / 4096);
      bytes := mem[e.base];
      mem := SetWord(mem, table, index, e);
      ReadKeeps(vm, View(), address / 4096, e);
    }

    // The processor writes a page for the process.
    method Store(address: nat, bytes: Frame)
      requires Valid() && InRegion(address / 4096) && Permitted(View(), address / 4096, true)
      modifies `mem
      ensures Valid() && WasWritten(old(View()), View(), address / 4096, bytes)
    {
      Write(address, bytes);
    }

    method Write(address: nat, bytes: Frame)
      requires Sound(None) && InRegion(address / 4096) && Permitted(View(), address / 4096, true)
      modifies `mem
      ensures Sound(None) && WasWritten(old(View()), View(), address / 4096, bytes)
    {
      Descend(View(), Page(address / 4096));
      var ok, table, index := GetValidPageEntry(address, None);
      ghost var vm, page := View(), Page(address / 4096);
      var e := mem[table][index].(accessed := true, dirty := true);
      PageFrame(vm, address / 4096);
      mem := SetWord(mem, table, index, e);
      mem := mem[e.base := bytes];
      WriteKeeps(vm, View(), address / 4096, e, bytes);
    }

    // ----------------------------------------------------------------- ownership

    // Every resident page, and every table the module made, is a block of its own
    // handed out by exactly one pool.
    lemma FrameOwned(n: Node)
      requires Valid() && n in tab && tab[n] !in outside
      ensures var pa, pages := Bytes(tab[n]), source.pages;
              && pa in pages.live && pages.live[pa] == PAGE_SHIFT
              && (exists i: nat :: OwnedBy(pages.Views(), i, pa))
              && (forall m | m in tab && m != n :: tab[m] != tab[n])
    {
      var vm, pa, vs := View(), Bytes(tab[n]), source.pages.Views();
      assert NodeOk(vm, n);
      assert Tracks(source.pages.live, source.live, tab[n]) && OnePage(source.pages.live, pa);
      OneOwner(vs, source.pages.live, pa);
      forall m | m in tab && m != n
        ensures tab[m] != tab[n]
      {
        assert Unshared(vm, n, m);
      }
    }

    // ------------------------------------------------------------ virtual regions

    // petmem_alloc_vspace.  The hand is a pointer to a list node: it stays with
    // its node when a node is put in before it.
    method AllocVspace(numPages: nat) returns (addr: int)
      requires Valid() && numPages > 0
      modifies regions, `clockHand
      ensures Valid() && View() == old(View())
      ensures (regions.regions, addr) == Allocate(old(regions.regions), numPages)
      ensures clockHand == 0 <==> old(clockHand) == 0
      ensures clockHand > 0 ==>
                regions.regions[clockHand - 1].addr == old(regions.regions)[old(clockHand) - 1].addr
    {
      ghost var rs := regions.regions;
      AllocateKeeps(rs, REGION_START, REGION_END, numPages);
      NodesStay(rs, numPages, clockHand);
      if clockHand == 0 {
        addr := regions.AllocateRegion(numPages);
      } else {
        var handAddr := regions.regions[clockHand - 1].addr;
        addr := regions.AllocateRegion(numPages);
        if regions.regions[clockHand - 1].addr != handAddr {
          clockHand := clockHand + 1;
        }
      }
    }
  }
}
