// Every step of a page fault keeps the address space sound and loses no page.

module PagingSteps {
  import opened Options
  import opened PgTables
  import opened Swap
  import opened AddressSpace

  // The page's bytes are the same, in memory or in the swap file.
  predicate SamePage(vm: Vm, vm': Vm, vp: nat)
  {
    Content(vm', vp) == Content(vm, vp)
  }

  // All pages of the region but `except` keep their bytes.
  ghost predicate KeepsOthers(vm: Vm, vm': Vm, except: Option<nat>)
  {
    forall vp: nat | InRegion(vp) && except != Some(vp) :: SamePage(vm, vm', vp)
  }

  // No slot is lost: one no page is in was so before.
  ghost predicate OrphanKept(vm: Vm, vm': Vm, s: nat)
  {
    Orphan(vm', s) ==> Orphan(vm, s)
  }

  ghost predicate KeepsSlots(vm: Vm, vm': Vm)
  {
    |vm'.store.used| == |vm.store.used| && forall s: nat :: OrphanKept(vm, vm', s)
  }

  predicate SameState(vm: Vm, vm': Vm, vp: nat)
  {
    InRegion(vp) ==> StateOf(vm', vp) == StateOf(vm, vp)
  }

  lemma ClaimStays(vm: Vm, vm': Vm, flight: Option<nat>, s: nat, vp: nat)
    requires Holds(vm, flight, vp) && StateOf(vm, vp) == SwappedOut(s) && SameState(vm, vm', vp)
    ensures Claimed(vm', flight, s) && Claimed(vm', None, s)
  {
    assert Holds(vm', flight, vp) && Holds(vm', None, vp);
  }

  lemma SameStatesKeepSlots(vm: Vm, vm': Vm, flight: Option<nat>)
    requires forall vp: nat :: SameState(vm, vm', vp)
    requires vm'.store.used == vm.store.used && FlightOk(vm, flight)
    ensures KeepsSlots(vm, vm') && FlightOk(vm', flight)
  {
    forall s: nat, g: Option<nat> | Claimed(vm, g, s)
      ensures Claimed(vm', g, s)
    {
      var vp: nat :| Holds(vm, g, vp) && StateOf(vm, vp) == SwappedOut(s);
      ClaimStays(vm, vm', g, s, vp);
    }
    assert flight.Some? ==> SameState(vm, vm', flight.value);
    forall s: nat
      ensures OrphanKept(vm, vm', s)
    {
    }
  }

  // ------------------------------------------------------------------- flags

  // An entry rewritten without changing what it means.
  predicate SameMeaning(e: Pte, e': Pte)
  {
    e'.present == e.present && e'.base == e.base && (!e.present ==> e'.dirty == e.dirty)
  }

  lemma FlagsState(vm: Vm, c: Node, e: Pte, vp: nat)
    requires TreeOk(vm) && HasTable(vm, c) && SameMeaning(EntryOf(vm, c), e) && InRegion(vp)
    ensures StateOf(WriteEntry(vm, c, e), vp) == StateOf(vm, vp)
    ensures SamePage(vm, WriteEntry(vm, c, e), vp)
  {
    var page := Page(vp);
    if page in vm.tab {
      WriteEntryPages(vm, c, e, vp);
    } else if HasTable(vm, page) {
      WriteEntryOthers(vm, c, e, page);
      RegionTree(vp);
      assert EntryOk(vm, page);
    }
  }

  lemma FlagsKeep(vm: Vm, c: Node, e: Pte, flight: Option<nat>)
    requires VmOk(vm, flight) && HasTable(vm, c) && SameMeaning(EntryOf(vm, c), e)
    ensures VmOk(WriteEntry(vm, c, e), flight)
    ensures KeepsOthers(vm, WriteEntry(vm, c, e), None) && KeepsSlots(vm, WriteEntry(vm, c, e))
  {
    var vm' := WriteEntry(vm, c, e);
    forall vp: nat
      ensures SameState(vm, vm', vp)
    {
      if InRegion(vp) {
        FlagsState(vm, c, e, vp);
      }
    }
    SameStatesKeepSlots(vm, vm', flight);
    forall n: Node
      ensures NodeOk(vm', n)
    {
      assert NodeOk(vm, n);
    }
    forall d: Node
      ensures EntryOk(vm', d)
    {
      assert EntryOk(vm, d);
      if HasTable(vm, d) {
        WriteEntryOthers(vm, c, e, d);
      }
    }
    forall n: Node, m: Node
      ensures Unshared(vm', n, m)
    {
      assert Unshared(vm, n, m);
    }
    forall f: nat
      ensures Used(vm', f)
    {
      assert Used(vm, f);
    }
    forall vp: nat
      ensures SlotOk(vm', flight, vp)
      ensures InRegion(vp) ==> SamePage(vm, vm', vp)
    {
      assert SlotOk(vm, flight, vp);
      if InRegion(vp) {
        FlagsState(vm, c, e, vp);
      }
    }
    forall vp: nat, vq: nat
      ensures SlotsApart(vm', flight, vp, vq)
    {
      assert SlotsApart(vm, flight, vp, vq);
      if InRegion(vp) && InRegion(vq) {
        FlagsState(vm, c, e, vp);
        FlagsState(vm, c, e, vq);
      }
    }
  }

  // ------------------------------------------------------------------ attach

  // A fresh frame f with the given bytes becomes the child c of the tree.
  function Attach(vm: Vm, c: Node, f: nat, bytes: Frame, e: Pte): Vm
    requires HasTable(vm, c)
  {
    var w := WriteEntry(vm, c, e);
    w.(mem := w.mem[f := bytes], tab := w.tab[c := f], live := w.live + {f})
  }

  // c is a missing child of a table of the tree, f a frame nobody uses.
  ghost predicate Attachable(vm: Vm, c: Node, f: nat, bytes: Frame, e: Pte)
  {
    && Relevant(c) && c.level < 4 && HasTable(vm, c) && c !in vm.tab
    && f !in vm.live && f !in vm.outside
    && e.present && e.base == f
    && (c.level > 0 ==> bytes == ZeroFrame())
  }

  lemma AttachFresh(vm: Vm, c: Node, f: nat, bytes: Frame, e: Pte, n: Node)
    requires TreeOk(vm) && Attachable(vm, c, f, bytes, e) && n in vm.tab
    ensures vm.tab[n] != f
  {
    assert NodeOk(vm, n);
  }

  lemma AttachEntry(vm: Vm, c: Node, f: nat, bytes: Frame, e: Pte, d: Node)
    requires TreeOk(vm) && Attachable(vm, c, f, bytes, e)
    ensures var vm' := Attach(vm, c, f, bytes, e);
            && (HasTable(vm', d) <==> HasTable(vm, d) || Parent(d) == c)
            && (HasTable(vm, d) ==> EntryOf(vm', d) == if d == c then e else EntryOf(vm, d))
            && (Parent(d) == c ==> !HasTable(vm, d) && EntryOf(vm', d) == bytes[Index(d)])
  {
    if Parent(d) in vm.tab {
      AttachFresh(vm, c, f, bytes, e, Parent(d));
      AttachFresh(vm, c, f, bytes, e, Parent(c));
    }
    if HasTable(vm, d) {
      WriteEntryOthers(vm, c, e, d);
    }
  }

  lemma AttachTree(vm: Vm, c: Node, f: nat, bytes: Frame, e: Pte)
    requires TreeOk(vm) && Attachable(vm, c, f, bytes, e)
    ensures TreeOk(Attach(vm, c, f, bytes, e))
  {
    var vm' := Attach(vm, c, f, bytes, e);
    forall n: Node
      ensures NodeOk(vm', n)
    {
      assert NodeOk(vm, n);
    }
    forall d: Node
      ensures EntryOk(vm', d)
    {
      assert EntryOk(vm, d) && NodeOk(vm, d);
      AttachEntry(vm, c, f, bytes, e, d);
    }
    forall n: Node, m: Node
      ensures Unshared(vm', n, m)
    {
      assert Unshared(vm, n, m);
      if n in vm.tab {
        AttachFresh(vm, c, f, bytes, e, n);
      }
      if m in vm.tab {
        AttachFresh(vm, c, f, bytes, e, m);
      }
    }
    forall g: nat
      ensures Used(vm', g)
    {
      assert Used(vm, g);
      if g in vm.live {
        var n :| n in vm.tab && vm.tab[n] == g;
        assert n in vm'.tab && vm'.tab[n] == g;
      } else if g == f {
        assert c in vm'.tab && vm'.tab[c] == f;
      }
    }
  }

  // The new page has the bytes given; every other page is as before.  A new
  // table is empty.
  lemma AttachState(vm: Vm, c: Node, f: nat, bytes: Frame, e: Pte, vp: nat)
    requires TreeOk(vm) && Attachable(vm, c, f, bytes, e)
    ensures var vm' := Attach(vm, c, f, bytes, e);
            if c == Page(vp) then StateOf(vm', vp) == Resident(f) && Content(vm', vp) == Some(bytes)
            else StateOf(vm', vp) == StateOf(vm, vp) && SamePage(vm, vm', vp)
  {
    var vm', page := Attach(vm, c, f, bytes, e), Page(vp);
    if page in vm.tab {
      AttachFresh(vm, c, f, bytes, e, page);
      WriteEntryPages(vm, c, e, vp);
    } else if page != c {
      AttachEntry(vm, c, f, bytes, e, page);
    }
  }

  // Only a page not touched yet, or the one in flight, gets a frame.
  predicate MayAttach(vm: Vm, c: Node, flight: Option<nat>)
  {
    c.level == 0 ==> flight == Some(c.prefix) || StateOf(vm, c.prefix).Untouched?
  }

  lemma AttachSlots(vm: Vm, c: Node, f: nat, bytes: Frame, e: Pte, flight: Option<nat>)
    requires TreeOk(vm) && FlightOk(vm, flight) && Attachable(vm, c, f, bytes, e) && MayAttach(vm, c, flight)
    ensures var vm' := Attach(vm, c, f, bytes, e);
            && KeepsSlots(vm, vm')
            && FlightOk(vm', if c.level == 0 && flight == Some(c.prefix) then None else flight)
  {
    var vm' := Attach(vm, c, f, bytes, e);
    forall vp: nat | c != Page(vp)
      ensures SameState(vm, vm', vp)
    {
      AttachState(vm, c, f, bytes, e, vp);
    }
    assert c.level == 0 ==> c == Page(c.prefix);
    forall s: nat | Claimed(vm, flight, s)
      ensures Claimed(vm', flight, s) && Claimed(vm', None, s)
    {
      var vp: nat :| Holds(vm, flight, vp) && StateOf(vm, vp) == SwappedOut(s);
      ClaimStays(vm, vm', flight, s, vp);
    }
    forall s: nat | Claimed(vm, None, s) && s < |vm.store.used| && vm.store.used[s]
      ensures Claimed(vm', None, s)
    {
      var vp: nat :| Holds(vm, None, vp) && StateOf(vm, vp) == SwappedOut(s);
      if c != Page(vp) {
        ClaimStays(vm, vm', None, s, vp);
      }
    }
    forall s: nat
      ensures OrphanKept(vm, vm', s)
    {
    }
    if flight.Some? && c != Page(flight.value) {
      assert SameState(vm, vm', flight.value);
    }
  }

  lemma AttachKeeps(vm: Vm, c: Node, f: nat, bytes: Frame, e: Pte, flight: Option<nat>)
    requires VmOk(vm, flight) && Attachable(vm, c, f, bytes, e) && MayAttach(vm, c, flight)
    ensures var vm' := Attach(vm, c, f, bytes, e);
            && VmOk(vm', if c.level == 0 && flight == Some(c.prefix) then None else flight)
            && KeepsOthers(vm, vm', if c.level == 0 then Some(c.prefix) else None) && KeepsSlots(vm, vm')
            && (c.level == 0 ==> Content(vm', c.prefix) == Some(bytes))
  {
    var vm' := Attach(vm, c, f, bytes, e);
    var flight' := if c.level == 0 && flight == Some(c.prefix) then None else flight;
    AttachTree(vm, c, f, bytes, e);
    AttachSlots(vm, c, f, bytes, e, flight);
    forall vp: nat
      ensures SlotOk(vm', flight', vp)
      ensures if c == Page(vp) then Content(vm', vp) == Some(bytes) else SamePage(vm, vm', vp)
    {
      assert SlotOk(vm, flight, vp);
      AttachState(vm, c, f, bytes, e, vp);
    }
    forall vp: nat, vq: nat
      ensures SlotsApart(vm', flight', vp, vq)
    {
      assert SlotsApart(vm, flight, vp, vq);
      AttachState(vm, c, f, bytes, e, vp);
      AttachState(vm, c, f, bytes, e, vq);
    }
    assert c.level == 0 ==> c == Page(c.prefix);
  }

  // ------------------------------------------------------------------- evict

  // clear_up_memory's effect on a resident page: its bytes go to the slot, its
  // entry names the slot, its frame is free.
  function Evict(vm: Vm, vp: nat, e: Pte, store: Store<Frame>): Vm
    requires HasTable(vm, Page(vp)) && Page(vp) in vm.tab
  {
    var f := vm.tab[Page(vp)];
    WriteEntry(vm, Page(vp), e).(tab := vm.tab - {Page(vp)}, live := vm.live - {f}, store := store)
  }

  ghost predicate Evictable(vm: Vm, vp: nat, e: Pte, slot: nat)
  {
    && InRegion(vp) && Page(vp) in vm.tab && HasTable(vm, Page(vp))
    && !e.present && e.dirty && e.base == slot
  }

  lemma EvictEntry(vm: Vm, vp: nat, e: Pte, slot: nat, store: Store<Frame>, d: Node)
    requires TreeOk(vm) && Evictable(vm, vp, e, slot)
    ensures var vm' := Evict(vm, vp, e, store);
            && (HasTable(vm', d) <==> HasTable(vm, d))
            && (HasTable(vm, d) ==> EntryOf(vm', d) == if d == Page(vp) then e else EntryOf(vm, d))
  {
    if HasTable(vm, d) {
      WriteEntryOthers(vm, Page(vp), e, d);
    }
  }

  lemma EvictTree(vm: Vm, vp: nat, e: Pte, slot: nat, store: Store<Frame>)
    requires TreeOk(vm) && Evictable(vm, vp, e, slot)
    ensures TreeOk(Evict(vm, vp, e, store))
  {
    var vm' := Evict(vm, vp, e, store);
    forall n: Node
      ensures NodeOk(vm', n)
    {
      assert NodeOk(vm, n) && Unshared(vm, n, Page(vp));
    }
    forall d: Node
      ensures EntryOk(vm', d)
    {
      assert EntryOk(vm, d);
      EvictEntry(vm, vp, e, slot, store, d);
    }
    forall n: Node, m: Node
      ensures Unshared(vm', n, m)
    {
      assert Unshared(vm, n, m);
    }
    forall g: nat
      ensures Used(vm', g)
    {
      assert Used(vm, g);
      if g in vm'.live {
        var n :| n in vm.tab && vm.tab[n] == g;
        assert n in vm'.tab && vm'.tab[n] == g;
      }
    }
  }

  // The victim is swapped out to the slot; no other page moves.
  lemma EvictState(vm: Vm, vp: nat, e: Pte, slot: nat, store: Store<Frame>, vq: nat)
    requires TreeOk(vm) && Evictable(vm, vp, e, slot)
    ensures StateOf(Evict(vm, vp, e, store), vq) == if vq == vp then SwappedOut(slot) else StateOf(vm, vq)
  {
    EvictEntry(vm, vp, e, slot, store, Page(vq));
  }

  lemma EvictPages(vm: Vm, vp: nat, e: Pte, slot: nat, store: Store<Frame>, vq: nat)
    requires TreeOk(vm) && Evictable(vm, vp, e, slot) && vq != vp && Page(vq) in vm.tab
    ensures Content(Evict(vm, vp, e, store), vq) == Content(vm, vq)
  {
    WriteEntryPages(vm, Page(vp), e, vq);
    EvictState(vm, vp, e, slot, store, vq);
  }

  // The slot the victim goes to is claimed by the victim.
  lemma EvictSlots(vm: Vm, vp: nat, e: Pte, flight: Option<nat>)
    requires TreeOk(vm) && Sized(vm.store) && FlightOk(vm, flight) && HasFree(vm.store.used) && flight != Some(vp)
    requires Evictable(vm, vp, e, LeastFree(vm.store.used)) && vm.tab[Page(vp)] in vm.mem
    ensures var vm' := Evict(vm, vp, e, Out(vm.store, vm.mem[vm.tab[Page(vp)]]));
            KeepsSlots(vm, vm') && FlightOk(vm', flight)
  {
    var slot, store := LeastFree(vm.store.used), Out(vm.store, vm.mem[vm.tab[Page(vp)]]);
    var vm' := Evict(vm, vp, e, store);
    forall vq: nat
      ensures if vq == vp then Holds(vm', flight, vq) && Holds(vm', None, vq) && StateOf(vm', vq) == SwappedOut(slot)
              else SameState(vm, vm', vq)
    {
      EvictState(vm, vp, e, slot, store, vq);
    }
    EvictState(vm, vp, e, slot, store, vp);
    assert Holds(vm', flight, vp) && Holds(vm', None, vp);
    forall s: nat, g: Option<nat> | Claimed(vm, g, s)
      ensures Claimed(vm', g, s)
    {
      var vq: nat :| Holds(vm, g, vq) && StateOf(vm, vq) == SwappedOut(s);
      ClaimStays(vm, vm', g, s, vq);
    }
    forall s: nat
      ensures OrphanKept(vm, vm', s)
    {
    }
    assert flight.Some? ==> SameState(vm, vm', flight.value);
  }

  // With a free slot, eviction loses nothing.
  lemma EvictKeeps(vm: Vm, vp: nat, e: Pte, flight: Option<nat>)
    requires VmOk(vm, flight) && HasFree(vm.store.used) && flight != Some(vp)
    requires Evictable(vm, vp, e, LeastFree(vm.store.used)) && vm.tab[Page(vp)] in vm.mem
    ensures var vm' := Evict(vm, vp, e, Out(vm.store, vm.mem[vm.tab[Page(vp)]]));
            VmOk(vm', flight) && KeepsOthers(vm, vm', flight) && KeepsSlots(vm, vm')
  {
    var slot, store := LeastFree(vm.store.used), Out(vm.store, vm.mem[vm.tab[Page(vp)]]);
    var vm' := Evict(vm, vp, e, store);
    EvictTree(vm, vp, e, slot, store);
    EvictSlots(vm, vp, e, flight);
    forall vq: nat
      ensures SlotOk(vm', flight, vq)
      ensures InRegion(vq) && flight != Some(vq) ==> SamePage(vm, vm', vq)
    {
      assert SlotOk(vm, flight, vq);
      EvictState(vm, vp, e, slot, store, vq);
      if vq != vp && Page(vq) in vm.tab {
        EvictPages(vm, vp, e, slot, store, vq);
      }
    }
    forall vq: nat, vr: nat
      ensures SlotsApart(vm', flight, vq, vr)
    {
      assert SlotsApart(vm, flight, vq, vr) && SlotOk(vm, flight, vq) && SlotOk(vm, flight, vr);
      EvictState(vm, vp, e, slot, store, vq);
      EvictState(vm, vp, e, slot, store, vr);
    }
  }

  // With the swap map full the source ignores the failure and records slot 0.
  // The victim's bytes then survive exactly if slot 0 held them already; all
  // other pages do.
  lemma EvictWhenFull(vm: Vm, vp: nat, e: Pte)
    requires TreeOk(vm) && Sized(vm.store) && !HasFree(vm.store.used)
    requires Evictable(vm, vp, e, 0) && vm.tab[Page(vp)] in vm.mem
    ensures var page := vm.mem[vm.tab[Page(vp)]];
            var vm' := Evict(vm, vp, e, Out(vm.store, page));
            && TreeOk(vm') && KeepsOthers(vm, vm', Some(vp))
            && (SamePage(vm, vm', vp) <==> |vm.store.file| > 0 && vm.store.file[0] == page)
  {
    var page := vm.mem[vm.tab[Page(vp)]];
    var vm' := Evict(vm, vp, e, Out(vm.store, page));
    EvictTree(vm, vp, e, 0, vm.store);
    EvictState(vm, vp, e, 0, vm.store, vp);
    forall vq: nat | InRegion(vq) && vq != vp
      ensures SamePage(vm, vm', vq)
    {
      EvictState(vm, vp, e, 0, vm.store, vq);
      if Page(vq) in vm.tab {
        EvictPages(vm, vp, e, 0, vm.store, vq);
      }
    }
  }

  // ---------------------------------------------------------------- swap in

  // swap_in_page has copied the page out and freed its slot; the entry still
  // names the slot.
  lemma ReleaseKeeps(vm: Vm, vp: nat)
    requires VmOk(vm, None) && InRegion(vp) && StateOf(vm, vp).SwappedOut?
    ensures StateOf(vm, vp).slot < |vm.store.used| && |vm.store.file| == |vm.store.used|
    ensures Content(vm, vp) == Some(vm.store.file[StateOf(vm, vp).slot])
    ensures var vm' := vm.(store := In(vm.store, StateOf(vm, vp).slot));
            && VmOk(vm', Some(vp)) && KeepsOthers(vm, vm', Some(vp)) && HasFree(vm'.store.used)
            && KeepsSlots(vm, vm')
  {
    assert SlotOk(vm, None, vp);
    var s := StateOf(vm, vp).slot;
    var vm' := vm.(store := In(vm.store, s));
    forall t: nat
      ensures OrphanKept(vm, vm', t)
    {
      if Claimed(vm, None, t) {
        var vq: nat :| Holds(vm, None, vq) && StateOf(vm, vq) == SwappedOut(t);
        ClaimStays(vm, vm', None, t, vq);
      }
    }
    forall n: Node
      ensures NodeOk(vm', n)
    {
      assert NodeOk(vm, n);
    }
    forall d: Node
      ensures EntryOk(vm', d)
    {
      assert EntryOk(vm, d);
    }
    forall n: Node, m: Node
      ensures Unshared(vm', n, m)
    {
      assert Unshared(vm, n, m);
    }
    forall g: nat
      ensures Used(vm', g)
    {
      assert Used(vm, g);
    }
    forall vq: nat
      ensures SlotOk(vm', Some(vp), vq)
    {
      assert SlotOk(vm, None, vq) && SlotsApart(vm, None, vp, vq);
    }
    forall vq: nat, vr: nat
      ensures SlotsApart(vm', Some(vp), vq, vr)
    {
      assert SlotsApart(vm, None, vq, vr);
    }
    assert !vm'.store.used[s];
  }

  // -------------------------------------------------------------- user access

  // The process writes its resident page.
  function WritePage(vm: Vm, vp: nat, bytes: Frame): Vm
    requires Page(vp) in vm.tab
  {
    vm.(mem := vm.mem[vm.tab[Page(vp)] := bytes])
  }

  lemma WritePageKeeps(vm: Vm, vp: nat, bytes: Frame)
    requires VmOk(vm, None) && InRegion(vp) && Page(vp) in vm.tab
    ensures var vm' := WritePage(vm, vp, bytes);
            && VmOk(vm', None) && KeepsOthers(vm, vm', Some(vp)) && Content(vm', vp) == Some(bytes)
            && KeepsSlots(vm, vm')
  {
    var vm' := WritePage(vm, vp, bytes);
    forall n: Node
      ensures NodeOk(vm', n)
    {
      assert NodeOk(vm, n);
    }
    forall d: Node
      ensures EntryOk(vm', d)
      ensures HasTable(vm, d) ==> HasTable(vm', d) && EntryOf(vm', d) == EntryOf(vm, d)
    {
      assert EntryOk(vm, d) && Unshared(vm, Page(vp), Parent(d));
      assert NodeOk(vm, Page(vp));
    }
    forall n: Node, m: Node
      ensures Unshared(vm', n, m)
    {
      assert Unshared(vm, n, m);
    }
    forall g: nat
      ensures Used(vm', g)
    {
      assert Used(vm, g);
    }
    forall vq: nat
      ensures SlotOk(vm', None, vq)
      ensures vq != vp ==> SamePage(vm, vm', vq)
    {
      assert SlotOk(vm, None, vq) && Unshared(vm, Page(vp), Page(vq)) && NodeOk(vm, Page(vq));
    }
    assert forall vq: nat :: SameState(vm, vm', vq);
    SameStatesKeepSlots(vm, vm', None);
    forall vq: nat, vr: nat
      ensures SlotsApart(vm', None, vq, vr)
    {
      assert SlotsApart(vm, None, vq, vr);
    }
  }
}
