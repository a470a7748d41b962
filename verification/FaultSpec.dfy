// What handling a page fault may change: the relation every step of it keeps,
// and the access rights along the way to a page.

module FaultSpec {
  import opened Options
  import opened PgTables
  import opened Swap
  import opened AddressSpace
  import opened PagingSteps
  import opened PagingTrace
  import opened Clock

  // The root entry over the whole region.
  const TOP: Node := Node(3, 0)

  predicate Open(e: Pte)
  {
    e.user && e.writable
  }

  // What an entry lets the process do with what is below it.
  predicate Allows(e: Pte, store: bool)
  {
    e.user && (store ==> e.writable)
  }

  predicate SameRights(e: Pte, e': Pte)
  {
    e'.user == e.user && e'.writable == e.writable
  }

  // Entries below the PML4 let the process in and write.
  predicate RightsOk(vm: Vm, c: Node)
  {
    c in vm.tab && c.level <= 2 && HasTable(vm, c) ==> Open(EntryOf(vm, c))
  }

  ghost predicate AllRightsOk(vm: Vm, pending: Option<Node>)
  {
    forall c: Node | pending != Some(c) :: RightsOk(vm, c)
  }

  // The processor's check at one level.
  predicate Passes(vm: Vm, c: Node, store: bool)
  {
    HasTable(vm, c) && EntryOf(vm, c).present && Allows(EntryOf(vm, c), store)
  }

  // The process can access the page without another fault (section 4.6 of the
  // Intel SDM, volume 3A: every entry on the way must allow it).
  predicate Permitted(vm: Vm, vp: nat, store: bool)
  {
    var p1 := Parent(Page(vp));
    Passes(vm, Page(vp), store) && Passes(vm, p1, store) && Passes(vm, Parent(p1), store) && Passes(vm, TOP, store)
  }

  // At each level bits 0, 2 and, to write, 1 of the word must be set ...
  lemma PassesByWord(vm: Vm, c: Node, store: bool)
    ensures Passes(vm, c, store) <==>
              HasTable(vm, c) &&
              var w := Pack(EntryOf(vm, c));
              w % 2 == 1 && w / 4 % 2 == 1 && (store ==> w / 2 % 2 == 1)
  {
    if HasTable(vm, c) {
      FlagsByBits(EntryOf(vm, c));
    }
  }

  // ... and there are four: those of the page and of the tables above it.
  lemma PermittedByLevels(vm: Vm, vp: nat, store: bool)
    requires InRegion(vp)
    ensures var p1 := Parent(Page(vp));
            && Parent(Parent(Parent(p1))) == ROOT
            && (Permitted(vm, vp, store) <==>
                  && Passes(vm, Page(vp), store) && Passes(vm, p1, store)
                  && Passes(vm, Parent(p1), store) && Passes(vm, Parent(Parent(p1)), store))
  {
    RegionTree(vp);
  }

  // Tables stay where they are.
  predicate TableKept(vm: Vm, vm': Vm, n: Node)
  {
    n in vm.tab && n.level > 0 ==> n in vm'.tab && vm'.tab[n] == vm.tab[n]
  }

  // A page stays where it is, or a resident one is swapped out.
  predicate Moves(vm: Vm, vm': Vm, vp: nat)
  {
    StateOf(vm', vp) == StateOf(vm, vp) || (StateOf(vm, vp).Resident? && StateOf(vm', vp).SwappedOut?)
  }

  // Caching, execution and what is spare in an entry is nobody's business here.
  predicate SameAttributes(e: Pte, e': Pte)
  {
    e' == e.(present := e'.present, writable := e'.writable, user := e'.user, accessed := e'.accessed,
             dirty := e'.dirty, base := e'.base)
  }

  // The entry that leads to c, or what it will be in a new table.
  function EntryAt(vm: Vm, c: Node): Pte
  {
    if HasTable(vm, c) then EntryOf(vm, c) else ZERO_PTE
  }

  predicate AttributesKept(vm: Vm, vm': Vm, c: Node)
  {
    (HasTable(vm, c) ==> HasTable(vm', c)) && SameAttributes(EntryAt(vm, c), EntryAt(vm', c))
  }

  // One or more steps on the way to making `except` resident.
  ghost predicate Kept(vm: Vm, vm': Vm, except: Option<nat>)
  {
    && KeepsOthers(vm, vm', except)
    && (forall n: Node :: TableKept(vm, vm', n))
    && (forall vp: nat | InRegion(vp) && except != Some(vp) :: Moves(vm, vm', vp))
    && HasTable(vm, TOP) && HasTable(vm', TOP)
    && SameRights(EntryOf(vm, TOP), EntryOf(vm', TOP))
    && vm'.outside == vm.outside && KeepsSlots(vm, vm')
    && (forall c: Node :: AttributesKept(vm, vm', c))
  }

  lemma KeptRefl(vm: Vm, except: Option<nat>)
    requires HasTable(vm, TOP)
    ensures Kept(vm, vm, except)
  {
  }

  lemma KeptTrans(vm: Vm, vm1: Vm, vm2: Vm, except: Option<nat>)
    requires Kept(vm, vm1, except) && Kept(vm1, vm2, except)
    ensures Kept(vm, vm2, except)
  {
    forall n: Node
      ensures TableKept(vm, vm2, n)
    {
      assert TableKept(vm, vm1, n) && TableKept(vm1, vm2, n);
    }
    forall vp: nat | InRegion(vp) && except != Some(vp)
      ensures Moves(vm, vm2, vp) && SamePage(vm, vm2, vp)
    {
      assert Moves(vm, vm1, vp) && Moves(vm1, vm2, vp);
      assert SamePage(vm, vm1, vp) && SamePage(vm1, vm2, vp);
    }
    forall s: nat
      ensures OrphanKept(vm, vm2, s)
    {
      assert OrphanKept(vm, vm1, s) && OrphanKept(vm1, vm2, s);
    }
    forall c: Node
      ensures AttributesKept(vm, vm2, c)
    {
      assert AttributesKept(vm, vm1, c) && AttributesKept(vm1, vm2, c);
    }
  }

  lemma KeptWeaken(vm: Vm, vm': Vm, except: Option<nat>)
    requires Kept(vm, vm', None)
    ensures Kept(vm, vm', except)
  {
    forall vp: nat | InRegion(vp) && except != Some(vp)
      ensures Moves(vm, vm', vp) && SamePage(vm, vm', vp)
    {
    }
  }

  lemma KeptThen(vm: Vm, vm1: Vm, vm2: Vm, except: Option<nat>)
    requires Kept(vm, vm1, except) && Kept(vm1, vm2, None)
    ensures Kept(vm, vm2, except)
  {
    KeptWeaken(vm1, vm2, except);
    KeptTrans(vm, vm1, vm2, except);
  }

  // The entry on the way to a position of the tree says what the tree says.
  lemma Descend(vm: Vm, c: Node)
    requires TreeOk(vm) && Relevant(c) && c.level < 4 && Parent(c) in vm.tab
    ensures HasTable(vm, c)
    ensures EntryOf(vm, c).present <==> c in vm.tab
    ensures c in vm.tab ==> EntryOf(vm, c).base == vm.tab[c]
  {
    assert NodeOk(vm, Parent(c)) && EntryOk(vm, c);
  }

  lemma TopTable(vm: Vm)
    requires TreeOk(vm)
    ensures HasTable(vm, TOP)
  {
    Descend(vm, TOP);
  }

  // ------------------------------------------------------------ the clock's

  lemma ClearedKept(vm: Vm, vm': Vm, pages: set<nat>)
    requires TreeOk(vm) && TreeOk(vm') && Cleared(vm, vm', pages) && AllRightsOk(vm, None)
    ensures Kept(vm, vm', None) && AllRightsOk(vm', None)
  {
    TopTable(vm);
    TopTable(vm');
    assert ClearedEntry(vm, vm', pages, TOP);
    forall vp: nat
      ensures Moves(vm, vm', vp) && SameState(vm, vm', vp)
    {
      assert ClearedEntry(vm, vm', pages, Page(vp));
    }
    SameStatesKeepSlots(vm, vm', None);
    forall n: Node
      ensures TableKept(vm, vm', n) && RightsOk(vm', n) && AttributesKept(vm, vm', n)
    {
      assert RightsOk(vm, n) && ClearedEntry(vm, vm', pages, n);
    }
  }

  // Kept all the while, by steps a run can take.
  ghost predicate Advances(vm: Vm, vm': Vm, flight: Option<nat>)
  {
    Kept(vm, vm', flight) && Leads(vm, vm', flight)
  }

  lemma AdvancesNowhere(vm: Vm, flight: Option<nat>)
    requires TreeOk(vm)
    ensures Advances(vm, vm, flight)
  {
    TopTable(vm);
    KeptRefl(vm, flight);
    LeadsItself(vm, flight);
  }

  lemma AdvancesTrans(vm: Vm, vm1: Vm, vm2: Vm, flight: Option<nat>)
    requires Advances(vm, vm1, flight) && Advances(vm1, vm2, flight)
    ensures Advances(vm, vm2, flight)
  {
    KeptTrans(vm, vm1, vm2, flight);
    LeadsTrans(vm, vm1, vm2, flight);
  }

  // --------------------------------------------------------------- eviction

  lemma EvictKept(vm: Vm, vp: nat, e: Pte, slot: nat, store: Store<Frame>, except: Option<nat>)
    requires TreeOk(vm) && Evictable(vm, vp, e, slot) && AllRightsOk(vm, None)
    requires SameAttributes(EntryOf(vm, Page(vp)), e)
    requires KeepsOthers(vm, Evict(vm, vp, e, store), except) && KeepsSlots(vm, Evict(vm, vp, e, store))
    ensures var vm' := Evict(vm, vp, e, store);
            Kept(vm, vm', except) && AllRightsOk(vm', None)
  {
    var vm' := Evict(vm, vp, e, store);
    TopTable(vm);
    EvictEntry(vm, vp, e, slot, store, TOP);
    forall vq: nat
      ensures Moves(vm, vm', vq)
    {
      EvictState(vm, vp, e, slot, store, vq);
    }
    forall n: Node
      ensures TableKept(vm, vm', n) && RightsOk(vm', n) && AttributesKept(vm, vm', n)
    {
      assert RightsOk(vm, n);
      EvictEntry(vm, vp, e, slot, store, n);
    }
  }

  // The page's entry now names the lowest free slot, or slot 0 if there is none,
  // and is as open as before; its frame is free.
  predicate Evicted(vm: Vm, vm': Vm, vp: nat)
  {
    && Page(vp) in vm.tab && vm'.tab == vm.tab - {Page(vp)}
    && vm.tab[Page(vp)] in vm.live && vm'.live == vm.live - {vm.tab[Page(vp)]}
    && StateOf(vm', vp) == SwappedOut(if HasFree(vm.store.used) then LeastFree(vm.store.used) else 0)
    && Open(EntryAt(vm', Page(vp)))
  }

  // The bytes of the resident page vp are gone, unless slot 0 held the same;
  // every other page is as it was.
  ghost predicate Lost(vm: Vm, vm': Vm, vp: nat)
  {
    && KeepsOthers(vm, vm', Some(vp))
    && (SamePage(vm, vm', vp) <==> |vm.store.file| > 0 && Content(vm, vp) == Some(vm.store.file[0]))
  }

  // ----------------------------------------------------------------- attach

  lemma AttachKept(vm: Vm, c: Node, f: nat, bytes: Frame, e: Pte, except: Option<nat>)
    requires TreeOk(vm) && Attachable(vm, c, f, bytes, e) && AllRightsOk(vm, None)
    requires c.level == 0 ==> except == Some(c.prefix)
    requires SameAttributes(EntryOf(vm, c), e) && (c == TOP ==> SameRights(EntryOf(vm, c), e))
    requires KeepsSlots(vm, Attach(vm, c, f, bytes, e))
    ensures var vm' := Attach(vm, c, f, bytes, e);
            Kept(vm, vm', except) && AllRightsOk(vm', Some(c))
  {
    var vm' := Attach(vm, c, f, bytes, e);
    TopTable(vm);
    AttachEntry(vm, c, f, bytes, e, TOP);
    forall vp: nat | InRegion(vp) && except != Some(vp)
      ensures Moves(vm, vm', vp) && SamePage(vm, vm', vp)
    {
      AttachState(vm, c, f, bytes, e, vp);
      assert c.level == 0 ==> c == Page(c.prefix);
    }
    forall n: Node
      ensures TableKept(vm, vm', n) && AttributesKept(vm, vm', n)
    {
      AttachEntry(vm, c, f, bytes, e, n);
    }
    forall n: Node | n != c
      ensures RightsOk(vm', n)
    {
      assert RightsOk(vm, n) && NodeOk(vm, n);
      AttachEntry(vm, c, f, bytes, e, n);
    }
  }

  // Opening an entry below the root.
  lemma OpenKept(vm: Vm, c: Node, e: Pte, flight: Option<nat>)
    requires VmOk(vm, flight) && AllRightsOk(vm, Some(c)) && c.level <= 2 && HasTable(vm, c)
    requires SameMeaning(EntryOf(vm, c), e) && Open(e) && SameAttributes(EntryOf(vm, c), e)
    ensures var vm' := WriteEntry(vm, c, e);
            VmOk(vm', flight) && Kept(vm, vm', None) && AllRightsOk(vm', None) && Leads(vm, vm', None)
  {
    var vm' := WriteEntry(vm, c, e);
    FlagsKeep(vm, c, e, flight);
    FlagsLead(vm, c, e, None);
    TopTable(vm);
    WriteEntryOthers(vm, c, e, TOP);
    forall vp: nat | InRegion(vp)
      ensures Moves(vm, vm', vp)
    {
      FlagsState(vm, c, e, vp);
    }
    forall n: Node
      ensures TableKept(vm, vm', n) && RightsOk(vm', n) && AttributesKept(vm, vm', n)
    {
      assert n != c ==> RightsOk(vm, n);
      if HasTable(vm, n) {
        WriteEntryOthers(vm, c, e, n);
      }
    }
  }

  // ----------------------------------------------------------------- result

  // A resident page can be used exactly as the PML4's entry allows.
  lemma ResidentIsPermitted(vm: Vm, vp: nat, store: bool)
    requires VmOk(vm, None) && AllRightsOk(vm, None) && InRegion(vp) && Page(vp) in vm.tab
    ensures HasTable(vm, TOP) && (Permitted(vm, vp, store) <==> Allows(EntryOf(vm, TOP), store))
  {
    var page := Page(vp);
    var p1 := Parent(page);
    var p2 := Parent(p1);
    RegionTree(vp);
    assert NodeOk(vm, page) && NodeOk(vm, p1) && NodeOk(vm, p2) && NodeOk(vm, Parent(p2));
    assert EntryOk(vm, page) && EntryOk(vm, p1) && EntryOk(vm, p2) && EntryOk(vm, TOP);
    assert RightsOk(vm, page) && RightsOk(vm, p1) && RightsOk(vm, p2);
    TopTable(vm);
  }

  // The tables and the page a fault brings in.
  predicate OnPath(n: Node, vp: nat)
  {
    n == TOP || n == Parent(Parent(Page(vp))) || n == Parent(Page(vp)) || n == Page(vp)
  }

  predicate NewOnPath(vm: Vm, vm': Vm, vp: nat, n: Node)
  {
    n in vm'.tab && n !in vm.tab ==> OnPath(n, vp)
  }

  // Nothing but them becomes reachable.
  ghost predicate OnlyPath(vm: Vm, vm': Vm, vp: nat)
  {
    forall n: Node :: NewOnPath(vm, vm', vp, n)
  }

  lemma OnlyPathTrans(vm: Vm, vm1: Vm, vm2: Vm, vp: nat)
    requires OnlyPath(vm, vm1, vp) && OnlyPath(vm1, vm2, vp)
    ensures OnlyPath(vm, vm2, vp)
  {
    forall n: Node
      ensures NewOnPath(vm, vm2, vp, n)
    {
      assert NewOnPath(vm, vm1, vp, n) && NewOnPath(vm1, vm2, vp, n);
    }
  }

  // What a fault that has been handled has done: a run of steps, that leads to
  // the page.
  ghost predicate Handled(vm: Vm, vm': Vm, vp: nat)
  {
    && VmOk(vm', None) && Kept(vm, vm', Some(vp)) && Leads(vm, vm', None)
    && Page(vp) in vm'.tab && OnlyPath(vm, vm', vp)
    && Content(vm', vp) == (if StateOf(vm, vp).Untouched? then Some(ZeroFrame()) else Content(vm, vp))
    && (Page(vp) !in vm.tab ==> !EntryAt(vm', Page(vp)).dirty)
  }

  // Below the PML4 the way to the page is open; the PML4's own entry is left as
  // it was, so the process can use the page exactly as that one allows.
  predicate Usable(vm: Vm, vm': Vm, vp: nat)
  {
    HasTable(vm, TOP) && forall store :: Permitted(vm', vp, store) <==> Allows(EntryOf(vm, TOP), store)
  }

  // ------------------------------------------------------------- user access

  // No page or table moves, and no right over the region changes.
  ghost predicate Stays(vm: Vm, vm': Vm)
  {
    && vm' == vm.(mem := vm'.mem) && vm'.mem.Keys == vm.mem.Keys && Leads(vm, vm', None)
    && HasTable(vm, TOP) && HasTable(vm', TOP) && SameRights(EntryOf(vm, TOP), EntryOf(vm', TOP))
    && (forall vp: nat :: SameState(vm, vm', vp))
    && forall c: Node :: AttributesKept(vm, vm', c)
  }

  // The clock will see that the page was used.
  ghost predicate Noted(vm: Vm, vm': Vm, vp: nat)
  {
    Seen(vm') == Seen(vm).(accessed := Seen(vm).accessed + {vp})
  }

  // The page was resident; nothing but flags changed.
  ghost predicate WasRead(vm: Vm, vm': Vm, vp: nat, bytes: Frame)
  {
    && VmOk(vm', None) && Stays(vm, vm') && KeepsOthers(vm, vm', None) && Content(vm, vp) == Some(bytes)
    && Noted(vm, vm', vp) && EntryAt(vm', Page(vp)).dirty == EntryAt(vm, Page(vp)).dirty
  }

  ghost predicate WasWritten(vm: Vm, vm': Vm, vp: nat, bytes: Frame)
  {
    && VmOk(vm', None) && Stays(vm, vm') && KeepsOthers(vm, vm', Some(vp)) && Content(vm', vp) == Some(bytes)
    && Noted(vm, vm', vp) && EntryAt(vm', Page(vp)).dirty
  }
}
