// A process's address space as values: physical frames, the page-table tree
// reached from CR3, and the swap store.  The invariant says that the tables are
// not shared, that every frame in use belongs to one page or table, and that
// every swapped-out page has a slot of its own.

module AddressSpace {
  import opened Options
  import opened PgTables
  import opened Swap

  // A frame is 512 words.  Each is shown as the entry it spells; Pack makes
  // entries and 64-bit words correspond one to one, so a data page loses
  // nothing by it.
  type Frame = f: seq<Pte> | |f| == 512 witness seq(512, _ => ZERO_PTE)

  // A frame after memset(frame, 0, 4096).
  function ZeroFrame(): (f: Frame)
    ensures forall i | 0 <= i < 512 :: f[i] == ZERO_PTE
  {
    seq(512, _ => ZERO_PTE)
  }

  // Its words are all zero, and it is the only such frame.
  lemma ZeroFrameIsZero(f: Frame)
    ensures f == ZeroFrame() <==> forall i | 0 <= i < 512 :: Pack(f[i]) == 0
  {
    forall i | 0 <= i < 512
      ensures f[i] == ZeroFrame()[i] <==> Pack(f[i]) == 0
    {
      ZeroWord(f[i]);
    }
  }

  // Pages of [PETMEM_REGION_START, PETMEM_REGION_END).
  const FIRST_PAGE: nat := 0x100_0000
  const END_PAGE: nat := 0x300_0000

  predicate InRegion(vp: nat)
  {
    FIRST_PAGE <= vp < END_PAGE
  }

  // ---------------------------------------------------------- tree positions

  // A position in the tree: level 4 is the PML4, 3 a PDP table, 2 a page
  // directory, 1 a page table, 0 a page; the prefix is the part of the page
  // number that leads there.
  datatype Node = Node(level: nat, prefix: nat)

  const ROOT: Node := Node(4, 0)

  function Lo(level: nat): nat
  {
    match level
    case 0 => 0x100_0000
    case 1 => 0x8000
    case 2 => 0x40
    case _ => 0
  }

  function Hi(level: nat): nat
  {
    match level
    case 0 => 0x2FF_FFFF
    case 1 => 0x1_7FFF
    case 2 => 0xBF
    case _ => 0
  }

  // The positions that some page of the region passes through.
  predicate Relevant(n: Node)
  {
    n.level <= 4 && Lo(n.level) <= n.prefix <= Hi(n.level)
  }

  function Parent(n: Node): Node
  {
    Node(n.level + 1, n.prefix / 512)
  }

  // Which entry of the parent's table leads to n.
  function Index(n: Node): nat
  {
    n.prefix % 512
  }

  function Page(vp: nat): Node
  {
    Node(0, vp)
  }

  lemma RelevantParent(n: Node)
    requires Relevant(n) && n.level < 4
    ensures Relevant(Parent(n))
  {
  }

  lemma SiblingsDiffer(c: Node, d: Node)
    requires Parent(c) == Parent(d) && Index(c) == Index(d)
    ensures c == d
  {
  }

  // The index macros pick, level by level, the entry on the way to the page.
  lemma MacrosFollowTree(va: nat)
    ensures var page := Page(va / 4096);
            && PtIndex(va) == Index(page)
            && PdIndex(va) == Index(Parent(page))
            && PdpIndex(va) == Index(Parent(Parent(page)))
            && Pml4Index(va) == Index(Parent(Parent(Parent(page))))
  {
    DivisionChain(va);
  }

  lemma RegionTree(vp: nat)
    requires InRegion(vp)
    ensures var page := Page(vp);
            && Relevant(page) && Relevant(Parent(page)) && Relevant(Parent(Parent(page)))
            && Relevant(Parent(Parent(Parent(page))))
            && Parent(Parent(Parent(page))) == Node(3, 0) && Parent(Node(3, 0)) == ROOT
  {
    var page := Page(vp);
    RelevantParent(page);
    RelevantParent(Parent(page));
    RelevantParent(Parent(Parent(page)));
    RelevantParent(Parent(Parent(Parent(page))));
  }

  // ------------------------------------------------------------------- state

  // tab: the frame of each position of the tree that is present.
  // outside: frames of tables set up by others; live: frames handed out by the
  // page allocator.
  datatype Vm = Vm(mem: map<nat, Frame>, tab: map<Node, nat>, outside: set<nat>, live: set<nat>, store: Store<Frame>)

  predicate HasTable(vm: Vm, c: Node)
  {
    Parent(c) in vm.tab && vm.tab[Parent(c)] in vm.mem
  }

  // The entry that leads, or would lead, to c.
  function EntryOf(vm: Vm, c: Node): Pte
    requires HasTable(vm, c)
  {
    vm.mem[vm.tab[Parent(c)]][Index(c)]
  }

  datatype PageState = Untouched | Resident(frame: nat) | SwappedOut(slot: nat)

  // What the tree says about a page: present = 0 and dirty = 1 means swapped
  // out, to the slot kept in the base field.
  function StateOf(vm: Vm, vp: nat): PageState
  {
    if Page(vp) in vm.tab then Resident(vm.tab[Page(vp)])
    else if HasTable(vm, Page(vp)) && EntryOf(vm, Page(vp)).dirty then SwappedOut(EntryOf(vm, Page(vp)).base)
    else Untouched
  }

  // The same, read off the word: bit 0 says that the page is there, and else bit 6
  // that it is in the swap file; bits 12 to 51 say where.
  lemma StateByWord(vm: Vm, vp: nat)
    requires TreeOk(vm) && InRegion(vp) && HasTable(vm, Page(vp))
    ensures var w := Pack(EntryOf(vm, Page(vp)));
            var place := w / 0x1000 % 0x100_0000_0000;
            StateOf(vm, vp) ==
              if w % 2 == 1 then Resident(place) else if w / 64 % 2 == 1 then SwappedOut(place) else Untouched
  {
    FlagsByBits(EntryOf(vm, Page(vp)));
    FieldsByBits(EntryOf(vm, Page(vp)));
    assert EntryOk(vm, Page(vp));
  }

  // The bytes of a page, wherever they are.
  function Content(vm: Vm, vp: nat): Option<Frame>
  {
    match StateOf(vm, vp)
    case Untouched => None
    case Resident(f) => if f in vm.mem then Some(vm.mem[f]) else None
    case SwappedOut(s) => if s < |vm.store.file| then Some(vm.store.file[s]) else None
  }

  // --------------------------------------------------------------- invariant

  predicate NodeOk(vm: Vm, n: Node)
  {
    n in vm.tab ==>
      && Relevant(n) && vm.tab[n] in vm.mem && (n.level < 4 ==> Parent(n) in vm.tab)
      && (vm.tab[n] in vm.live || (n.level > 0 && vm.tab[n] in vm.outside))
  }

  // The entry that leads to c is present exactly when c is in the tree, and
  // then points at its frame.
  predicate EntryOk(vm: Vm, c: Node)
  {
    Relevant(c) && c.level < 4 && HasTable(vm, c) ==>
      && (EntryOf(vm, c).present <==> c in vm.tab)
      && (c in vm.tab ==> EntryOf(vm, c).base == vm.tab[c])
  }

  predicate Unshared(vm: Vm, n: Node, m: Node)
  {
    n in vm.tab && m in vm.tab && n != m ==> vm.tab[n] != vm.tab[m]
  }

  // No leaks: a frame handed out is a table or page of the tree.
  ghost predicate Used(vm: Vm, f: nat)
  {
    f in vm.live ==> f !in vm.outside && exists n :: n in vm.tab && vm.tab[n] == f
  }

  // flight: a page whose slot has been given back but whose entry still names
  // it, in the middle of a swap-in.
  predicate Holds(vm: Vm, flight: Option<nat>, vp: nat)
  {
    InRegion(vp) && flight != Some(vp) && StateOf(vm, vp).SwappedOut?
  }

  predicate SlotOk(vm: Vm, flight: Option<nat>, vp: nat)
  {
    Holds(vm, flight, vp) ==> StateOf(vm, vp).slot < |vm.store.used| && vm.store.used[StateOf(vm, vp).slot]
  }

  predicate SlotsApart(vm: Vm, flight: Option<nat>, vp: nat, vq: nat)
  {
    Holds(vm, flight, vp) && Holds(vm, flight, vq) && vp != vq ==> StateOf(vm, vp).slot != StateOf(vm, vq).slot
  }

  // Some page other than the one in flight is in this slot.
  ghost predicate Claimed(vm: Vm, flight: Option<nat>, s: nat)
  {
    exists vp: nat :: Holds(vm, flight, vp) && StateOf(vm, vp) == SwappedOut(s)
  }

  // If the slot the page in flight came from is used again, then by another
  // page.
  ghost predicate FlightOk(vm: Vm, flight: Option<nat>)
  {
    flight.Some? && InRegion(flight.value) && StateOf(vm, flight.value).SwappedOut? ==>
      var s := StateOf(vm, flight.value).slot;
      s < |vm.store.used| && vm.store.used[s] ==> Claimed(vm, flight, s)
  }

  // A used slot no page is in.  There are some to begin with, whatever the swap
  // map says.
  ghost predicate Orphan(vm: Vm, s: nat)
  {
    s < |vm.store.used| && vm.store.used[s] && !Claimed(vm, None, s)
  }

  ghost predicate TreeOk(vm: Vm)
  {
    && ROOT in vm.tab
    && (forall n: Node :: NodeOk(vm, n))
    && (forall c: Node :: EntryOk(vm, c))
    && (forall n: Node, m: Node :: Unshared(vm, n, m))
    && (forall f: nat :: Used(vm, f))
  }

  ghost predicate SlotsOk(vm: Vm, flight: Option<nat>)
  {
    && Sized(vm.store) && FlightOk(vm, flight)
    && (forall vp: nat :: SlotOk(vm, flight, vp))
    && (forall vp: nat, vq: nat :: SlotsApart(vm, flight, vp, vq))
  }

  ghost predicate VmOk(vm: Vm, flight: Option<nat>)
  {
    TreeOk(vm) && SlotsOk(vm, flight)
  }

  // ------------------------------------------------------------ entry writes

  // Store a word of a frame.
  function SetWord(mem: map<nat, Frame>, f: nat, i: nat, e: Pte): map<nat, Frame>
    requires f in mem && i < 512
  {
    mem[f := mem[f][i := e]]
  }

  lemma LastWordStays(mem: map<nat, Frame>, f: nat, i: nat, d: Pte, e: Pte)
    requires f in mem && i < 512
    ensures SetWord(SetWord(mem, f, i, d), f, i, e) == SetWord(mem, f, i, e)
  {
    assert mem[f][i := d][i := e] == mem[f][i := e];
  }

  function WriteEntry(vm: Vm, c: Node, e: Pte): Vm
    requires HasTable(vm, c)
  {
    vm.(mem := SetWord(vm.mem, vm.tab[Parent(c)], Index(c), e))
  }

  // Writing one entry changes no other entry of the tree ...
  lemma WriteEntryOthers(vm: Vm, c: Node, e: Pte, d: Node)
    requires TreeOk(vm) && HasTable(vm, c) && HasTable(vm, d)
    ensures HasTable(WriteEntry(vm, c, e), d)
    ensures EntryOf(WriteEntry(vm, c, e), d) == if d == c then e else EntryOf(vm, d)
  {
    assert Unshared(vm, Parent(c), Parent(d));
    if Parent(c) == Parent(d) && Index(c) == Index(d) {
      SiblingsDiffer(c, d);
    }
  }

  // ... and no page.
  lemma WriteEntryPages(vm: Vm, c: Node, e: Pte, vp: nat)
    requires TreeOk(vm) && HasTable(vm, c) && Page(vp) in vm.tab
    ensures vm.tab[Page(vp)] in vm.mem
    ensures WriteEntry(vm, c, e).mem[vm.tab[Page(vp)]] == vm.mem[vm.tab[Page(vp)]]
  {
    assert Unshared(vm, Parent(c), Page(vp)) && NodeOk(vm, Page(vp));
  }
}
