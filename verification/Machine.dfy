// The whole machine: the page allocator, the swap file, the region list and the
// fault handler put together, and a process that runs on them.

module Machine {
  import opened Options
  import opened Dyadic
  import opened PgTables
  import opened Swap
  import opened AddressSpace
  import opened Regions
  import opened FaultSpec
  import opened FaultCourse
  import opened PoolList
  import opened Petmem
  import opened Frames
  import opened Paging
  import opened Room
  import opened PagingTrace
  import opened PagingRuns

  // -------------------------------------------------------------------- start

  // The page numbers of a range of memory.
  function PageRange(first: nat, n: nat): (r: set<nat>)
    ensures forall f: nat :: f in r <==> first <= f < first + n
    ensures |r| == n
  {
    if n == 0 then {} else PageRange(first, n - 1) + {first + n - 1}
  }

  // Which of the blocks of these sizes the x-th page is in.
  lemma {:induction false} BlockOfPage(cut: seq<nat>, x: nat) returns (i: nat)
    requires x < Pages(cut)
    ensures i < |cut| && Pages(cut[..i]) <= x < Pages(cut[..i]) + Pow2(cut[i])
    decreases cut
  {
    if x < Pow2(cut[0]) {
      i := 0;
    } else {
      i := BlockOfPage(cut[1..], x - Pow2(cut[0]));
      i := i + 1;
      PagesStep(cut, i);
    }
  }

  lemma {:induction false} BlockInPages(cut: seq<nat>, i: nat)
    requires i < |cut|
    ensures Pages(cut[..i]) + Pow2(cut[i]) <= Pages(cut)
    decreases cut
  {
    if i > 0 {
      BlockInPages(cut[1..], i - 1);
      PagesStep(cut, i);
    }
  }

  // The i-th pool made of pages [first, first + n).
  lemma PoolAt(first: nat, n: nat, i: nat)
    requires i < |Cut(n)|
    ensures var rs := AddRanges([], Va(Bytes(first)), Cut(n));
            && |rs| == |Cut(n)|
            && rs[|rs| - 1 - i].base == Va(Bytes(first + Pages(Cut(n)[..i])))
            && Pow2(rs[|rs| - 1 - i].order) == Bytes(Pow2(Cut(n)[i]))
            && rs[|rs| - 1 - i].order == Cut(n)[i] + PAGE_SHIFT
  {
    AddRangesTile([], Va(Bytes(first)), Cut(n), i);
    Pow2Pages(Cut(n)[i]);
  }

  // Its frames are the pages of its block.
  lemma FramesOfPool(first: nat, n: nat, i: nat, f: nat)
    requires i < |Cut(n)|
    ensures var rs, start := AddRanges([], Va(Bytes(first)), Cut(n)), first + Pages(Cut(n)[..i]);
            |rs| == |Cut(n)| && (Manages(rs, |rs| - 1 - i, f) <==> start <= f < start + Pow2(Cut(n)[i]))
  {
    PoolAt(first, n, i);
  }

  lemma PageIsFrame(first: nat, n: nat, f: nat) returns (i: nat)
    requires first <= f < first + n
    ensures Manages(AddRanges([], Va(Bytes(first)), Cut(n)), i, f)
  {
    CutSum(n);
    var k := BlockOfPage(Cut(n), f - first);
    FramesOfPool(first, n, k, f);
    i := |Cut(n)| - 1 - k;
  }

  lemma FrameIsPage(first: nat, n: nat, i: nat, f: nat)
    requires Manages(AddRanges([], Va(Bytes(first)), Cut(n)), i, f)
    ensures first <= f < first + n
  {
    RangeCount(first, n);
    CutSum(n);
    FramesOfPool(first, n, |Cut(n)| - 1 - i, f);
    BlockInPages(Cut(n), |Cut(n)| - 1 - i);
  }

  // ADD_MEMORY makes every page of the range a frame, and nothing else.
  lemma FramesOfRange(first: nat, n: nat, rs: seq<Range>, f: nat)
    requires rs == AddRanges([], Va(Bytes(first)), Cut(n))
    ensures first <= f < first + n <==> exists i: nat :: Manages(rs, i, f)
  {
    if first <= f < first + n {
      var i := PageIsFrame(first, n, f);
    }
    if i: nat :| Manages(rs, i, f) {
      FrameIsPage(first, n, i, f);
    }
  }

  lemma RangeCount(first: nat, n: nat)
    ensures |AddRanges([], Va(Bytes(first)), Cut(n))| == |Cut(n)|
  {
    if Cut(n) != [] {
      AddRangesTile([], Va(Bytes(first)), Cut(n), 0);
    }
  }

  lemma Pow2Of19()
    ensures Pow2(19) == 0x8_0000
  {
    Pow2Pages(7);
    assert Pow2(3) == 8 && Pow2(5) == 32 && Pow2(7) == 128;
  }

  lemma VaAligned(page: nat)
    ensures Va(Bytes(page)) % 4096 == 0
  {
  }

  lemma SmallPools(first: nat, n: nat, i: nat)
    requires n < 0x8_0000 && i < |AddRanges([], Va(Bytes(first)), Cut(n))|
    ensures var r := AddRanges([], Va(Bytes(first)), Cut(n))[i];
            r.order <= 30 && r.base % 4096 == 0
  {
    RangeCount(first, n);
    var k := |Cut(n)| - 1 - i;
    PoolAt(first, n, k);
    VaAligned(first + Pages(Cut(n)[..k]));
    Pow2Of19();
    CutDescends(n, 19);
  }

  // The module is given n pages of memory and serves its first process.  With
  // n below 2^19 no pool exceeds 2^30 bytes.
  method Boot(first: nat, n: nat, root: nat, mem: map<nat, Frame>, swap: SwapSpace<Frame>) returns (p: Process)
    requires first > 0 && n < 0x8_0000 && first + n <= BASE_LIMIT && StartOk(mem, root)
    requires forall f | first <= f < first + n :: f in mem && f !in StartOutside(mem, root)
    requires swap.Valid() && swap.size <= 0x8_0000
    ensures fresh(p) && fresh(p.source.Repr) && fresh(p.regions) && p.swap == swap
    ensures p.Valid() && Shows(p.View(), map[]) && p.FreeFrames() == n
    ensures p.regions.regions == INITIAL && p.clockHand == 0
    ensures p.View() == StartVm(mem, root, swap.Contents()) && p.source.managed == PageRange(first, n)
  {
    var source := MakeFrames(first, n);
    var regions := new RegionList();
    StartSound(mem, root, swap.Contents());
    p := new Process(root, regions, swap, source, mem, StartTab(mem, root), StartOutside(mem, root));
  }

  method MakeFrames(first: nat, n: nat) returns (source: FrameSource)
    requires first > 0 && n < 0x8_0000
    ensures fresh(source.Repr) && source.Valid()
    ensures source.live == {} && source.managed == PageRange(first, n)
  {
    var pages := MakePages(first, n);
    source := MakeSource(pages, first, n);
  }

  method MakePages(first: nat, n: nat) returns (pages: PageAllocator)
    requires first > 0 && n < 0x8_0000
    ensures fresh(pages.Repr) && pages.Valid() && pages.live == map[]
    ensures pages.Ranges() == AddRanges([], Va(Bytes(first)), Cut(n))
  {
    pages := new PageAllocator();
    ghost var own := pages.Repr;
    ghost var added := pages.AddMemory(Bytes(first), n);
    assert fresh(own + added);
  }

  method MakeSource(pages: PageAllocator, first: nat, n: nat) returns (source: FrameSource)
    requires pages.Valid() && pages.live == map[] && first > 0 && n < 0x8_0000
    requires pages.Ranges() == AddRanges([], Va(Bytes(first)), Cut(n))
    ensures fresh(source) && source.Valid() && source.Repr == pages.Repr + {source}
    ensures source.live == {} && source.managed == PageRange(first, n)
  {
    forall i | 0 <= i < |pages.pools|
      ensures PageAligned(pages.Ranges(), i) && pages.pools[i].poolOrder <= 30
    {
      assert pages.Ranges()[i].order == pages.pools[i].poolOrder;
      SmallPools(first, n, i);
    }
    forall f: nat
      ensures FrameOf(pages.Ranges(), PageRange(first, n), f)
    {
      FramesOfRange(first, n, pages.Ranges(), f);
    }
    source := new FrameSource(pages, PageRange(first, n));
  }

  // ---------------------------------------------------------------- execution

  // The process reads or writes a page, or asks for a region.
  datatype Access = LoadAt(address: nat) | StoreAt(address: nat, bytes: Frame) | Request(pages: nat)

  datatype Reply = Loaded(bytes: Frame) | Stored | Given(addr: int)

  function PageOf(a: Access): nat
    requires !a.Request?
  {
    a.address / 4096
  }

  predicate StoresTo(a: Access, vp: nat)
  {
    a.StoreAt? && PageOf(a) == vp
  }

  // What the program last stored in the page, or zeros.
  function LastWritten(script: seq<Access>, vp: nat): Frame
  {
    if script == [] then ZeroFrame()
    else if StoresTo(script[|script| - 1], vp) then script[|script| - 1].bytes
    else LastWritten(script[..|script| - 1], vp)
  }

  // The region list after one access, and after all of the program's.
  function AfterOne(rs: seq<Region>, a: Access): seq<Region>
  {
    if a.Request? then Allocate(rs, a.pages).0 else rs
  }

  function RegionsAfter(rs: seq<Region>, script: seq<Access>): seq<Region>
  {
    if script == [] then rs else AfterOne(RegionsAfter(rs, script[..|script| - 1]), script[|script| - 1])
  }

  // What the program gets from its i-th access.
  function ReplyTo(rs: seq<Region>, script: seq<Access>, i: nat): Reply
    requires i < |script|
  {
    match script[i]
    case LoadAt(address) => Loaded(LastWritten(script[..i], address / 4096))
    case StoreAt(_, _) => Stored
    case Request(pages) => Given(Allocate(RegionsAfter(rs, script[..i]), pages).1)
  }

  lemma OneMore(script: seq<Access>, i: nat, rs: seq<Region>, vp: nat)
    requires i < |script|
    ensures LastWritten(script[..i + 1], vp) ==
              if StoresTo(script[i], vp) then script[i].bytes else LastWritten(script[..i], vp)
    ensures RegionsAfter(rs, script[..i + 1]) == AfterOne(RegionsAfter(rs, script[..i]), script[i])
  {
    assert script[..i + 1][..i] == script[..i];
  }

  // The i-th access was given the region that x is in.
  predicate GivenBy(rs: seq<Region>, script: seq<Access>, i: nat, x: nat)
    requires i < |script|
  {
    var reply := ReplyTo(rs, script, i);
    script[i].Request? && reply.Given? && 0 <= reply.addr <= x < reply.addr + 4096 * script[i].pages
  }

  lemma GivenLast(rs: seq<Region>, script: seq<Access>, n: nat, x: nat)
    requires |script| == n + 1
    ensures Mapped(RegionsAfter(rs, script), x) <==>
              Mapped(RegionsAfter(rs, script[..n]), x) || GivenBy(rs, script, n, x)
  {
    if script[n].Request? {
      AllocateMaps(RegionsAfter(rs, script[..n]), script[n].pages, x);
    }
  }

  lemma GivenBefore(rs: seq<Region>, script: seq<Access>, n: nat, i: nat, x: nat)
    requires i < n <= |script|
    ensures GivenBy(rs, script[..n], i, x) == GivenBy(rs, script, i, x)
  {
    assert script[..n][..i] == script[..i];
  }

  // What a program can fault in is what it was given, besides what was in use
  // before: nothing, at the start.
  lemma {:induction false} GivenExactly(rs: seq<Region>, script: seq<Access>, x: nat)
    ensures Mapped(RegionsAfter(rs, script), x) <==>
              Mapped(rs, x) || exists i: nat :: i < |script| && GivenBy(rs, script, i, x)
    decreases |script|
  {
    if script != [] {
      var n := |script| - 1;
      GivenExactly(rs, script[..n], x);
      GivenLast(rs, script, n, x);
      forall i: nat | i < n
        ensures GivenBy(rs, script[..n], i, x) == GivenBy(rs, script, i, x)
      {
        GivenBefore(rs, script, n, i, x);
      }
    }
  }

  predicate Agrees(m: Memory, script: seq<Access>, vp: nat)
  {
    LastWritten(script, vp) == if vp in m then m[vp] else ZeroFrame()
  }

  // The plain memory after an access: a page is there once it was touched.
  function Touch(m: Memory, a: Access): Memory
  {
    match a
    case LoadAt(_) => Filled(m, PageOf(a))
    case StoreAt(_, bytes) => Filled(m, PageOf(a))[PageOf(a) := bytes]
    case Request(_) => m
  }

  // A load gets the plain memory's bytes.
  predicate Served(m: Memory, a: Access, reply: Reply)
    requires !a.Request?
  {
    PageOf(a) in Touch(m, a) && reply == if a.LoadAt? then Loaded(Touch(m, a)[PageOf(a)]) else Stored
  }

  // What the signal handler passes on (si_code): nothing there, or no right.
  const NOT_PRESENT: nat := 1
  const NO_RIGHT: nat := 2

  // The rights the PML4 gives over the region.
  predicate OpenFor(vm: Vm, store: bool)
  {
    HasTable(vm, TOP) && Allows(EntryOf(vm, TOP), store)
  }

  // Bits 2 and, to write, 1 of its word.
  lemma OpenByWord(vm: Vm, store: bool)
    ensures OpenFor(vm, store) <==>
              HasTable(vm, TOP) &&
              var w := Pack(EntryOf(vm, TOP));
              w / 4 % 2 == 1 && (store ==> w / 2 % 2 == 1)
  {
    if HasTable(vm, TOP) {
      FlagsByBits(EntryOf(vm, TOP));
    }
  }

  // The page is there, or a fault on it is let through.
  ghost predicate Reachable(p: Process, a: Access)
    requires !a.Request?
    reads p, p.regions
  {
    Mapped(p.regions.regions, a.address) || Page(PageOf(a)) in p.tab
  }

  // Frames for this many accesses are free, or else there is room for these pages.
  ghost predicate Enough(p: Process, pages: set<nat>, accesses: nat, plenty: bool)
    reads p, p.source, p.swap, p.swap.allocMap, p.swap.swapFile, p.regions
  {
    if plenty then 4 * accesses <= p.FreeFrames()
    else Ample(p.View(), |p.source.managed|, p.regions.regions, pages)
  }

  // The access is to one of these pages; unless frames are plenty, it is to a page
  // where the clock looks.
  predicate Fitting(rs: seq<Region>, a: Access, pages: set<nat>, plenty: bool)
    requires !a.Request?
  {
    PageOf(a) in pages && (plenty || StartsRegion(rs, PageOf(a)))
  }

  // At the start there is room for any pages, given three frames and two for each
  // page, and an unused slot for each page.
  lemma EnoughAtStart(mem: map<nat, Frame>, root: nat, store: Store<Frame>, managed: nat, rs: seq<Region>,
                      pages: set<nat>)
    requires StartOk(mem, root) && 2 * |pages| + 3 <= managed
    requires |UsedSlots(store)| + |pages| <= |store.used|
    ensures Ample(StartVm(mem, root, store), managed, rs, pages)
  {
    var vm := StartVm(mem, root, store);
    assert Touched(vm) == {};
    SubsetSize(Orphans(vm), UsedSlots(store));
    TablesAtMost(pages);
    assert OwnedTables(vm) + TablesFor(pages) == TablesFor(pages);
  }

  function UsedSlots(store: Store<Frame>): set<nat>
  {
    set s: nat | s < |store.used| && store.used[s]
  }

  // A run of steps leads here, and the PML4's rights are the same.
  ghost predicate Continues(vm: Vm, vm': Vm)
  {
    Leads(vm, vm', None) && HasTable(vm, TOP) && HasTable(vm', TOP) && SameRights(EntryOf(vm, TOP), EntryOf(vm', TOP))
  }

  lemma ContinuesItself(vm: Vm)
    requires TreeOk(vm)
    ensures Continues(vm, vm)
  {
    TopTable(vm);
    LeadsItself(vm, None);
  }

  lemma ContinuesTrans(vm: Vm, vm1: Vm, vm2: Vm)
    requires Continues(vm, vm1) && Continues(vm1, vm2)
    ensures Continues(vm, vm2)
  {
    LeadsTrans(vm, vm1, vm2, None);
  }

  lemma StillEnough(managed: set<nat>, rs: seq<Region>, vm: Vm, vm': Vm, pages: set<nat>)
    requires Stays(vm, vm')
    ensures Ample(vm, |managed|, rs, pages) ==> Ample(vm', |managed|, rs, pages)
    ensures Continues(vm, vm')
  {
    if Ample(vm, |managed|, rs, pages) {
      AmpleStays(vm, vm', |managed|, rs, pages);
    }
  }

  // The access itself, once the processor lets it through.
  method Perform(p: Process, a: Access, ghost m: Memory, ghost pages: set<nat>, ghost more: nat, ghost plenty: bool)
    returns (reply: Reply)
    requires !a.Request? && p.Valid() && InRegion(PageOf(a)) && Permitted(p.View(), PageOf(a), a.StoreAt?)
    requires Shows(p.View(), Filled(m, PageOf(a)))
    modifies p`mem
    ensures p.Valid() && Continues(old(p.View()), p.View()) && Shows(p.View(), Touch(m, a))
    ensures Served(m, a, reply)
    ensures old(Enough(p, pages, more, plenty)) ==> Enough(p, pages, more, plenty)
  {
    ghost var vm, vp := p.View(), PageOf(a);
    match a {
      case LoadAt(address) =>
        var bytes := p.Load(address);
        reply := Loaded(bytes);
        ReadShows(vm, p.View(), vp, bytes, Filled(m, vp));
      case StoreAt(address, stored) =>
        reply := Stored;
        p.Store(address, stored);
        WriteShows(vm, p.View(), vp, stored, Filled(m, vp));
    }
    StillEnough(p.source.managed, p.regions.regions, vm, p.View(), pages);
  }

  // The fault on a page that is not there.
  method Summon(p: Process, a: Access, ghost m: Memory, ghost pages: set<nat>, ghost more: nat, ghost plenty: bool)
    returns (outcome: Outcome)
    requires !a.Request? && p.Valid() && Shows(p.View(), m)
    modifies p, p.source.Repr, p.swap.allocMap, p.swap.swapFile
    ensures p.source.Repr == old(p.source.Repr)
    ensures outcome == Refused <==> !old(Mapped(p.regions.regions, a.address))
    ensures outcome == Done || outcome == Refused ==> p.Valid() && Continues(old(p.View()), p.View())
    ensures outcome == Done ==> InRegion(PageOf(a)) && Page(PageOf(a)) in p.tab
    ensures outcome == Done ==> Shows(p.View(), Filled(m, PageOf(a)))
    ensures old(Enough(p, pages, more + 1, plenty) && Fitting(p.regions.regions, a, pages, plenty)) ==>
              outcome == Refused || (outcome == Done && Enough(p, pages, more, plenty))
  {
    ghost var vm, vp, rs := p.View(), PageOf(a), p.regions.regions;
    ghost var roomy := !plenty && Ample(vm, |p.source.managed|, rs, pages) && Fitting(rs, a, pages, plenty);
    ContinuesItself(vm);
    if roomy {
      AmpleNeverSticks(vm, p.source.managed, rs, pages, vp);
    }
    outcome := p.HandlePageFault(a.address, NOT_PRESENT);
    if outcome == Done {
      FaultShows(vm, p.View(), vp, m);
      if roomy {
        AmpleKept(vm, p.View(), |p.source.managed|, rs, pages, vp, Some(vp));
      }
    }
  }

  // The processor walks the tables.  If the page is missing there is a fault, and
  // it walks them again.
  method Arrive(p: Process, a: Access, ghost m: Memory, ghost pages: set<nat>, ghost more: nat, ghost plenty: bool)
    returns (outcome: Outcome, granted: bool)
    requires !a.Request? && p.Valid() && Shows(p.View(), m)
    modifies p, p.source.Repr, p.swap.allocMap, p.swap.swapFile
    ensures p.source.Repr == old(p.source.Repr)
    ensures outcome == Refused ==> !old(Reachable(p, a))
    ensures outcome == Done || outcome == Refused ==> p.Valid() && Continues(old(p.View()), p.View())
    ensures outcome == Done ==> old(Reachable(p, a)) && InRegion(PageOf(a)) && Page(PageOf(a)) in p.tab
    ensures outcome == Done ==> Shows(p.View(), Filled(m, PageOf(a)))
    ensures outcome == Done ==> (granted <==> Permitted(p.View(), PageOf(a), a.StoreAt?))
    ensures old(Enough(p, pages, more + 1, plenty) && Fitting(p.regions.regions, a, pages, plenty)) ==>
              outcome == Refused || (outcome == Done && Enough(p, pages, more, plenty))
  {
    ContinuesItself(p.View());
    assert NodeOk(p.View(), Page(PageOf(a)));
    if FIRST_PAGE <= PageOf(a) < END_PAGE {
      var w := p.Translate(a.address, a.StoreAt?);
      if w != Missing {
        AlreadyFilled(p.View(), PageOf(a), m);
        return Done, w == Granted;
      }
    }
    outcome := Summon(p, a, m, pages, more, plenty);
    granted := false;
    if outcome == Done {
      var w := p.Translate(a.address, a.StoreAt?);
      granted := w == Granted;
    }
  }

  // One access.  A missing right is a fault that is refused, and the process is
  // killed.
  method Serve(p: Process, a: Access, ghost m: Memory, ghost pages: set<nat>, ghost more: nat, ghost plenty: bool)
    returns (outcome: Outcome, reply: Reply)
    requires !a.Request? && p.Valid() && Shows(p.View(), m)
    modifies p, p.source.Repr, p.swap.allocMap, p.swap.swapFile
    ensures p.source.Repr == old(p.source.Repr)
    ensures outcome == Done || outcome == Refused ==> p.Valid() && Continues(old(p.View()), p.View())
    ensures outcome == Done ==> old(Reachable(p, a)) && OpenFor(old(p.View()), a.StoreAt?)
    ensures outcome == Refused ==> !(old(Reachable(p, a)) && OpenFor(old(p.View()), a.StoreAt?))
    ensures outcome == Done ==> Shows(p.View(), Touch(m, a)) && Served(m, a, reply)
    ensures old(Enough(p, pages, more + 1, plenty) && Fitting(p.regions.regions, a, pages, plenty)) ==>
              outcome == Refused || (outcome == Done && Enough(p, pages, more, plenty))
  {
    reply := Stored;
    var granted;
    outcome, granted := Arrive(p, a, m, pages, more, plenty);
    if outcome == Done {
      ghost var vm := p.View();
      ResidentIsPermitted(vm, PageOf(a), a.StoreAt?);
      if granted {
        reply := Perform(p, a, m, pages, more, plenty);
        ContinuesTrans(old(p.View()), vm, p.View());
      } else {
        outcome := p.HandlePageFault(a.address, NO_RIGHT);
      }
    }
  }

  lemma AlreadyFilled(vm: Vm, vp: nat, m: Memory)
    requires VmOk(vm, None) && InRegion(vp) && Page(vp) in vm.tab && Shows(vm, m)
    ensures Filled(m, vp) == m
  {
    TouchedHasContent(vm, vp);
    assert ShowsPage(vm, m, vp);
  }

  // The process asks for a region.
  method Grant(p: Process, numPages: nat, ghost pages: set<nat>, ghost more: nat, ghost plenty: bool)
    returns (addr: int)
    requires p.Valid() && numPages > 0
    modifies p.regions, p`clockHand
    ensures p.Valid() && p.View() == old(p.View())
    ensures (p.regions.regions, addr) == Allocate(old(p.regions.regions), numPages)
    ensures old(Enough(p, pages, more + 1, plenty)) ==> Enough(p, pages, more, plenty)
  {
    ghost var vm, rs := p.View(), p.regions.regions;
    if !plenty && Ample(vm, |p.source.managed|, rs, pages) {
      AmpleGrows(vm, |p.source.managed|, rs, numPages, pages);
    }
    addr := p.AllocVspace(numPages);
  }

  // ----------------------------------------------------------------- programs

  // The replies to a program that has come this far, and the plain memory it left.
  ghost predicate LogOk(rs: seq<Region>, script: seq<Access>, log: seq<Reply>, m: Memory)
  {
    && |log| <= |script|
    && (forall vp: nat :: Agrees(m, script[..|log|], vp))
    && forall i | 0 <= i < |log| :: log[i] == ReplyTo(rs, script, i)
  }

  predicate RightReply(rs: seq<Region>, a: Access, m: Memory, reply: Reply)
  {
    if a.Request? then reply == Given(Allocate(rs, a.pages).1) else Served(m, a, reply)
  }

  lemma LogStep(rs: seq<Region>, script: seq<Access>, log: seq<Reply>, m: Memory, reply: Reply)
    requires LogOk(rs, script, log, m) && |log| < |script|
    requires RightReply(RegionsAfter(rs, script[..|log|]), script[|log|], m, reply)
    ensures LogOk(rs, script, log + [reply], Touch(m, script[|log|]))
  {
    var i := |log|;
    var a, m', done := script[i], Touch(m, script[i]), script[..i + 1];
    forall vp: nat
      ensures Agrees(m', done, vp)
    {
      assert Agrees(m, script[..i], vp);
      OneMore(script, i, rs, vp);
    }
    assert !a.Request? ==> Agrees(m, script[..i], PageOf(a));
  }

  function PagesOf(script: seq<Access>): set<nat>
  {
    set a | a in script && !a.Request? :: PageOf(a)
  }

  // The PML4 lets the process make this access, these accesses.
  predicate AllowedOne(vm: Vm, a: Access)
  {
    !a.Request? ==> OpenFor(vm, a.StoreAt?)
  }

  predicate Allowed(vm: Vm, script: seq<Access>)
  {
    forall a | a in script :: AllowedOne(vm, a)
  }

  // Every access of the program is to a region in use by then; unless frames are
  // plenty, to the first page of one.
  ghost predicate Prepared(rs: seq<Region>, script: seq<Access>, plenty: bool)
    decreases |script|
  {
    script != [] ==>
      && (script[0].Request? || Mapped(rs, script[0].address))
      && (script[0].Request? || plenty || StartsRegion(rs, PageOf(script[0])))
      && Prepared(AfterOne(rs, script[0]), script[1..], plenty)
  }

  ghost predicate PreparedAt(rs: seq<Region>, script: seq<Access>, plenty: bool, i: nat)
    requires i < |script|
  {
    var now, a := RegionsAfter(rs, script[..i]), script[i];
    !a.Request? ==> Mapped(now, a.address) && (plenty || StartsRegion(now, a.address / 4096))
  }

  // Access by access.
  lemma {:induction false} PreparedExactly(rs: seq<Region>, script: seq<Access>, plenty: bool)
    ensures Prepared(rs, script, plenty) <==> forall i: nat | i < |script| :: PreparedAt(rs, script, plenty, i)
    decreases |script|
  {
    if script != [] {
      var rest, next := script[1..], AfterOne(rs, script[0]);
      PreparedExactly(next, rest, plenty);
      assert script[..0] == [];
      forall i: nat | i < |rest|
        ensures PreparedAt(next, rest, plenty, i) == PreparedAt(rs, script, plenty, i + 1)
      {
        RegionsFrom(rs, script, i + 1);
        assert script[..i + 1][1..] == rest[..i] && script[i + 1] == rest[i];
      }
      assert PreparedAt(rs, script, plenty, 0) <==>
        (script[0].Request? || (Mapped(rs, script[0].address) && (plenty || StartsRegion(rs, PageOf(script[0])))));
      if Prepared(rs, script, plenty) {
        forall i: nat | i < |script|
          ensures PreparedAt(rs, script, plenty, i)
        {
          assert i > 0 ==> PreparedAt(next, rest, plenty, i - 1);
        }
      }
      if forall i: nat | i < |script| :: PreparedAt(rs, script, plenty, i) {
        forall i: nat | i < |rest|
          ensures PreparedAt(next, rest, plenty, i)
        {
          assert PreparedAt(rs, script, plenty, i + 1);
        }
      }
    }
  }

  lemma {:induction false} RegionsFrom(rs: seq<Region>, script: seq<Access>, i: nat)
    requires 0 < i <= |script|
    ensures RegionsAfter(rs, script[..i]) == RegionsAfter(AfterOne(rs, script[0]), script[..i][1..])
    decreases i
  {
    var front := script[..i];
    if i == 1 {
      assert front[..0] == [] && front[1..] == [];
    } else {
      RegionsFrom(rs, script, i - 1);
      assert front[..i - 1] == script[..i - 1];
      assert front[1..][..i - 2] == script[..i - 1][1..] && front[1..][i - 2] == front[i - 1];
    }
  }

  // ... and there are frames for all of it, or room for its pages.
  ghost predicate Provided(p: Process, script: seq<Access>, pages: set<nat>, plenty: bool)
    reads p, p.source, p.swap, p.swap.allocMap, p.swap.swapFile, p.regions
  {
    Prepared(p.regions.regions, script, plenty) && Enough(p, pages, |script|, plenty)
  }

  // A program that began at vm and rs has come this far.  sure: it was provided
  // for.
  ghost predicate Going(p: Process, script: seq<Access>, log: seq<Reply>, vm: Vm, rs: seq<Region>, m: Memory,
                        sure: bool, plenty: bool)
    reads p, p.source, p.source.Repr, p.swap, p.swap.allocMap, p.swap.swapFile, p.regions
  {
    && p.Valid() && Shows(p.View(), m) && Continues(vm, p.View())
    && LogOk(rs, script, log, m) && p.regions.regions == RegionsAfter(rs, script[..|log|])
    && Allowed(vm, script[..|log|])
    && (sure ==> Provided(p, script[|log|..], PagesOf(script), plenty))
  }

  lemma SetsOut(p: Process, script: seq<Access>, sure: bool, plenty: bool)
    requires p.Valid() && Shows(p.View(), map[]) && (sure ==> Provided(p, script, PagesOf(script), plenty))
    ensures Going(p, script, [], p.View(), p.regions.regions, map[], sure, plenty)
  {
    ContinuesItself(p.View());
    assert script[0..] == script;
  }

  lemma AllowedStep(vm: Vm, script: seq<Access>, n: nat)
    requires n < |script| && Allowed(vm, script[..n]) && AllowedOne(vm, script[n])
    ensures Allowed(vm, script[..n + 1])
  {
    assert script[..n + 1] == script[..n] + [script[n]];
  }

  // The access is to a page that can be reached and that there is room for.
  ghost predicate Timely(rs: seq<Region>, a: Access, pages: set<nat>, plenty: bool)
  {
    !a.Request? ==> Mapped(rs, a.address) && Fitting(rs, a, pages, plenty)
  }

  lemma PreparedStep(rs: seq<Region>, script: seq<Access>, n: nat, plenty: bool)
    requires n < |script| && Prepared(rs, script[n..], plenty)
    ensures Timely(rs, script[n], PagesOf(script), plenty)
    ensures Prepared(AfterOne(rs, script[n]), script[n + 1..], plenty)
  {
    assert script[n..][0] == script[n] && script[n..][1..] == script[n + 1..];
    assert script[n] in script;
  }

  lemma GoesOn(vm: Vm, rs: seq<Region>, script: seq<Access>, log: seq<Reply>, m: Memory, reply: Reply)
    requires LogOk(rs, script, log, m) && |log| < |script| && Allowed(vm, script[..|log|])
    requires RightReply(RegionsAfter(rs, script[..|log|]), script[|log|], m, reply) && AllowedOne(vm, script[|log|])
    ensures LogOk(rs, script, log + [reply], Touch(m, script[|log|])) && Allowed(vm, script[..|log| + 1])
    ensures RegionsAfter(rs, script[..|log| + 1]) == AfterOne(RegionsAfter(rs, script[..|log|]), script[|log|])
  {
    OneMore(script, |log|, rs, 0);
    LogStep(rs, script, log, m, reply);
    AllowedStep(vm, script, |log|);
  }

  // One step of a program.
  method Turn(p: Process, a: Access, ghost m: Memory, ghost pages: set<nat>, ghost more: nat, ghost plenty: bool)
    returns (outcome: Outcome, reply: Reply)
    requires p.Valid() && Shows(p.View(), m) && (a.Request? ==> a.pages > 0)
    modifies p, p.regions, p.source.Repr, p.swap.allocMap, p.swap.swapFile
    ensures p.source.Repr == old(p.source.Repr)
    ensures outcome == Done ==> p.Valid() && Continues(old(p.View()), p.View()) && Shows(p.View(), Touch(m, a))
    ensures outcome == Done ==> p.regions.regions == AfterOne(old(p.regions.regions), a)
    ensures outcome == Done ==> RightReply(old(p.regions.regions), a, m, reply) && AllowedOne(old(p.View()), a)
    ensures old(Enough(p, pages, more + 1, plenty) && Timely(p.regions.regions, a, pages, plenty)) ==>
              if AllowedOne(old(p.View()), a) then outcome == Done && Enough(p, pages, more, plenty)
              else outcome == Refused
  {
    match a {
      case Request(n) =>
        ContinuesItself(p.View());
        var addr := Grant(p, n, pages, more, plenty);
        outcome, reply := Done, Given(addr);
      case _ =>
        outcome, reply := Serve(p, a, m, pages, more, plenty);
    }
  }

  method Advance(p: Process, script: seq<Access>, log: seq<Reply>, ghost vm: Vm, ghost rs: seq<Region>,
                 ghost m: Memory, ghost sure: bool, ghost plenty: bool)
    returns (outcome: Outcome, next: seq<Reply>, ghost m': Memory)
    requires Going(p, script, log, vm, rs, m, sure, plenty) && |log| < |script|
    requires forall a | a in script && a.Request? :: a.pages > 0
    modifies p, p.regions, p.source.Repr, p.swap.allocMap, p.swap.swapFile
    ensures p.source.Repr == old(p.source.Repr)
    ensures outcome == Done ==> Going(p, script, next, vm, rs, m', sure, plenty) && |next| == |log| + 1
    ensures outcome != Done ==> next == log
    ensures sure ==> outcome == if AllowedOne(vm, script[|log|]) then Done else Refused
  {
    ghost var n, now := |log|, p.View();
    assert script[n] in script;
    if sure { PreparedStep(p.regions.regions, script, n, plenty); }
    next, m' := log, m;
    var reply;
    outcome, reply := Turn(p, script[|log|], m, PagesOf(script), |script| - n - 1, plenty);
    if outcome == Done {
      ContinuesTrans(vm, now, p.View());
      GoesOn(vm, rs, script, log, m, reply);
      next, m' := log + [reply], Touch(m, script[n]);
    }
  }

  // A program on a machine just started.  Each load returns what the program last
  // stored in that page, or zeros, whatever was evicted and swapped in meanwhile,
  // and each request the lowest hole.  Provided for, it runs to its end exactly if
  // the PML4 lets it make the accesses it makes; else it is killed at the first it
  // may not make.  All it does, faults included, is a run of steps.
  method Execute(p: Process, script: seq<Access>) returns (outcome: Outcome, log: seq<Reply>)
    requires p.Valid() && Shows(p.View(), map[])
    requires forall a | a in script && a.Request? :: a.pages > 0
    modifies p, p.regions, p.source.Repr, p.swap.allocMap, p.swap.swapFile
    ensures |log| <= |script| && (outcome == Done <==> |log| == |script|)
    ensures outcome == Done ==> p.Valid() && Leads(old(p.View()), p.View(), None)
    ensures forall i | 0 <= i < |log| :: log[i] == ReplyTo(old(p.regions.regions), script, i)
    ensures Allowed(old(p.View()), script[..|log|])
    ensures (exists plenty :: old(Provided(p, script, PagesOf(script), plenty))) ==>
              if Allowed(old(p.View()), script) then outcome == Done
              else outcome == Refused && |log| < |script| && !AllowedOne(old(p.View()), script[|log|])
  {
    outcome, log := Done, [];
    ghost var vm, rs, m: Memory := p.View(), p.regions.regions, map[];
    ghost var plenty := Provided(p, script, PagesOf(script), true);
    ghost var sure := Provided(p, script, PagesOf(script), plenty);
    SetsOut(p, script, sure, plenty);
    while |log| < |script|
      invariant p.source.Repr == old(p.source.Repr) && outcome == Done
      invariant Going(p, script, log, vm, rs, m, sure, plenty)
    {
      outcome, log, m := Advance(p, script, log, vm, rs, m, sure, plenty);
      if outcome != Done {
        return;
      }
    }
    assert script[..|log|] == script;
  }
}
