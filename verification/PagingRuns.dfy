// Whole runs of the steps a fault and the process are made of: however pages are
// moved between memory and the swap file, the process sees a plain memory of
// pages.

module PagingRuns {
  import opened Options
  import opened Swap
  import opened AddressSpace
  import opened PagingSteps
  import opened PagingTrace
  import opened FaultSpec

  // ------------------------------------------------------------ plain memory

  // The process's memory as it should be: the pages touched so far.
  type Memory = map<nat, Frame>

  function Apply(m: Memory, step: Step): Memory
  {
    match step
    case FillPage(vp, _, _) => m[vp := ZeroFrame()]
    case StorePage(vp, bytes) => m[vp := bytes]
    case _ => m
  }

  function After(m: Memory, steps: seq<Step>): Memory
  {
    if steps == [] then m else Apply(After(m, steps[..|steps| - 1]), steps[|steps| - 1])
  }

  predicate ShowsPage(vm: Vm, m: Memory, vp: nat)
  {
    Content(vm, vp) == if vp in m then Some(m[vp]) else None
  }

  // The address space holds exactly this memory.
  ghost predicate Shows(vm: Vm, m: Memory)
  {
    forall vp: nat | InRegion(vp) :: ShowsPage(vm, m, vp)
  }

  // ... or all of it but the page in flight, whose bytes are held.
  predicate PageThere(s: State, m: Memory, vp: nat)
  {
    InRegion(vp) ==>
      if s.flight == Some(vp) then vp in m && m[vp] == s.held else ShowsPage(s.vm, m, vp)
  }

  ghost predicate Sound(s: State, m: Memory)
  {
    && VmOk(s.vm, s.flight) && (s.flight.Some? ==> InRegion(s.flight.value))
    && forall vp: nat :: PageThere(s, m, vp)
  }

  // A page has bytes exactly if it was touched.
  lemma TouchedHasContent(vm: Vm, vp: nat)
    requires VmOk(vm, None) && InRegion(vp)
    ensures StateOf(vm, vp).Untouched? <==> Content(vm, vp) == None
  {
    assert NodeOk(vm, Page(vp)) && SlotOk(vm, None, vp);
  }

  // The step keeps the address space sound.
  lemma NextKeeps(s: State, step: Step)
    requires VmOk(s.vm, s.flight) && Enabled(s, step)
    ensures VmOk(Next(s, step).vm, Next(s, step).flight) && KeepsSlots(s.vm, Next(s, step).vm)
  {
    match step {
      case SetFlags(c, e) => FlagsKeep(s.vm, c, e, s.flight);
      case NewTable(c, f, e) => AttachKeeps(s.vm, c, f, ZeroFrame(), e, None);
      case FillPage(vp, f, e) => AttachKeeps(s.vm, Page(vp), f, ZeroFrame(), e, None);
      case PutOut(vp, e) => EvictKeeps(s.vm, vp, e, s.flight);
      case TakeBack(vp) => ReleaseKeeps(s.vm, vp);
      case PutIn(vp, f, e) => AttachKeeps(s.vm, Page(vp), f, s.held, e, s.flight);
      case StorePage(vp, bytes) => WritePageKeeps(s.vm, vp, bytes);
    }
  }

  // The pages the step is about; all others keep their bytes.
  function About(step: Step): Option<nat>
  {
    match step
    case FillPage(vp, _, _) => Some(vp)
    case TakeBack(vp) => Some(vp)
    case PutIn(vp, _, _) => Some(vp)
    case StorePage(vp, _) => Some(vp)
    case _ => None
  }

  lemma NextKeepsOthers(s: State, step: Step, vp: nat)
    requires VmOk(s.vm, s.flight) && Enabled(s, step) && InRegion(vp)
    requires About(step) != Some(vp) && s.flight != Some(vp)
    ensures SamePage(s.vm, Next(s, step).vm, vp)
  {
    match step {
      case SetFlags(c, e) => FlagsKeep(s.vm, c, e, s.flight);
      case NewTable(c, f, e) => AttachKeeps(s.vm, c, f, ZeroFrame(), e, None);
      case FillPage(vq, f, e) => AttachKeeps(s.vm, Page(vq), f, ZeroFrame(), e, None);
      case PutOut(vq, e) => EvictKeeps(s.vm, vq, e, s.flight);
      case TakeBack(vq) => ReleaseKeeps(s.vm, vq);
      case PutIn(vq, f, e) => AttachKeeps(s.vm, Page(vq), f, s.held, e, s.flight);
      case StorePage(vq, bytes) => WritePageKeeps(s.vm, vq, bytes);
    }
  }

  lemma NextHasPage(s: State, step: Step, m: Memory, vp: nat)
    requires Sound(s, m) && Enabled(s, step) && About(step) == Some(vp)
    ensures InRegion(vp) && PageThere(Next(s, step), Apply(m, step), vp)
  {
    assert PageThere(s, m, vp);
    match step {
      case FillPage(_, f, e) => AttachKeeps(s.vm, Page(vp), f, ZeroFrame(), e, None);
      case TakeBack(_) => ReleaseKeeps(s.vm, vp);
      case PutIn(_, f, e) => AttachKeeps(s.vm, Page(vp), f, s.held, e, s.flight);
      case StorePage(_, bytes) => WritePageKeeps(s.vm, vp, bytes);
    }
  }

  lemma NextSound(s: State, step: Step, m: Memory)
    requires Sound(s, m) && Enabled(s, step)
    ensures Sound(Next(s, step), Apply(m, step))
  {
    var t, m' := Next(s, step), Apply(m, step);
    NextKeeps(s, step);
    if About(step).Some? {
      NextHasPage(s, step, m, About(step).value);
    }
    forall vp: nat
      ensures PageThere(t, m', vp)
    {
      assert PageThere(s, m, vp);
      if InRegion(vp) && About(step) != Some(vp) && s.flight != Some(vp) {
        NextKeepsOthers(s, step, vp);
      }
    }
  }

  // -------------------------------------------------------------------- runs

  // Any run of steps, evictions and swap-ins included, is a run of the plain
  // memory, and no slot of the swap file is lost in it.
  lemma {:induction false} RunRefinesMemory(s: State, steps: seq<Step>, m: Memory)
    requires Sound(s, m) && Trace(s, steps).Some?
    ensures Sound(Trace(s, steps).value, After(m, steps)) && KeepsSlots(s.vm, Trace(s, steps).value.vm)
    decreases |steps|
  {
    if steps != [] {
      var init, last := steps[..|steps| - 1], steps[|steps| - 1];
      RunRefinesMemory(s, init, m);
      var t := Trace(s, init).value;
      NextSound(t, last, After(m, init));
      NextKeeps(t, last);
      forall x: nat
        ensures OrphanKept(s.vm, Next(t, last).vm, x)
      {
        assert OrphanKept(s.vm, t.vm, x) && OrphanKept(t.vm, Next(t, last).vm, x);
      }
    }
  }

  // What was last stored in the page, or zeros.
  function LastStored(steps: seq<Step>, vp: nat): Frame
  {
    if steps == [] then ZeroFrame()
    else
      match steps[|steps| - 1]
      case StorePage(vq, bytes) => if vq == vp then bytes else LastStored(steps[..|steps| - 1], vp)
      case _ => LastStored(steps[..|steps| - 1], vp)
  }

  // In an address space untouched at first, a page is filled before anything is
  // stored in it, and only once.
  lemma {:induction false} AfterIsLastStored(s: State, steps: seq<Step>, vp: nat)
    requires Sound(s, map[]) && Trace(s, steps).Some? && InRegion(vp)
    ensures var m := After(map[], steps);
            if vp in m then m[vp] == LastStored(steps, vp) else LastStored(steps, vp) == ZeroFrame()
    decreases |steps|
  {
    if steps != [] {
      var init, last := steps[..|steps| - 1], steps[|steps| - 1];
      AfterIsLastStored(s, init, vp);
      RunRefinesMemory(s, init, map[]);
      var t := Trace(s, init).value;
      assert PageThere(t, After(map[], init), vp);
      if last.FillPage? && last.vp == vp {
        TouchedHasContent(t.vm, vp);
      }
    }
  }

  // No page is ever lost or mixed up with another: at any point of any run, a
  // page that was touched has the bytes last stored in it, or zeros, wherever it
  // is; one that was not has none.
  lemma PagesKept(s: State, steps: seq<Step>, vp: nat)
    requires Sound(s, map[]) && Trace(s, steps).Some? && InRegion(vp)
    ensures var t := Trace(s, steps).value;
            if vp !in After(map[], steps) then Content(t.vm, vp) == None
            else if t.flight == Some(vp) then t.held == LastStored(steps, vp)
            else Content(t.vm, vp) == Some(LastStored(steps, vp))
  {
    RunRefinesMemory(s, steps, map[]);
    AfterIsLastStored(s, steps, vp);
    assert PageThere(Trace(s, steps).value, After(map[], steps), vp);
  }

  // Nothing is shared at any point of any run: every resident page has a live
  // frame of its own, which is no table, and every page swapped out a used slot
  // of its own.
  lemma NothingShared(s: State, steps: seq<Step>, vp: nat, vq: nat)
    requires VmOk(s.vm, s.flight) && Trace(s, steps).Some?
    requires InRegion(vp) && InRegion(vq) && vp != vq
    ensures var t := Trace(s, steps).value;
            var vm := t.vm;
            && (Page(vp) in vm.tab ==> vm.tab[Page(vp)] in vm.live && vm.tab[Page(vp)] in vm.mem)
            && (Page(vp) in vm.tab ==> forall n | n in vm.tab && n != Page(vp) :: vm.tab[n] != vm.tab[Page(vp)])
            && (Holds(vm, t.flight, vp) ==>
                  StateOf(vm, vp).slot < |vm.store.used| && vm.store.used[StateOf(vm, vp).slot])
            && (Holds(vm, t.flight, vp) && Holds(vm, t.flight, vq) ==> StateOf(vm, vp) != StateOf(vm, vq))
  {
    RunKeeps(s, steps);
    var t := Trace(s, steps).value;
    var vm := t.vm;
    assert NodeOk(vm, Page(vp)) && SlotOk(vm, t.flight, vp) && SlotsApart(vm, t.flight, vp, vq);
    forall n | n in vm.tab && n != Page(vp)
      ensures Page(vp) in vm.tab ==> vm.tab[n] != vm.tab[Page(vp)]
    {
      assert Unshared(vm, n, Page(vp));
    }
  }

  lemma {:induction false} RunKeeps(s: State, steps: seq<Step>)
    requires VmOk(s.vm, s.flight) && Trace(s, steps).Some?
    ensures VmOk(Trace(s, steps).value.vm, Trace(s, steps).value.flight)
    decreases |steps|
  {
    if steps != [] {
      RunKeeps(s, steps[..|steps| - 1]);
      NextKeeps(Trace(s, steps[..|steps| - 1]).value, steps[|steps| - 1]);
    }
  }

  // Where the handler, or a whole program, leads is where some run ends, and that
  // run is sound at every point.
  lemma LedSoundly(vm: Vm, vm': Vm)
    requires VmOk(vm, None) && Leads(vm, vm', None)
    ensures exists steps :: SoundAlong(vm, steps) &&
              Trace(State(vm, None, ZeroFrame()), steps) == Some(State(vm', None, ZeroFrame()))
  {
    var s := State(vm, None, ZeroFrame());
    assert LeadsHolding(vm, vm', None, ZeroFrame());
    var steps :| Trace(s, steps) == Some(State(vm', None, ZeroFrame()));
    forall k: nat | k <= |steps|
      ensures SoundAt(s, steps, k)
    {
      TraceThrough(s, steps, k);
      RunKeeps(s, steps[..k]);
    }
  }

  ghost predicate SoundAt(s: State, steps: seq<Step>, k: nat)
    requires k <= |steps|
  {
    var t := Trace(s, steps[..k]);
    t.Some? && VmOk(t.value.vm, t.value.flight)
  }

  ghost predicate SoundAlong(vm: Vm, steps: seq<Step>)
  {
    forall k: nat | k <= |steps| :: SoundAt(State(vm, None, ZeroFrame()), steps, k)
  }

  // ------------------------------------------- what the handler's contract means

  // A fault touches the page.
  function Filled(m: Memory, vp: nat): Memory
  {
    if vp in m then m else m[vp := ZeroFrame()]
  }

  lemma FaultShows(vm: Vm, vm': Vm, vp: nat, m: Memory)
    requires VmOk(vm, None) && InRegion(vp) && Handled(vm, vm', vp) && Shows(vm, m)
    ensures Shows(vm', Filled(m, vp))
  {
    TouchedHasContent(vm, vp);
    assert ShowsPage(vm, m, vp);
    forall vq: nat | InRegion(vq)
      ensures ShowsPage(vm', Filled(m, vp), vq)
    {
      assert ShowsPage(vm, m, vq);
      assert vq != vp ==> SamePage(vm, vm', vq);
    }
  }

  lemma ReadShows(vm: Vm, vm': Vm, vp: nat, bytes: Frame, m: Memory)
    requires InRegion(vp) && WasRead(vm, vm', vp, bytes) && Shows(vm, m)
    ensures Shows(vm', m) && vp in m && bytes == m[vp]
  {
    assert ShowsPage(vm, m, vp);
    forall vq: nat | InRegion(vq)
      ensures ShowsPage(vm', m, vq)
    {
      assert ShowsPage(vm, m, vq) && SamePage(vm, vm', vq);
    }
  }

  lemma WriteShows(vm: Vm, vm': Vm, vp: nat, bytes: Frame, m: Memory)
    requires InRegion(vp) && WasWritten(vm, vm', vp, bytes) && Shows(vm, m)
    ensures Shows(vm', m[vp := bytes])
  {
    forall vq: nat | InRegion(vq)
      ensures ShowsPage(vm', m[vp := bytes], vq)
    {
      assert ShowsPage(vm, m, vq);
      assert vq != vp ==> SamePage(vm, vm', vq);
    }
  }

  // ------------------------------------------------------------------- start

  // A process as the module finds it.  Its PML4 may already lead to a table for
  // the range the region is in, set up for what else the process has there; the
  // region itself is empty.
  predicate StartOk(mem: map<nat, Frame>, root: nat)
  {
    && root in mem
    && (mem[root][0].present ==>
          && mem[root][0].base in mem && mem[root][0].base != root
          && forall i | 0x40 <= i < 0xC0 :: !mem[mem[root][0].base][i].present)
  }

  function StartTab(mem: map<nat, Frame>, root: nat): map<Node, nat>
    requires root in mem
  {
    if mem[root][0].present then map[ROOT := root, TOP := mem[root][0].base] else map[ROOT := root]
  }

  function StartOutside(mem: map<nat, Frame>, root: nat): set<nat>
    requires root in mem
  {
    if mem[root][0].present then {root, mem[root][0].base} else {root}
  }

  function StartVm(mem: map<nat, Frame>, root: nat, store: Store<Frame>): Vm
    requires root in mem
  {
    Vm(mem, StartTab(mem, root), StartOutside(mem, root), {}, store)
  }

  // It is a sound start, whatever memory and the swap map hold, and the rights
  // over the region are those of the PML4's entry.
  lemma StartSound(mem: map<nat, Frame>, root: nat, store: Store<Frame>)
    requires StartOk(mem, root) && Sized(store)
    ensures var vm := StartVm(mem, root, store);
            && VmOk(vm, None) && AllRightsOk(vm, None) && Shows(vm, map[])
            && HasTable(vm, TOP) && EntryOf(vm, TOP) == mem[root][0]
  {
    var vm := StartVm(mem, root, store);
    forall c: Node
      ensures EntryOk(vm, c)
    {
      StartEntry(mem, root, store, c);
    }
    forall vp: nat
      ensures SlotOk(vm, None, vp) && ShowsPage(vm, map[], vp)
    {
    }
  }

  lemma StartEntry(mem: map<nat, Frame>, root: nat, store: Store<Frame>, c: Node)
    requires StartOk(mem, root)
    ensures EntryOk(StartVm(mem, root, store), c)
  {
    var vm := StartVm(mem, root, store);
    if Relevant(c) && c.level < 4 && HasTable(vm, c) {
      if Parent(c) == ROOT {
        assert c == TOP;
      } else {
        assert Parent(c) == TOP && 0x40 <= Index(c) < 0xC0;
      }
    }
  }
}
