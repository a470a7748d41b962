// What a fault and the process are made of: the steps that change an address
// space, when each can be taken, and what runs of them lead to.

module PagingTrace {
  import opened Options
  import opened PgTables
  import opened Swap
  import opened AddressSpace
  import opened PagingSteps

  // -------------------------------------------------------------------- steps

  // flight: a page on its way back from the swap file, whose slot is already
  // free; held: its bytes, or zeros.
  datatype State = State(vm: Vm, flight: Option<nat>, held: Frame)

  datatype Step =
    | SetFlags(c: Node, e: Pte)
    | NewTable(c: Node, f: nat, e: Pte)
    | FillPage(vp: nat, f: nat, e: Pte)
    | PutOut(vp: nat, e: Pte)
    | TakeBack(vp: nat)
    | PutIn(vp: nat, f: nat, e: Pte)
    | StorePage(vp: nat, bytes: Frame)

  // When the handler, or the processor, can take the step.  Nothing is said
  // about the address space being sound.
  ghost predicate Enabled(s: State, step: Step)
  {
    var vm := s.vm;
    match step
    case SetFlags(c, e) => HasTable(vm, c) && SameMeaning(EntryOf(vm, c), e)
    case NewTable(c, f, e) => s.flight == None && c.level > 0 && Attachable(vm, c, f, ZeroFrame(), e)
    case FillPage(vp, f, e) =>
      s.flight == None && StateOf(vm, vp).Untouched? && Attachable(vm, Page(vp), f, ZeroFrame(), e)
    case PutOut(vp, e) =>
      && Sized(vm.store) && HasFree(vm.store.used) && s.flight != Some(vp)
      && Evictable(vm, vp, e, LeastFree(vm.store.used)) && vm.tab[Page(vp)] in vm.mem
    case TakeBack(vp) =>
      && s.flight == None && InRegion(vp) && StateOf(vm, vp).SwappedOut? && Sized(vm.store)
      && StateOf(vm, vp).slot < |vm.store.used|
    case PutIn(vp, f, e) => s.flight == Some(vp) && Attachable(vm, Page(vp), f, s.held, e)
    case StorePage(vp, _) => s.flight == None && InRegion(vp) && Page(vp) in vm.tab
  }

  ghost function Next(s: State, step: Step): State
    requires Enabled(s, step)
  {
    var vm := s.vm;
    match step
    case SetFlags(c, e) => s.(vm := WriteEntry(vm, c, e))
    case NewTable(c, f, e) => s.(vm := Attach(vm, c, f, ZeroFrame(), e))
    case FillPage(vp, f, e) => s.(vm := Attach(vm, Page(vp), f, ZeroFrame(), e))
    case PutOut(vp, e) => s.(vm := Evict(vm, vp, e, Out(vm.store, vm.mem[vm.tab[Page(vp)]])))
    case TakeBack(vp) =>
      var slot := StateOf(vm, vp).slot;
      State(vm.(store := In(vm.store, slot)), Some(vp), vm.store.file[slot])
    case PutIn(vp, f, e) => State(Attach(vm, Page(vp), f, s.held, e), None, ZeroFrame())
    case StorePage(vp, bytes) => s.(vm := WritePage(vm, vp, bytes))
  }

  // The state after a run, if every step of it can be taken.
  ghost function Trace(s: State, steps: seq<Step>): Option<State>
  {
    if steps == [] then Some(s)
    else
      match Trace(s, steps[..|steps| - 1])
      case None => None
      case Some(t) => if Enabled(t, steps[|steps| - 1]) then Some(Next(t, steps[|steps| - 1])) else None
  }

  // A run that goes through has gone through every state before.
  lemma {:induction false} TraceThrough(s: State, steps: seq<Step>, k: nat)
    requires Trace(s, steps).Some? && k <= |steps|
    ensures Trace(s, steps[..k]).Some?
    decreases |steps|
  {
    if k < |steps| {
      TraceThrough(s, steps[..|steps| - 1], k);
      assert steps[..|steps| - 1][..k] == steps[..k];
    } else {
      assert steps[..k] == steps;
    }
  }

  // ------------------------------------------------------------ where runs lead

  ghost predicate Reaches(s: State, t: State)
  {
    exists steps :: Trace(s, steps) == Some(t)
  }

  lemma ReachesItself(s: State)
    ensures Reaches(s, s)
  {
    assert Trace(s, []) == Some(s);
  }

  lemma ReachesNext(s: State, t: State, step: Step)
    requires Reaches(s, t) && Enabled(t, step)
    ensures Reaches(s, Next(t, step))
  {
    var steps :| Trace(s, steps) == Some(t);
    assert (steps + [step])[..|steps|] == steps;
    assert Trace(s, steps + [step]) == Some(Next(t, step));
  }

  lemma {:induction false} ReachesTrans(s: State, t: State, u: State)
    requires Reaches(s, t) && Reaches(t, u)
    ensures Reaches(s, u)
  {
    var steps :| Trace(t, steps) == Some(u);
    ReachesAlong(s, t, steps);
  }

  lemma {:induction false} ReachesAlong(s: State, t: State, steps: seq<Step>)
    requires Reaches(s, t) && Trace(t, steps).Some?
    ensures Reaches(s, Trace(t, steps).value)
    decreases |steps|
  {
    if steps != [] {
      var init := steps[..|steps| - 1];
      ReachesAlong(s, t, init);
      ReachesNext(s, Trace(t, init).value, steps[|steps| - 1]);
    }
  }

  // With this page in flight all the while, or none.
  ghost predicate Leads(vm: Vm, vm': Vm, flight: Option<nat>)
  {
    forall held: Frame :: LeadsHolding(vm, vm', flight, held)
  }

  ghost predicate LeadsHolding(vm: Vm, vm': Vm, flight: Option<nat>, held: Frame)
  {
    (flight == None ==> held == ZeroFrame()) ==> Reaches(State(vm, flight, held), State(vm', flight, held))
  }

  // The page in flight, with these bytes, comes down; or none was in flight.
  ghost predicate Lands(vm: Vm, vm': Vm, flight: Option<nat>, bytes: Frame)
  {
    Reaches(State(vm, flight, if flight == None then ZeroFrame() else bytes), State(vm', None, ZeroFrame()))
  }

  // The page takes off.
  ghost predicate TakesOff(vm: Vm, vm': Vm, vp: nat, bytes: Frame)
  {
    Reaches(State(vm, None, ZeroFrame()), State(vm', Some(vp), bytes))
  }

  lemma LeadsItself(vm: Vm, flight: Option<nat>)
    ensures Leads(vm, vm, flight)
  {
    forall held: Frame
      ensures LeadsHolding(vm, vm, flight, held)
    {
      ReachesItself(State(vm, flight, held));
    }
  }

  lemma LeadsTrans(vm: Vm, vm1: Vm, vm2: Vm, flight: Option<nat>)
    requires Leads(vm, vm1, flight) && Leads(vm1, vm2, flight)
    ensures Leads(vm, vm2, flight)
  {
    forall held: Frame | flight == None ==> held == ZeroFrame()
      ensures LeadsHolding(vm, vm2, flight, held)
    {
      assert LeadsHolding(vm, vm1, flight, held) && LeadsHolding(vm1, vm2, flight, held);
      ReachesTrans(State(vm, flight, held), State(vm1, flight, held), State(vm2, flight, held));
    }
  }

  lemma LandsWithout(vm: Vm, vm': Vm, bytes: Frame)
    requires Lands(vm, vm', None, bytes)
    ensures Leads(vm, vm', None)
  {
  }

  lemma LandsLater(vm: Vm, vm1: Vm, vm2: Vm, flight: Option<nat>, bytes: Frame)
    requires Leads(vm, vm1, flight) && Lands(vm1, vm2, flight, bytes)
    ensures Lands(vm, vm2, flight, bytes)
  {
    var held := if flight == None then ZeroFrame() else bytes;
    assert LeadsHolding(vm, vm1, flight, held);
    ReachesTrans(State(vm, flight, held), State(vm1, flight, held), State(vm2, None, ZeroFrame()));
  }

  lemma ThereAndBack(vm: Vm, vm1: Vm, vm2: Vm, vp: nat, bytes: Frame)
    requires TakesOff(vm, vm1, vp, bytes) && Lands(vm1, vm2, Some(vp), bytes)
    ensures Leads(vm, vm2, None)
  {
    ReachesTrans(State(vm, None, ZeroFrame()), State(vm1, Some(vp), bytes), State(vm2, None, ZeroFrame()));
  }

  // --------------------------------------------------------------- single steps

  lemma FlagsLead(vm: Vm, c: Node, e: Pte, flight: Option<nat>)
    requires HasTable(vm, c) && SameMeaning(EntryOf(vm, c), e)
    ensures Leads(vm, WriteEntry(vm, c, e), flight)
  {
    forall held: Frame
      ensures LeadsHolding(vm, WriteEntry(vm, c, e), flight, held)
    {
      var s := State(vm, flight, held);
      ReachesItself(s);
      ReachesNext(s, s, SetFlags(c, e));
    }
  }

  lemma EvictLeads(vm: Vm, vp: nat, e: Pte, flight: Option<nat>)
    requires Enabled(State(vm, flight, ZeroFrame()), PutOut(vp, e))
    ensures Leads(vm, Evict(vm, vp, e, Out(vm.store, vm.mem[vm.tab[Page(vp)]])), flight)
  {
    forall held: Frame
      ensures LeadsHolding(vm, Evict(vm, vp, e, Out(vm.store, vm.mem[vm.tab[Page(vp)]])), flight, held)
    {
      var s := State(vm, flight, held);
      ReachesItself(s);
      ReachesNext(s, s, PutOut(vp, e));
    }
  }

  lemma AttachLands(vm: Vm, c: Node, f: nat, bytes: Frame, e: Pte, flight: Option<nat>)
    requires Attachable(vm, c, f, bytes, e) && MayAttach(vm, c, flight)
    requires if flight == None then bytes == ZeroFrame() else c.level == 0 && flight == Some(c.prefix)
    ensures Lands(vm, Attach(vm, c, f, bytes, e), flight, bytes)
  {
    var s := State(vm, flight, bytes);
    ReachesItself(s);
    if flight.Some? {
      ReachesNext(s, s, PutIn(c.prefix, f, e));
    } else if c.level == 0 {
      ReachesNext(s, s, FillPage(c.prefix, f, e));
    } else {
      ReachesNext(s, s, NewTable(c, f, e));
    }
  }

  lemma ReleaseTakesOff(vm: Vm, vp: nat)
    requires Enabled(State(vm, None, ZeroFrame()), TakeBack(vp))
    ensures var slot := StateOf(vm, vp).slot;
            TakesOff(vm, vm.(store := In(vm.store, slot)), vp, vm.store.file[slot])
  {
    var s := State(vm, None, ZeroFrame());
    ReachesItself(s);
    ReachesNext(s, s, TakeBack(vp));
  }

  lemma WriteLeads(vm: Vm, vp: nat, bytes: Frame)
    requires InRegion(vp) && Page(vp) in vm.tab
    ensures Leads(vm, WritePage(vm, vp, bytes), None)
  {
    var s := State(vm, None, ZeroFrame());
    ReachesItself(s);
    ReachesNext(s, s, StorePage(vp, bytes));
  }
}
