// The course of a fault: how it ends, which pages go to which slots on the way,
// and where that leaves the clock, as a function of what little it depends on.

module FaultCourse {
  import opened Options
  import opened Swap
  import opened AddressSpace
  import opened Regions
  import opened Clock
  import opened FaultSpec

  // Spins: the clock would sweep for ever.  SwapFull: the source would go on and
  // lose the victim; the model stops.
  datatype Outcome = Done | Refused | Spins | SwapFull

  // What decides the course: what the clock goes by, its hand, how many frames
  // are free, and the slots in use.
  datatype Face = Face(sight: Sight, hand: nat, free: nat, used: seq<bool>)

  ghost function FaceOf(vm: Vm, managed: set<nat>, hand: nat): Face
  {
    Face(Seen(vm), hand, |managed - vm.live|, vm.store.used)
  }

  // The page the clock stops at, if it stops.
  function Choice(f: Face, rs: seq<Region>): (p: Option<nat>)
    requires f.hand <= |rs|
    ensures p.Some? ==> IsResident(f.sight, p) && p in SweepOrder(rs, f.hand)
    ensures p == None <==> forall q :: q in SweepOrder(rs, f.hand) ==> !IsResident(f.sight, q)
  {
    var order := SweepOrder(rs, f.hand);
    VictimExistsExactly(f.sight, order);
    if Victim(f.sight, order) < |order| then order[Victim(f.sight, order)] else None
  }

  // The clock's sweep: the bits it clears, and its hand behind the victim.
  ghost function Swept(f: Face, rs: seq<Region>): (g: Face)
    requires f.hand <= |rs|
    ensures g.hand <= |rs|
  {
    var order := SweepOrder(rs, f.hand);
    var v := Victim(f.sight, order);
    f.(sight := f.sight.(accessed := f.sight.accessed - PassedOver(f.sight, order)),
       hand := if v < |order| then NextNode(|order|, NodeAfter(|order|, f.hand, v + 1)) else f.hand)
  }

  lemma SweptHand(f: Face, rs: seq<Region>)
    requires f.hand <= |rs|
    ensures Choice(f, rs).Some? ==> Behind(rs, Choice(f, rs).value, Swept(f, rs).hand)
    ensures Choice(f, rs).None? ==> Swept(f, rs).hand == f.hand
  {
    var order := SweepOrder(rs, f.hand);
    VictimExistsExactly(f.sight, order);
    if Choice(f, rs).Some? {
      HandBehind(rs, f.hand, Victim(f.sight, order));
    }
  }

  // The page goes to the lowest free slot.
  function PutAway(f: Face, vp: nat): Face
    requires HasFree(f.used)
  {
    f.(sight := f.sight.(tree := f.sight.tree - {Page(vp)}), free := f.free + 1,
       used := f.used[LeastFree(f.used) := true])
  }

  // A frame: a free one, or that of the clock's victim.
  ghost function FindFrame(f: Face, rs: seq<Region>): (r: (Outcome, Face))
    requires f.hand <= |rs|
    ensures r.1.hand <= |rs| && r.0 != Refused && (r.0 == Done ==> r.1.free > 0)
  {
    if f.free > 0 then (Done, f) else MakeSpace(f, rs)
  }

  ghost function MakeSpace(f: Face, rs: seq<Region>): (r: (Outcome, Face))
    requires f.hand <= |rs|
    ensures r.1.hand <= |rs| && r.0 != Refused && (r.0 == Done ==> r.1.free > 0)
  {
    match Choice(f, rs)
    case None => (Spins, f)
    case Some(vp) => if HasFree(f.used) then (Done, PutAway(Swept(f, rs), vp)) else (SwapFull, f)
  }

  // The three ways it ends: the clock goes round for ever if no region it comes to
  // has its first page in memory; else what counts is whether a slot is free.
  lemma MakeSpaceExactly(f: Face, rs: seq<Region>)
    requires f.hand <= |rs|
    ensures var o, order := MakeSpace(f, rs).0, SweepOrder(rs, f.hand);
            && (o == Spins <==> forall p | p in order :: !IsResident(f.sight, p))
            && (o == SwapFull <==>
                  && (exists p :: p in order && IsResident(f.sight, p))
                  && forall i | 0 <= i < |f.used| :: f.used[i])
            && (o == Done <==>
                  && (exists p :: p in order && IsResident(f.sight, p))
                  && exists i | 0 <= i < |f.used| :: !f.used[i])
  {
    if HasFree(f.used) {
      assert !f.used[LeastFree(f.used)];
    }
  }

  // The frame found becomes c.
  function PutAt(f: Face, c: Node): Face
    requires f.free > 0
  {
    f.(sight := f.sight.(tree := f.sight.tree + {c}), free := f.free - 1)
  }

  ghost function Fetch(f: Face, rs: seq<Region>, c: Node): (r: (Outcome, Face))
    requires f.hand <= |rs|
    ensures r.1.hand <= |rs| && r.0 != Refused
  {
    if c in f.sight.tree then (Done, f)
    else
      var (o, g) := FindFrame(f, rs);
      if o == Done then (Done, PutAt(g, c)) else (o, g)
  }

  // The tables above the page table.
  ghost function FetchUpper(f: Face, rs: seq<Region>, vp: nat): (r: (Outcome, Face))
    requires f.hand <= |rs|
    ensures r.1.hand <= |rs| && r.0 != Refused
  {
    var (o, g) := Fetch(f, rs, TOP);
    if o != Done then (o, g) else Fetch(g, rs, Parent(Parent(Page(vp))))
  }

  ghost function FetchTables(f: Face, rs: seq<Region>, vp: nat): (r: (Outcome, Face))
    requires f.hand <= |rs|
    ensures r.1.hand <= |rs| && r.0 != Refused
  {
    var (o, g) := FetchUpper(f, rs, vp);
    if o != Done then (o, g) else Fetch(g, rs, Parent(Page(vp)))
  }

  // A page swapped out leaves its slot first.
  function Reclaimed(f: Face, state: PageState): Face
  {
    if state.SwappedOut? && state.slot < |f.used| then f.(used := f.used[state.slot := false]) else f
  }

  ghost function FetchPage(f: Face, rs: seq<Region>, vp: nat, state: PageState): (r: (Outcome, Face))
    requires f.hand <= |rs|
    ensures r.1.hand <= |rs| && r.0 != Refused
  {
    Fetch(Reclaimed(f, state), rs, Page(vp))
  }

  ghost function Course(f: Face, rs: seq<Region>, vp: nat, state: PageState): (r: (Outcome, Face))
    requires f.hand <= |rs|
    ensures r.1.hand <= |rs| && r.0 != Refused
  {
    var (o, g) := FetchTables(f, rs, vp);
    if o != Done then (o, g) else FetchPage(g, rs, vp, state)
  }

  // ------------------------------------------------------------ what it comes to

  // How many frames c still needs ...
  function Need(tree: set<Node>, c: Node): nat
  {
    if c in tree then 0 else 1
  }

  // ... and the tables above a page, and the page.
  function TablesNeeded(tree: set<Node>, vp: nat): nat
  {
    Need(tree, TOP) + Need(tree, Parent(Parent(Page(vp)))) + Need(tree, Parent(Page(vp)))
  }

  function FramesNeeded(tree: set<Node>, vp: nat): (n: nat)
    ensures n <= 4
  {
    TablesNeeded(tree, vp) + Need(tree, Page(vp))
  }

  function TablesOf(vp: nat): (r: set<Node>)
    ensures forall c | c in r :: c.level > 0
  {
    {TOP, Parent(Parent(Page(vp))), Parent(Page(vp))}
  }

  // The tables and the page.
  function Path(vp: nat): set<Node>
  {
    TablesOf(vp) + {Page(vp)}
  }

  // How many of n frames have to be made by writing a page out.
  function Short(free: nat, n: nat): nat
  {
    if n > free then n - free else 0
  }

  // Of the tree, only pages went; only the nodes of path came, and they are there.
  predicate Grown(a: set<Node>, b: set<Node>, path: set<Node>)
  {
    path <= b <= a + path && forall m | m in a - b :: m.level == 0
  }

  // From f to g the nodes of path that were missing got n frames, and as many
  // pages went as frames were short: nothing is written out while a frame is
  // free, no table is lost, and no frame.
  predicate Spent(f: Face, g: Face, path: set<Node>, n: nat)
  {
    && Grown(f.sight.tree, g.sight.tree, path)
    && |f.sight.tree - g.sight.tree| == Short(f.free, n) && g.free == f.free + Short(f.free, n) - n
    && |g.used| == |f.used|
  }

  lemma FetchSpent(f: Face, rs: seq<Region>, c: Node)
    requires f.hand <= |rs| && Fetch(f, rs, c).0 == Done
    ensures Spent(f, Fetch(f, rs, c).1, {c}, Need(f.sight.tree, c))
  {
    var tree, after := f.sight.tree, Fetch(f, rs, c).1.sight.tree;
    if c in tree || f.free > 0 {
      assert tree - after == {};
    } else {
      var vp := Choice(f, rs).value;
      assert tree - after == {Page(vp)};
    }
  }

  lemma GrownThen(a: set<Node>, b: set<Node>, c: set<Node>, path: set<Node>, more: set<Node>)
    requires Grown(a, b, path) && Grown(b, c, more)
    requires forall m | m in path :: m.level > 0
    requires forall m | m in more :: m in b || m !in a
    ensures Grown(a, c, path + more) && |a - c| == |a - b| + |b - c|
  {
    forall m: Node
      ensures m in a - c <==> m in a - b || m in b - c
    {
      assert m in b - a ==> m in path;
    }
    assert a - c == (a - b) + (b - c);
    assert forall m | m in path && m !in c :: m in b - c;
  }

  lemma SpentThen(f: Face, g: Face, h: Face, path: set<Node>, more: set<Node>, n: nat, m: nat)
    requires Spent(f, g, path, n) && Spent(g, h, more, m)
    requires forall c | c in path :: c.level > 0
    requires forall c | c in more :: c in g.sight.tree || c !in f.sight.tree
    ensures Spent(f, h, path + more, n + m)
  {
    GrownThen(f.sight.tree, g.sight.tree, h.sight.tree, path, more);
  }

  // The tables of a page in the tree are in it.
  predicate TablesThere(tree: set<Node>, vp: nat)
  {
    && (Page(vp) in tree ==> Parent(Page(vp)) in tree)
    && (Parent(Page(vp)) in tree ==> Parent(Parent(Page(vp))) in tree)
    && (Parent(Parent(Page(vp))) in tree ==> TOP in tree)
  }

  // A table fetched on the way changes nothing about what the others need.
  lemma FetchUpperSpent(f: Face, rs: seq<Region>, vp: nat)
    requires f.hand <= |rs| && FetchUpper(f, rs, vp).0 == Done
    ensures var p2 := Parent(Parent(Page(vp)));
            Spent(f, FetchUpper(f, rs, vp).1, {TOP, p2}, Need(f.sight.tree, TOP) + Need(f.sight.tree, p2))
  {
    var p2, g := Parent(Parent(Page(vp))), Fetch(f, rs, TOP).1;
    FetchSpent(f, rs, TOP);
    FetchSpent(g, rs, p2);
    SpentThen(f, g, Fetch(g, rs, p2).1, {TOP}, {p2}, Need(f.sight.tree, TOP), Need(f.sight.tree, p2));
    assert {TOP} + {p2} == {TOP, p2};
  }

  lemma FetchTablesSpent(f: Face, rs: seq<Region>, vp: nat)
    requires f.hand <= |rs| && FetchTables(f, rs, vp).0 == Done
    ensures Spent(f, FetchTables(f, rs, vp).1, TablesOf(vp), TablesNeeded(f.sight.tree, vp))
  {
    var p2, p1, g := Parent(Parent(Page(vp))), Parent(Page(vp)), FetchUpper(f, rs, vp).1;
    FetchUpperSpent(f, rs, vp);
    FetchSpent(g, rs, p1);
    var n := Need(f.sight.tree, TOP) + Need(f.sight.tree, p2);
    SpentThen(f, g, Fetch(g, rs, p1).1, {TOP, p2}, {p1}, n, Need(f.sight.tree, p1));
    assert {TOP, p2} + {p1} == TablesOf(vp);
  }

  // Making frames for tables leaves the page where it is: if it is there, so
  // are its tables.
  lemma PageStays(f: Face, g: Face, vp: nat, n: nat)
    requires Spent(f, g, TablesOf(vp), n) && (Page(vp) in f.sight.tree ==> n == 0)
    ensures Page(vp) in f.sight.tree <==> Page(vp) in g.sight.tree
  {
    if Page(vp) in f.sight.tree {
      assert f.sight.tree - g.sight.tree == {};
    }
  }

  lemma FetchPageSpent(f: Face, g: Face, rs: seq<Region>, vp: nat, state: PageState, n: nat)
    requires Spent(f, g, TablesOf(vp), n) && (Page(vp) in f.sight.tree ==> n == 0)
    requires g.hand <= |rs| && FetchPage(g, rs, vp, state).0 == Done
    ensures Spent(f, FetchPage(g, rs, vp, state).1, Path(vp), n + Need(f.sight.tree, Page(vp)))
  {
    var r := Reclaimed(g, state);
    assert Spent(f, r, TablesOf(vp), n);
    PageStays(f, g, vp, n);
    FetchSpent(r, rs, Page(vp));
    SpentThen(f, r, FetchPage(g, rs, vp, state).1, TablesOf(vp), {Page(vp)}, n, Need(f.sight.tree, Page(vp)));
  }

  // A fault that ends well puts the page and its tables in the tree.  It writes
  // out a page for each frame it is short of, and no other; frames are neither
  // lost nor gained.
  lemma CourseSpent(f: Face, rs: seq<Region>, vp: nat, state: PageState)
    requires f.hand <= |rs| && TablesThere(f.sight.tree, vp) && Course(f, rs, vp, state).0 == Done
    ensures Spent(f, Course(f, rs, vp, state).1, Path(vp), FramesNeeded(f.sight.tree, vp))
  {
    FetchTablesSpent(f, rs, vp);
    FetchPageSpent(f, FetchTables(f, rs, vp).1, rs, vp, state, TablesNeeded(f.sight.tree, vp));
  }

  lemma FetchFree(f: Face, rs: seq<Region>, c: Node)
    requires f.hand <= |rs| && Need(f.sight.tree, c) <= f.free
    ensures Fetch(f, rs, c).0 == Done && f.sight.tree <= Fetch(f, rs, c).1.sight.tree
    ensures Fetch(f, rs, c).1.free == f.free - Need(f.sight.tree, c)
  {
  }

  // With a free frame for everything that is missing the fault ends well, and
  // nothing is written out.
  lemma EnoughFree(f: Face, rs: seq<Region>, vp: nat, state: PageState)
    requires f.hand <= |rs| && FramesNeeded(f.sight.tree, vp) <= f.free
    ensures Course(f, rs, vp, state).0 == Done && f.sight.tree <= Course(f, rs, vp, state).1.sight.tree
    ensures Course(f, rs, vp, state).1.free >= f.free - FramesNeeded(f.sight.tree, vp)
  {
    var p2, p1 := Parent(Parent(Page(vp))), Parent(Page(vp));
    FetchFree(f, rs, TOP);
    var g := Fetch(f, rs, TOP).1;
    FetchFree(g, rs, p2);
    var h := Fetch(g, rs, p2).1;
    FetchFree(h, rs, p1);
    FetchFree(Reclaimed(Fetch(h, rs, p1).1, state), rs, Page(vp));
  }

  // A page that comes back from the swap file has left a slot for the victim.
  lemma SwapInHasSlot(f: Face, rs: seq<Region>, vp: nat, state: PageState)
    requires f.hand <= |rs| && state.SwappedOut? && state.slot < |f.used|
    ensures FetchPage(f, rs, vp, state).0 != SwapFull
  {
    var used := Reclaimed(f, state).used;
    assert !used[state.slot];
    assert LeastFree(used) <= state.slot;
  }

  // Looking for a frame puts nothing in the tree.
  lemma FoundLess(f: Face, rs: seq<Region>)
    requires f.hand <= |rs|
    ensures FindFrame(f, rs).1.sight.tree <= f.sight.tree
  {
  }

  lemma FetchAdds(f: Face, rs: seq<Region>, c: Node)
    requires f.hand <= |rs|
    ensures Fetch(f, rs, c).1.sight.tree <= f.sight.tree + {c}
  {
    FoundLess(f, rs);
  }

  lemma ReclaimedStillFree(f: Face, state: PageState)
    ensures HasFree(f.used) ==> HasFree(Reclaimed(f, state).used)
  {
    var used := Reclaimed(f, state).used;
    assert HasFree(f.used) ==> !used[LeastFree(f.used)];
  }
}
