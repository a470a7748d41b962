// The clock: which page a sweep over the region list picks, and which accessed
// bits it clears on the way.

module Clock {
  import opened Options
  import opened PgTables
  import opened AddressSpace
  import opened PagingSteps
  import opened PagingTrace
  import opened Regions

  // The circular list: node 0 is the list head, node i + 1 is region i.
  function NextNode(n: nat, i: nat): nat
  {
    if i == n then 0 else i + 1
  }

  // The page the clock looks at when it comes to a node: the first page of the
  // region.  The list head is no region.
  function FirstPage(rs: seq<Region>, i: nat): Option<nat>
    requires i <= |rs|
  {
    if i == 0 then None else Some(rs[i - 1].addr / 4096)
  }

  // The k-th node after the hand.
  function NodeAfter(n: nat, hand: nat, k: nat): nat
    requires hand <= n && k <= n + 1
  {
    if hand + k <= n then hand + k else hand + k - n - 1
  }

  // Walking the circle from the hand visits the nodes in this order and ends at
  // the hand.
  lemma WalkStep(n: nat, hand: nat, k: nat)
    requires hand <= n && k <= n
    ensures NodeAfter(n, hand, k + 1) <= n
    ensures NodeAfter(n, hand, k + 1) == hand <==> k == n
    ensures k < n ==> NextNode(n, NodeAfter(n, hand, k + 1)) == NodeAfter(n, hand, k + 2)
  {
  }

  // What one sweep comes to, in order: every node but the hand's own.
  function SweepOrder(rs: seq<Region>, hand: nat): (order: seq<Option<nat>>)
    requires hand <= |rs|
    ensures |order| == |rs|
    ensures forall k | 0 <= k < |rs| :: order[k] == FirstPage(rs, NodeAfter(|rs|, hand, k + 1))
  {
    seq(|rs|, k requires 0 <= k < |rs| => FirstPage(rs, NodeAfter(|rs|, hand, k + 1)))
  }

  // The first pages of these regions, in list order.
  function FirstPages(rs: seq<Region>): (ps: seq<Option<nat>>)
    ensures |ps| == |rs| && forall i | 0 <= i < |rs| :: ps[i] == Some(rs[i].addr / 4096)
  {
    seq(|rs|, i requires 0 <= i < |rs| => Some(rs[i].addr / 4096))
  }

  // The sweep goes forward: first the regions behind the hand's own node, then,
  // past the list head, those before it.
  lemma SweepForward(rs: seq<Region>, hand: nat)
    requires hand <= |rs|
    ensures SweepOrder(rs, hand) ==
              FirstPages(rs[hand..]) + if hand == 0 then [] else [None] + FirstPages(rs[..hand - 1])
  {
  }

  // The hand is on the region after the one that starts with this page, or on
  // the list head if that is the last one.
  ghost predicate Behind(rs: seq<Region>, vp: nat, hand: nat)
  {
    exists i | 0 <= i < |rs| :: rs[i].addr / 4096 == vp && hand == if i + 1 < |rs| then i + 2 else 0
  }

  lemma HandBehind(rs: seq<Region>, hand: nat, k: nat)
    requires hand <= |rs| && k < |rs| && SweepOrder(rs, hand)[k].Some?
    ensures Behind(rs, SweepOrder(rs, hand)[k].value, NextNode(|rs|, NodeAfter(|rs|, hand, k + 1)))
  {
    var i := NodeAfter(|rs|, hand, k + 1) - 1;
    assert rs[i].addr / 4096 == SweepOrder(rs, hand)[k].value;
  }

  // ... and all of them: every node but the hand's has its turn.
  lemma WalkCovers(n: nat, hand: nat, i: nat) returns (k: nat)
    requires hand <= n && i <= n && i != hand
    ensures k < n && NodeAfter(n, hand, k + 1) == i
  {
    k := if i > hand then i - hand - 1 else i + n - hand;
  }

  lemma SweepCovers(rs: seq<Region>, hand: nat, i: nat) returns (k: nat)
    requires hand <= |rs| && i < |rs| && i + 1 != hand
    ensures k < |SweepOrder(rs, hand)| && SweepOrder(rs, hand)[k] == Some(rs[i].addr / 4096)
  {
    k := WalkCovers(|rs|, hand, i + 1);
  }

  // What the clock goes by: the positions of the tree, and the pages of the
  // region whose entry has the accessed bit.
  datatype Sight = Sight(tree: set<Node>, accessed: set<nat>)

  predicate AccessedAt(vm: Vm, vp: nat)
  {
    HasTable(vm, Page(vp)) && EntryOf(vm, Page(vp)).accessed
  }

  // Bit 5 of the word.
  lemma AccessedByWord(vm: Vm, vp: nat)
    ensures AccessedAt(vm, vp) <==> HasTable(vm, Page(vp)) && Pack(EntryOf(vm, Page(vp))) / 32 % 2 == 1
  {
    if HasTable(vm, Page(vp)) {
      FlagsByBits(EntryOf(vm, Page(vp)));
    }
  }

  ghost function Seen(vm: Vm): Sight
  {
    Sight(vm.tab.Keys, set vp: nat | FIRST_PAGE <= vp < END_PAGE && AccessedAt(vm, vp))
  }

  predicate IsResident(s: Sight, p: Option<nat>)
  {
    p.Some? && Page(p.value) in s.tree
  }

  predicate Accessed(s: Sight, p: Option<nat>)
  {
    p.Some? && p.value in s.accessed
  }

  predicate Idle(s: Sight, p: Option<nat>)
  {
    IsResident(s, p) && !Accessed(s, p)
  }

  // The first resident page not accessed, or |order|.
  function FirstIdle(s: Sight, order: seq<Option<nat>>): (k: nat)
    ensures k <= |order|
    ensures k < |order| ==> Idle(s, order[k])
    ensures forall i | 0 <= i < k :: !Idle(s, order[i])
  {
    if order == [] || Idle(s, order[0]) then 0
    else
      var k := 1 + FirstIdle(s, order[1..]);
      assert forall i | 1 <= i < k :: order[i] == order[1..][i - 1];
      k
  }

  function FirstResident(s: Sight, order: seq<Option<nat>>): (k: nat)
    ensures k <= |order|
    ensures k < |order| ==> IsResident(s, order[k])
    ensures forall i | 0 <= i < k :: !IsResident(s, order[i])
  {
    if order == [] || IsResident(s, order[0]) then 0
    else
      var k := 1 + FirstResident(s, order[1..]);
      assert forall i | 1 <= i < k :: order[i] == order[1..][i - 1];
      k
  }

  // Second chance: the first idle page, or else, everything having lost its
  // accessed bit, the first resident one.  |order| if nothing is resident.
  function Victim(s: Sight, order: seq<Option<nat>>): (v: nat)
    ensures v < |order| ==> IsResident(s, order[v])
    ensures v < |order| && Idle(s, order[v]) ==> forall i | 0 <= i < v :: !Idle(s, order[i])
    ensures v < |order| && !Idle(s, order[v]) ==>
              && (forall i | 0 <= i < |order| :: !Idle(s, order[i]))
              && (forall i | 0 <= i < v :: !IsResident(s, order[i]))
    ensures v >= |order| ==> v == |order| && forall i | 0 <= i < |order| :: !IsResident(s, order[i])
  {
    if FirstIdle(s, order) < |order| then FirstIdle(s, order) else FirstResident(s, order)
  }

  // The sweeping ends exactly when some node it comes to has its first page
  // resident.
  lemma VictimExistsExactly(s: Sight, order: seq<Option<nat>>)
    ensures Victim(s, order) <= |order|
    ensures Victim(s, order) < |order| <==> exists p :: p in order && IsResident(s, p)
  {
    if FirstIdle(s, order) < |order| {
      assert order[FirstIdle(s, order)] in order;
    } else if FirstResident(s, order) < |order| {
      assert order[FirstResident(s, order)] in order;
    }
  }

  // The pages that lose their accessed bit: those passed over.
  ghost function PassedOver(s: Sight, order: seq<Option<nat>>): set<nat>
  {
    Residents(s, order, FirstIdle(s, order))
  }

  // ... that is, those resident before the first idle one, all if none is.
  lemma PassedOverExactly(s: Sight, order: seq<Option<nat>>, vp: nat)
    ensures vp in PassedOver(s, order) <==>
              exists k | 0 <= k < |order| ::
                order[k] == Some(vp) && IsResident(s, order[k]) && forall i | 0 <= i <= k :: !Idle(s, order[i])
  {
    var n := FirstIdle(s, order);
    if vp in PassedOver(s, order) {
      var k :| 0 <= k < n && order[..n][k] == Some(vp);
      assert order[k] == Some(vp);
    }
    if k :| 0 <= k < |order| && order[k] == Some(vp) && IsResident(s, order[k]) &&
            forall i | 0 <= i <= k :: !Idle(s, order[i]) {
      assert k < n && order[..n][k] == Some(vp);
    }
  }

  // The resident pages among the first k.
  ghost function Residents(s: Sight, order: seq<Option<nat>>, k: nat): (r: set<nat>)
    requires k <= |order|
    ensures forall vp: nat :: vp in r <==> Page(vp) in s.tree && Some(vp) in order[..k]
  {
    if k == 0 then {}
    else
      assert order[..k] == order[..k - 1] + [order[k - 1]];
      Residents(s, order, k - 1) + (if IsResident(s, order[k - 1]) then {order[k - 1].value} else {})
  }

  // ----------------------------------------------------------- clearing bits

  predicate ClearedEntry(vm: Vm, vm': Vm, pages: set<nat>, c: Node)
  {
    HasTable(vm, c) && HasTable(vm', c) ==>
      EntryOf(vm', c) ==
        if c.level == 0 && c.prefix in pages then EntryOf(vm, c).(accessed := false) else EntryOf(vm, c)
  }

  // vm' is vm with the accessed bits of these pages cleared.
  ghost predicate Cleared(vm: Vm, vm': Vm, pages: set<nat>)
  {
    && vm' == vm.(mem := vm'.mem) && vm'.mem.Keys == vm.mem.Keys
    && (forall c: Node :: ClearedEntry(vm, vm', pages, c))
    && KeepsOthers(vm, vm', None) && (forall flight: Option<nat> :: Leads(vm, vm', flight))
  }

  function ClearAccessed(vm: Vm, vp: nat): Vm
    requires HasTable(vm, Page(vp))
  {
    WriteEntry(vm, Page(vp), EntryOf(vm, Page(vp)).(accessed := false))
  }

  lemma ClearOneEntry(vm: Vm, vm': Vm, pages: set<nat>, vp: nat, c: Node)
    requires TreeOk(vm') && vm'.tab == vm.tab && vm'.mem.Keys == vm.mem.Keys
    requires ClearedEntry(vm, vm', pages, c) && HasTable(vm', Page(vp))
    ensures ClearedEntry(vm, ClearAccessed(vm', vp), pages + {vp}, c)
  {
    if HasTable(vm', c) {
      WriteEntryOthers(vm', Page(vp), EntryOf(vm', Page(vp)).(accessed := false), c);
    }
  }

  lemma ClearOne(vm: Vm, vm': Vm, pages: set<nat>, vp: nat, flight: Option<nat>)
    requires VmOk(vm', flight) && Cleared(vm, vm', pages) && HasTable(vm', Page(vp))
    ensures VmOk(ClearAccessed(vm', vp), flight)
    ensures Cleared(vm, ClearAccessed(vm', vp), pages + {vp})
  {
    var w := ClearAccessed(vm', vp);
    FlagsKeep(vm', Page(vp), EntryOf(vm', Page(vp)).(accessed := false), flight);
    forall c: Node
      ensures ClearedEntry(vm, w, pages + {vp}, c)
    {
      ClearOneEntry(vm, vm', pages, vp, c);
    }
    forall vq: nat | InRegion(vq)
      ensures SamePage(vm, w, vq)
    {
      assert SamePage(vm, vm', vq) && SamePage(vm', w, vq);
    }
    forall f: Option<nat>
      ensures Leads(vm, w, f)
    {
      FlagsLead(vm', Page(vp), EntryOf(vm', Page(vp)).(accessed := false), f);
      LeadsTrans(vm, vm', w, f);
    }
  }

  lemma ClearedSight(vm: Vm, vm': Vm, pages: set<nat>)
    requires Cleared(vm, vm', pages)
    ensures Seen(vm') == Seen(vm).(accessed := Seen(vm).accessed - pages)
  {
    forall vp: nat
      ensures AccessedAt(vm', vp) <==> AccessedAt(vm, vp) && vp !in pages
    {
      assert ClearedEntry(vm, vm', pages, Page(vp));
    }
  }

  // ------------------------------------------------------------- the sweeps

  lemma {:induction false} RegionAligned(rs: seq<Region>, i: nat)
    requires ListOk(rs) && i < |rs|
    ensures rs[i].addr % 4096 == 0 && InRegion(rs[i].addr / 4096)
  {
    InBounds(rs, REGION_START, REGION_END, i);
    if i > 0 {
      RegionAligned(rs, i - 1);
      assert Regions.Joined(rs, i - 1);
    }
  }

  // A sweep comes to no page twice, and only to pages of the region.
  ghost predicate OnePass(order: seq<Option<nat>>)
  {
    && (forall k | 0 <= k < |order| && order[k].Some? :: InRegion(order[k].value))
    && (forall i, j | 0 <= i < j < |order| && order[i].Some? && order[j].Some? :: order[i] != order[j])
  }

  lemma SweepIsOnePass(rs: seq<Region>, hand: nat)
    requires ListOk(rs) && hand <= |rs|
    ensures OnePass(SweepOrder(rs, hand))
  {
    var order, n := SweepOrder(rs, hand), |rs|;
    forall k | 0 <= k < |order| && order[k].Some?
      ensures InRegion(order[k].value)
    {
      RegionAligned(rs, NodeAfter(n, hand, k + 1) - 1);
    }
    forall i, j | 0 <= i < j < |order| && order[i].Some? && order[j].Some?
      ensures order[i] != order[j]
    {
      var a, b := NodeAfter(n, hand, i + 1) - 1, NodeAfter(n, hand, j + 1) - 1;
      RegionAligned(rs, a);
      RegionAligned(rs, b);
      if rs[a].addr == rs[b].addr {
        StartsOnce(rs, REGION_START, REGION_END, a, b);
      }
    }
  }

  // After k nodes of the first or the second sweep, none of them the victim.
  ghost predicate Sweeping(vm: Vm, vm': Vm, order: seq<Option<nat>>, second: bool, k: nat)
  {
    && k <= |order|
    && if second
       then
         && FirstIdle(Seen(vm), order) == |order|
         && Cleared(vm, vm', Residents(Seen(vm), order, |order|))
         && FirstResident(Seen(vm), order) >= k
       else
         FirstIdle(Seen(vm), order) >= k && Cleared(vm, vm', Residents(Seen(vm), order, k))
  }

  lemma SweepStart(vm: Vm, order: seq<Option<nat>>)
    ensures Sweeping(vm, vm, order, false, 0)
  {
    forall flight: Option<nat>
      ensures Leads(vm, vm, flight)
    {
      LeadsItself(vm, flight);
    }
  }

  lemma AccessedNow(vm: Vm, vm': Vm, order: seq<Option<nat>>, second: bool, k: nat)
    requires Sweeping(vm, vm', order, second, k) && OnePass(order) && k < |order|
    requires IsResident(Seen(vm), order[k]) && TreeOk(vm)
    ensures HasTable(vm, Page(order[k].value)) && HasTable(vm', Page(order[k].value))
    ensures Accessed(Seen(vm'), order[k]) == (!second && Accessed(Seen(vm), order[k]))
  {
    var c := Page(order[k].value);
    assert NodeOk(vm, c) && NodeOk(vm, Parent(c));
    if second {
      assert order[..|order|] == order;
      ClearedSight(vm, vm', Residents(Seen(vm), order, |order|));
    } else {
      assert order[k] !in order[..k];
      ClearedSight(vm, vm', Residents(Seen(vm), order, k));
    }
  }

  // The page found resident and idle is the victim.
  lemma SweepStop(vm: Vm, vm': Vm, order: seq<Option<nat>>, second: bool, k: nat)
    requires Sweeping(vm, vm', order, second, k) && OnePass(order) && k < |order|
    requires IsResident(Seen(vm), order[k]) && TreeOk(vm) && !Accessed(Seen(vm'), order[k])
    ensures Victim(Seen(vm), order) == k && Cleared(vm, vm', PassedOver(Seen(vm), order))
  {
    AccessedNow(vm, vm', order, second, k);
  }

  lemma SweepSkip(vm: Vm, vm': Vm, order: seq<Option<nat>>, second: bool, k: nat)
    requires Sweeping(vm, vm', order, second, k) && k < |order| && !IsResident(Seen(vm), order[k])
    ensures Sweeping(vm, vm', order, second, k + 1)
  {
    if !second {
      assert Residents(Seen(vm), order, k + 1) == Residents(Seen(vm), order, k);
    }
  }

  lemma SweepClear(vm: Vm, vm': Vm, order: seq<Option<nat>>, second: bool, k: nat, flight: Option<nat>)
    requires Sweeping(vm, vm', order, second, k) && OnePass(order) && k < |order|
    requires IsResident(Seen(vm), order[k]) && TreeOk(vm) && VmOk(vm', flight) && Accessed(Seen(vm'), order[k])
    ensures HasTable(vm', Page(order[k].value)) && !second
    ensures var w := ClearAccessed(vm', order[k].value);
            VmOk(w, flight) && Sweeping(vm, w, order, second, k + 1)
  {
    AccessedNow(vm, vm', order, second, k);
    ClearOne(vm, vm', Residents(Seen(vm), order, k), order[k].value, flight);
    assert Residents(Seen(vm), order, k + 1) == Residents(Seen(vm), order, k) + {order[k].value};
  }

  lemma SweepAgain(vm: Vm, vm': Vm, order: seq<Option<nat>>)
    requires Sweeping(vm, vm', order, false, |order|)
    ensures Sweeping(vm, vm', order, true, 0)
  {
  }

  // Two sweeps without a victim: nothing is resident, and the source would
  // sweep for ever.
  lemma SweepDone(vm: Vm, vm': Vm, order: seq<Option<nat>>)
    requires Sweeping(vm, vm', order, true, |order|)
    ensures Victim(Seen(vm), order) == |order| && Cleared(vm, vm', PassedOver(Seen(vm), order))
    ensures forall p | p in order :: !IsResident(Seen(vm), p)
  {
  }
}
