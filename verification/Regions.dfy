// The list of virtual regions: first-fit allocation with splitting, and freeing
// with coalescing.

module Regions {

  const REGION_START: nat := 0x10_0000_0000
  const REGION_END: nat := 0x30_0000_0000

  datatype Status = Free | Allocated

  // A region of `size` pages at addr.
  datatype Region = Region(status: Status, size: nat, addr: nat)

  function End(r: Region): nat { r.addr + 4096 * r.size }

  // ---------------------------------------------------------------- invariant

  // Region i is not empty, ends where the next one starts, and the two are not
  // both free.
  predicate Joined(rs: seq<Region>, i: nat)
  {
    i < |rs| ==>
      && rs[i].size > 0
      && (i + 1 < |rs| ==> rs[i + 1].addr == End(rs[i]) && !(rs[i].status == Free && rs[i + 1].status == Free))
  }

  // rs covers [lo, hi) without gaps, in address order, with no two free
  // neighbours.
  ghost predicate Covers(rs: seq<Region>, lo: nat, hi: nat)
  {
    && (rs == [] ==> lo == hi)
    && (rs != [] ==> rs[0].addr == lo && End(rs[|rs| - 1]) == hi)
    && forall i: nat :: Joined(rs, i)
  }

  ghost predicate ListOk(rs: seq<Region>)
  {
    Covers(rs, REGION_START, REGION_END)
  }

  // The regions in use.
  ghost function Live(rs: seq<Region>): set<Region>
  {
    set r | r in rs && r.status == Allocated
  }

  // The address lies in a region in use.
  ghost predicate Mapped(rs: seq<Region>, address: nat)
  {
    exists r :: r in Live(rs) && r.addr <= address < End(r)
  }

  // --------------------------------------------------------------- operations

  // The first free region of at least `size` pages, or |rs|.
  function FirstFit(rs: seq<Region>, size: nat): (i: nat)
    ensures i <= |rs|
    ensures i < |rs| ==> rs[i].status == Free && rs[i].size >= size
    ensures forall k | 0 <= k < i :: !(rs[k].status == Free && rs[k].size >= size)
  {
    if rs == [] || (rs[0].status == Free && rs[0].size >= size) then 0
    else
      var i := 1 + FirstFit(rs[1..], size);
      assert forall k | 1 <= k < i :: rs[k] == rs[1..][k - 1];
      i
  }

  // What allocate returns when no region fits: (uintptr_t) -1.
  const FAILED: int := -1

  // allocate.
  function Allocate(rs: seq<Region>, size: nat): (seq<Region>, int)
  {
    var i := FirstFit(rs, size);
    if i == |rs| then (rs, FAILED)
    else if rs[i].size == size then (rs[i := rs[i].(status := Allocated)], rs[i].addr)
    else
      var taken := Region(Allocated, size, rs[i].addr);
      var rest := Region(Free, rs[i].size - size, rs[i].addr + 4096 * size);
      (rs[..i] + [taken, rest] + rs[i + 1..], rs[i].addr)
  }

  // The last region that starts at `page`, or |rs|.
  function LastAt(rs: seq<Region>, page: nat): (i: nat)
    ensures i <= |rs|
    ensures i < |rs| ==> rs[i].addr == page
    ensures i == |rs| ==> forall r | r in rs :: r.addr != page
  {
    if rs == [] then 0
    else if rs[|rs| - 1].addr == page then |rs| - 1
    else
      var i := LastAt(rs[..|rs| - 1], page);
      if i == |rs| - 1 then
        assert forall r | r in rs :: r in rs[..|rs| - 1] || r == rs[|rs| - 1];
        |rs|
      else i
  }

  // free_address, from "Set the clear values" on; `found` is at index i.
  function Coalesce(rs: seq<Region>, i: nat, page: nat): seq<Region>
    requires i < |rs|
  {
    var found := rs[i].(status := Free);
    var withNext := i + 1 < |rs| && rs[i + 1].addr != page && rs[i + 1].status == Free;
    var withPrev := i > 0 && rs[i - 1].addr != page && rs[i - 1].status == Free;
    var found1 := if withNext then found.(size := found.size + rs[i + 1].size) else found;
    var found2 := if withPrev then Region(Free, found1.size + rs[i - 1].size, rs[i - 1].addr) else found1;
    (if withPrev then rs[..i - 1] else rs[..i]) + [found2] + (if withNext then rs[i + 2..] else rs[i + 1..])
  }

  function FreeAt(rs: seq<Region>, page: nat): seq<Region>
  {
    var i := LastAt(rs, page);
    if i == |rs| then rs else Coalesce(rs, i, page)
  }

  // ---------------------------------------------------------- order of regions

  lemma {:induction false} Ordered(rs: seq<Region>, lo: nat, hi: nat, i: nat, j: nat)
    requires Covers(rs, lo, hi) && i < j < |rs|
    ensures End(rs[i]) <= rs[j].addr && rs[i].addr < rs[j].addr
    decreases j - i
  {
    assert Joined(rs, i);
    if i + 1 < j {
      assert Joined(rs, i + 1);
      Ordered(rs, lo, hi, i + 1, j);
    }
  }

  lemma InBounds(rs: seq<Region>, lo: nat, hi: nat, i: nat)
    requires Covers(rs, lo, hi) && i < |rs|
    ensures lo <= rs[i].addr < End(rs[i]) <= hi
  {
    assert Joined(rs, i);
    if i > 0 {
      Ordered(rs, lo, hi, 0, i);
    }
    if i < |rs| - 1 {
      Ordered(rs, lo, hi, i, |rs| - 1);
      assert Joined(rs, |rs| - 1);
    }
  }

  lemma CoversTail(rs: seq<Region>, lo: nat, hi: nat)
    requires Covers(rs, lo, hi) && rs != []
    ensures Covers(rs[1..], End(rs[0]), hi)
  {
    assert Joined(rs, 0);
    forall i: nat
      ensures Joined(rs[1..], i)
    {
      assert Joined(rs, i + 1);
    }
  }

  // The region that holds an address.
  lemma {:induction false} RegionAt(rs: seq<Region>, lo: nat, hi: nat, a: nat) returns (i: nat)
    requires Covers(rs, lo, hi) && lo <= a < hi
    ensures i < |rs| && rs[i].addr <= a < End(rs[i])
    decreases |rs|
  {
    assert Joined(rs, 0);
    if a < End(rs[0]) {
      i := 0;
    } else {
      CoversTail(rs, lo, hi);
      i := RegionAt(rs[1..], End(rs[0]), hi, a);
      i := i + 1;
    }
  }

  lemma StartsOnce(rs: seq<Region>, lo: nat, hi: nat, i: nat, j: nat)
    requires Covers(rs, lo, hi) && i < |rs| && j < |rs| && rs[i].addr == rs[j].addr
    ensures i == j
  {
    if i < j {
      Ordered(rs, lo, hi, i, j);
    } else if j < i {
      Ordered(rs, lo, hi, j, i);
    }
  }

  // ------------------------------------------------------------------ allocate

  lemma AllocateKeeps(rs: seq<Region>, lo: nat, hi: nat, size: nat)
    requires Covers(rs, lo, hi) && size > 0
    ensures Covers(Allocate(rs, size).0, lo, hi)
  {
    var n, qs := FirstFit(rs, size), Allocate(rs, size).0;
    forall i: nat
      ensures Joined(qs, i)
    {
      assert Joined(rs, i);
      if n < |rs| && |qs| > |rs| {
        assert Joined(rs, n) && (i > 0 ==> Joined(rs, i - 1));
        assert qs[n] == Region(Allocated, size, rs[n].addr);
      }
    }
  }

  // What allocate adds to the live regions, and nothing else.
  lemma AllocateLive(rs: seq<Region>, size: nat)
    ensures var (qs, addr) := Allocate(rs, size);
            if addr == FAILED then qs == rs
            else addr >= 0 && Live(qs) == Live(rs) + {Region(Allocated, size, addr)}
  {
    var n, qs := FirstFit(rs, size), Allocate(rs, size).0;
    if n < |rs| {
      var taken := Region(Allocated, size, rs[n].addr);
      assert qs[n] == taken;
      forall r: Region | r.status == Allocated
        ensures r in qs <==> r in rs || r == taken
      {
        if r in rs {
          var k :| 0 <= k < |rs| && rs[k] == r;
          assert qs[if k < n then k else k + |qs| - |rs|] == r;
        }
        if r in qs && r != taken {
          var k :| 0 <= k < |qs| && qs[k] == r;
          assert r == rs[if k < n then k else k - (|qs| - |rs|)];
        }
      }
    }
  }

  predicate Avoids(r: Region, a: nat, size: nat)
  {
    End(r) <= a || a + 4096 * size <= r.addr
  }

  // `size` pages at a that no live region touches.
  ghost predicate Hole(rs: seq<Region>, lo: nat, hi: nat, a: nat, size: nat)
  {
    lo <= a && a + 4096 * size <= hi && forall r | r in Live(rs) :: Avoids(r, a, size)
  }

  // A hole lies inside one free region: holes are never split between two.
  lemma HoleInRegion(rs: seq<Region>, lo: nat, hi: nat, a: nat, size: nat) returns (i: nat)
    requires Covers(rs, lo, hi) && size > 0 && Hole(rs, lo, hi, a, size)
    ensures i < |rs| && rs[i].status == Free && rs[i].addr <= a && a + 4096 * size <= End(rs[i])
  {
    i := RegionAt(rs, lo, hi, a);
    assert Joined(rs, i);
    var r := rs[i];
    assert r.status == Allocated ==> r in Live(rs);
    if i + 1 < |rs| {
      assert Joined(rs, i + 1);
      assert rs[i + 1].status == Allocated ==> rs[i + 1] in Live(rs);
    }
  }

  lemma FreeRegionIsHole(rs: seq<Region>, lo: nat, hi: nat, i: nat, size: nat)
    requires Covers(rs, lo, hi) && i < |rs| && rs[i].status == Free && size <= rs[i].size
    ensures Hole(rs, lo, hi, rs[i].addr, size)
  {
    InBounds(rs, lo, hi, i);
    forall r | r in Live(rs)
      ensures Avoids(r, rs[i].addr, size)
    {
      var k :| 0 <= k < |rs| && rs[k] == r;
      if k < i {
        Ordered(rs, lo, hi, k, i);
      } else if k > i {
        Ordered(rs, lo, hi, i, k);
      }
    }
  }

  // First fit is exact: allocate returns the lowest hole that is large enough,
  // and fails exactly when there is none.
  lemma FirstFitExact(rs: seq<Region>, lo: nat, hi: nat, size: nat)
    requires Covers(rs, lo, hi) && size > 0
    ensures var addr := Allocate(rs, size).1;
            && (addr == FAILED <==> forall a: nat :: !Hole(rs, lo, hi, a, size))
            && (addr != FAILED ==> addr >= 0 && Hole(rs, lo, hi, addr, size))
            && (addr != FAILED ==> forall a: nat :: Hole(rs, lo, hi, a, size) ==> addr <= a)
  {
    var n := FirstFit(rs, size);
    if n < |rs| {
      FreeRegionIsHole(rs, lo, hi, n, size);
    }
    forall a: nat | Hole(rs, lo, hi, a, size)
      ensures n < |rs| && rs[n].addr <= a
    {
      var i := HoleInRegion(rs, lo, hi, a, size);
      if n < i {
        Ordered(rs, lo, hi, n, i);
      }
    }
  }

  // An empty request breaks the list, unless it fails: it leaves a region of no
  // pages behind.
  lemma EmptyRequestBreaks(rs: seq<Region>, size: nat)
    requires ListOk(rs)
    ensures ListOk(Allocate(rs, size).0) <==> size > 0 || forall r | r in rs :: r.status == Allocated
  {
    if size > 0 {
      AllocateKeeps(rs, REGION_START, REGION_END, size);
    } else {
      var n, qs := FirstFit(rs, size), Allocate(rs, size).0;
      if n < |rs| {
        assert Joined(rs, n) && rs[n] in rs;
        assert !Joined(qs, n);
      } else {
        assert qs == rs;
      }
    }
  }

  // --------------------------------------------------------------------- free

  // The freed region grows over its free neighbours [i - below, i + above];
  // everything else keeps its place.
  lemma CoalesceShape(rs: seq<Region>, lo: nat, hi: nat, i: nat, below: nat, above: nat)
    requires Covers(rs, lo, hi) && i < |rs|
    requires below == if i > 0 && rs[i - 1].status == Free then 1 else 0
    requires above == if i + 1 < |rs| && rs[i + 1].status == Free then 1 else 0
    ensures var qs, f := Coalesce(rs, i, rs[i].addr), i - below;
            && |qs| == |rs| - below - above
            && (forall x | 0 <= x < f :: qs[x] == rs[x])
            && (forall x | f < x < |qs| :: qs[x] == rs[x + below + above])
            && qs[f].status == Free && qs[f].addr == rs[f].addr && qs[f].size > 0
            && End(qs[f]) == End(rs[i + above])
  {
    assert Joined(rs, i) && Joined(rs, i + 1) && (i > 0 ==> Joined(rs, i - 1));
  }

  lemma CoalesceJoined(rs: seq<Region>, lo: nat, hi: nat, i: nat, k: nat)
    requires Covers(rs, lo, hi) && i < |rs|
    ensures Joined(Coalesce(rs, i, rs[i].addr), k)
  {
    var below := if i > 0 && rs[i - 1].status == Free then 1 else 0;
    var above := if i + 1 < |rs| && rs[i + 1].status == Free then 1 else 0;
    CoalesceShape(rs, lo, hi, i, below, above);
    var qs, f := Coalesce(rs, i, rs[i].addr), i - below;
    if k < f {
      assert Joined(rs, k);
      assert k + 1 == f && below == 1 ==> Joined(rs, f);
    } else if k == f {
      assert Joined(rs, i + above);
      assert above == 1 ==> Joined(rs, i);
    } else {
      assert Joined(rs, k + below + above);
    }
  }

  lemma CoalesceKeeps(rs: seq<Region>, lo: nat, hi: nat, i: nat)
    requires Covers(rs, lo, hi) && i < |rs|
    ensures Covers(Coalesce(rs, i, rs[i].addr), lo, hi)
  {
    var qs := Coalesce(rs, i, rs[i].addr);
    forall k: nat
      ensures Joined(qs, k)
    {
      CoalesceJoined(rs, lo, hi, i, k);
    }
    assert Joined(rs, i) && (i > 0 ==> Joined(rs, i - 1));
  }

  lemma CoalesceLive(rs: seq<Region>, lo: nat, hi: nat, i: nat)
    requires Covers(rs, lo, hi) && i < |rs|
    ensures Live(Coalesce(rs, i, rs[i].addr)) == Live(rs) - {rs[i]}
  {
    var below := if i > 0 && rs[i - 1].status == Free then 1 else 0;
    var above := if i + 1 < |rs| && rs[i + 1].status == Free then 1 else 0;
    CoalesceShape(rs, lo, hi, i, below, above);
    var qs, f := Coalesce(rs, i, rs[i].addr), i - below;
    forall r | r in Live(rs) && r != rs[i]
      ensures r in qs
    {
      var k :| 0 <= k < |rs| && rs[k] == r;
      assert r == qs[if k < f then k else k - below - above];
    }
    forall r | r in Live(qs)
      ensures r in rs && r != rs[i]
    {
      var k :| 0 <= k < |qs| && qs[k] == r;
      var j := if k < f then k else k + below + above;
      if r == rs[i] {
        StartsOnce(rs, lo, hi, j, i);
      }
    }
  }

  // free_address keeps the list sound and takes exactly the region that starts
  // at the address, if it is in use, out of the live ones.
  lemma FreeKeeps(rs: seq<Region>, lo: nat, hi: nat, page: nat)
    requires Covers(rs, lo, hi)
    ensures Covers(FreeAt(rs, page), lo, hi)
    ensures Live(FreeAt(rs, page)) == set r | r in Live(rs) && r.addr != page
  {
    var i := LastAt(rs, page);
    if i < |rs| {
      CoalesceKeeps(rs, lo, hi, i);
      CoalesceLive(rs, lo, hi, i);
      forall r | r in Live(rs) && r.addr == page
        ensures r == rs[i]
      {
        var k :| 0 <= k < |rs| && rs[k] == r;
        StartsOnce(rs, lo, hi, k, i);
      }
    }
  }

  // ------------------------------------------- the list is its live regions

  lemma LiveTail(rs: seq<Region>, lo: nat, hi: nat)
    requires Covers(rs, lo, hi) && rs != []
    ensures Live(rs[1..]) == Live(rs) - {rs[0]}
    ensures forall r | r in Live(rs[1..]) :: End(rs[0]) <= r.addr
  {
    forall r | r in rs[1..]
      ensures End(rs[0]) <= r.addr && r != rs[0]
    {
      var k :| 0 <= k < |rs[1..]| && rs[1..][k] == r;
      Ordered(rs, lo, hi, 0, k + 1);
    }
    assert rs == [rs[0]] + rs[1..];
  }

  lemma StartsLive(rs: seq<Region>, lo: nat, hi: nat, r: Region)
    requires Covers(rs, lo, hi) && r in Live(rs) && r.addr == lo
    ensures rs[0] == r
  {
    var k :| 0 <= k < |rs| && rs[k] == r;
    StartsOnce(rs, lo, hi, 0, k);
  }

  // A free region in front ends where the first live region starts, or at hi.
  lemma FreeHeadEnd(rs: seq<Region>, lo: nat, hi: nat)
    requires Covers(rs, lo, hi) && rs != [] && rs[0].status == Free
    ensures if |rs| == 1 then End(rs[0]) == hi && Live(rs) == {}
            else rs[1] in Live(rs) && rs[1].addr == End(rs[0]) < hi
    ensures forall r | r in Live(rs) :: End(rs[0]) <= r.addr < hi
  {
    assert Joined(rs, 0);
    LiveTail(rs, lo, hi);
    forall r | r in Live(rs)
      ensures r.addr < hi
    {
      var k :| 0 <= k < |rs| && rs[k] == r;
      InBounds(rs, lo, hi, k);
    }
    if |rs| > 1 {
      InBounds(rs, lo, hi, 1);
    }
  }

  lemma SameHead(rs: seq<Region>, qs: seq<Region>, lo: nat, hi: nat)
    requires Covers(rs, lo, hi) && Covers(qs, lo, hi) && rs != [] && qs != []
    requires Live(rs) == Live(qs)
    ensures rs[0] == qs[0]
  {
    if rs[0].status == Allocated {
      assert rs[0] in Live(rs);
      StartsLive(qs, lo, hi, rs[0]);
    } else if qs[0].status == Allocated {
      assert qs[0] in Live(qs);
      StartsLive(rs, lo, hi, qs[0]);
    } else {
      FreeHeadEnd(rs, lo, hi);
      FreeHeadEnd(qs, lo, hi);
    }
  }

  // Two lists over the same range with the same live regions are equal.
  lemma {:induction false} LiveDeterminesList(rs: seq<Region>, qs: seq<Region>, lo: nat, hi: nat)
    requires Covers(rs, lo, hi) && Covers(qs, lo, hi) && Live(rs) == Live(qs)
    ensures rs == qs
    decreases |rs|
  {
    if rs != [] {
      InBounds(rs, lo, hi, 0);
      SameHead(rs, qs, lo, hi);
      CoversTail(rs, lo, hi);
      CoversTail(qs, lo, hi);
      LiveTail(rs, lo, hi);
      LiveTail(qs, lo, hi);
      LiveDeterminesList(rs[1..], qs[1..], End(rs[0]), hi);
      assert rs == [rs[0]] + rs[1..] && qs == [qs[0]] + qs[1..];
    } else if qs != [] {
      InBounds(qs, lo, hi, 0);
    }
  }

  // Freeing what was just allocated restores the list, region for region.
  lemma FreeUndoesAllocate(rs: seq<Region>, size: nat)
    requires ListOk(rs) && size > 0 && Allocate(rs, size).1 != FAILED
    ensures Allocate(rs, size).1 >= 0 && FreeAt(Allocate(rs, size).0, Allocate(rs, size).1) == rs
  {
    AllocateKeeps(rs, REGION_START, REGION_END, size);
    AllocateLive(rs, size);
    var (qs, addr) := Allocate(rs, size);
    FreeKeeps(qs, REGION_START, REGION_END, addr);
    FirstFitExact(rs, REGION_START, REGION_END, size);
    forall r | r in Live(rs)
      ensures r.addr != addr
    {
      var k :| 0 <= k < |rs| && rs[k] == r;
      assert Joined(rs, k) && Avoids(r, addr, size);
    }
    assert Live(FreeAt(qs, addr)) == Live(rs);
    LiveDeterminesList(FreeAt(qs, addr), rs, REGION_START, REGION_END);
  }

  // ------------------------------------------------------- what is in use

  // Allocating puts exactly the pages returned in use ...
  lemma AllocateMaps(rs: seq<Region>, size: nat, x: nat)
    ensures var (qs, addr) := Allocate(rs, size);
            Mapped(qs, x) <==> Mapped(rs, x) || (addr >= 0 && addr <= x < addr + 4096 * size)
  {
    AllocateLive(rs, size);
    var (qs, addr) := Allocate(rs, size);
    if addr != FAILED && addr <= x < addr + 4096 * size {
      assert Region(Allocated, size, addr) in Live(qs);
    }
    if Mapped(rs, x) {
      var r :| r in Live(rs) && r.addr <= x < End(r);
      assert r in Live(qs);
    }
  }

  // The pages of the region in use that starts at `page`.
  ghost predicate InRegionAt(rs: seq<Region>, page: nat, x: nat)
  {
    exists size: nat :: Region(Allocated, size, page) in rs && page <= x < page + 4096 * size
  }

  // ... and freeing takes exactly the pages of the region at the address out of
  // use.
  lemma FreeUnmaps(rs: seq<Region>, page: nat, x: nat)
    requires ListOk(rs)
    ensures Mapped(FreeAt(rs, page), x) <==> Mapped(rs, x) && !InRegionAt(rs, page, x)
  {
    FreeKeeps(rs, REGION_START, REGION_END, page);
    var qs := FreeAt(rs, page);
    if Mapped(rs, x) {
      var r :| r in Live(rs) && r.addr <= x < End(r);
      assert r == Region(Allocated, r.size, r.addr);
      if InRegionAt(rs, page, x) {
        var size: nat :| Region(Allocated, size, page) in rs && page <= x < page + 4096 * size;
        HeldOnce(rs, r, Region(Allocated, size, page), x);
      } else {
        assert r.addr != page && r in Live(qs);
      }
    }
    if Mapped(qs, x) {
      var r :| r in Live(qs) && r.addr <= x < End(r);
      assert r in Live(rs);
      forall size: nat | Region(Allocated, size, page) in rs && page <= x < page + 4096 * size
        ensures false
      {
        HeldOnce(rs, r, Region(Allocated, size, page), x);
      }
    }
  }

  // An address is in one region only.
  lemma HeldOnce(rs: seq<Region>, q: Region, r: Region, x: nat)
    requires ListOk(rs) && q in rs && r in rs && q.addr <= x < End(q) && r.addr <= x < End(r)
    ensures q == r
  {
    var i :| 0 <= i < |rs| && rs[i] == q;
    var j :| 0 <= j < |rs| && rs[j] == r;
    if i < j {
      Ordered(rs, REGION_START, REGION_END, i, j);
    } else if j < i {
      Ordered(rs, REGION_START, REGION_END, j, i);
    }
  }

  // --------------------------------------------------------------------- runs

  datatype Op = AllocateOp(size: nat) | FreeOp(page: nat)

  function Step(rs: seq<Region>, op: Op): seq<Region>
  {
    match op
    case AllocateOp(size) => Allocate(rs, size).0
    case FreeOp(page) => FreeAt(rs, page)
  }

  function Run(rs: seq<Region>, ops: seq<Op>): seq<Region>
    decreases ops
  {
    if ops == [] then rs else Run(Step(rs, ops[0]), ops[1..])
  }

  const INITIAL: seq<Region> := [Region(Free, 0x200_0000, REGION_START)]

  // At first nothing is in use, and requests up to the whole range are met at
  // its start; larger ones return -1.
  lemma InitialIsFree(x: nat, size: nat)
    ensures !Mapped(INITIAL, x)
    ensures size <= 0x200_0000 ==> Allocate(INITIAL, size).1 == 0x10_0000_0000
    ensures size > 0x200_0000 ==> Allocate(INITIAL, size) == (INITIAL, -1)
  {
    assert FirstFit(INITIAL, size) == if size <= 0x200_0000 then 0 else 1;
  }

  lemma {:induction false} RunKeeps(rs: seq<Region>, ops: seq<Op>)
    requires ListOk(rs) && forall op | op in ops :: op.AllocateOp? ==> op.size > 0
    ensures ListOk(Run(rs, ops))
    decreases ops
  {
    if ops != [] {
      assert ops[0] in ops;
      match ops[0] {
        case AllocateOp(size) => AllocateKeeps(rs, REGION_START, REGION_END, size);
        case FreeOp(page) => FreeKeeps(rs, REGION_START, REGION_END, page);
      }
      RunKeeps(Step(rs, ops[0]), ops[1..]);
    }
  }

  // Any two runs from the start that leave the same regions live leave the same
  // list.
  lemma RunsConverge(ops: seq<Op>, ops': seq<Op>)
    requires forall op | op in ops + ops' :: op.AllocateOp? ==> op.size > 0
    requires Live(Run(INITIAL, ops)) == Live(Run(INITIAL, ops'))
    ensures Run(INITIAL, ops) == Run(INITIAL, ops')
  {
    assert ListOk(INITIAL);
    RunKeeps(INITIAL, ops);
    RunKeeps(INITIAL, ops');
    LiveDeterminesList(Run(INITIAL, ops), Run(INITIAL, ops'), REGION_START, REGION_END);
  }

  // ---------------------------------------------------------------- the class

  class RegionList {
    var regions: seq<Region>

    constructor ()
      ensures regions == INITIAL && ListOk(regions) && forall x: nat :: !Mapped(regions, x)
    {
      regions := INITIAL;
      new;
      assert ListOk(INITIAL);
      forall x: nat
        ensures !Mapped(INITIAL, x)
      {
        InitialIsFree(x, 0);
      }
    }

    method AllocateRegion(size: nat) returns (addr: int)
      modifies this
      ensures (regions, addr) == Allocate(old(regions), size)
    {
      var i := 0;
      while i < |regions| && !(regions[i].status == Free && regions[i].size >= size)
        invariant i <= FirstFit(regions, size)
      {
        i := i + 1;
      }
      if i == |regions| {
        return FAILED;
      }
      var node := regions[i];
      addr := node.addr;
      if node.size == size {
        regions := regions[i := node.(status := Allocated)];
        return;
      }
      var newNode := Region(Free, node.size - size, node.addr + 4096 * size);
      regions := regions[..i] + [Region(Allocated, size, node.addr), newNode] + regions[i + 1..];
    }

    method FreeRegion(page: nat)
      modifies this
      ensures regions == FreeAt(old(regions), page)
    {
      var found := FindLast(page);
      if found == |regions| {
        return;
      }
      var i := found;
      ghost var rs, tail := regions, regions[i + 1..];
      var cur := regions[i].(status := Free);
      regions := regions[i := cur];
      if i + 1 < |regions| {
        var next := regions[i + 1];
        if next.addr != page && next.status == Free {
          cur := cur.(size := cur.size + next.size);
          regions := regions[..i] + [cur] + regions[i + 2..];
          tail := rs[i + 2..];
        }
      }
      assert regions == rs[..i] + [cur] + tail;
      if i > 0 {
        var prev := regions[i - 1];
        assert regions[..i - 1] == rs[..i - 1] && regions[i + 1..] == tail;
        if prev.addr != page && prev.status == Free {
          cur := Region(Free, cur.size + prev.size, prev.addr);
          regions := regions[..i - 1] + [cur] + regions[i + 1..];
        }
      }
    }

    // The search loop of free_address.
    method FindLast(page: nat) returns (found: nat)
      ensures found == LastAt(regions, page)
    {
      found := |regions|;
      for i := 0 to |regions|
        invariant found == if LastAt(regions[..i], page) == i then |regions| else LastAt(regions[..i], page)
      {
        assert regions[..i + 1][..i] == regions[..i];
        if regions[i].addr == page {
          found := i;
        }
      }
      assert regions[..|regions|] == regions;
    }

    // check_address_range: is the address inside a region in use?
    method CheckAddressRange(address: nat) returns (inUse: bool)
      ensures inUse <==> Mapped(regions, address)
    {
      inUse := false;
      for i := 0 to |regions|
        invariant forall k | 0 <= k < i ::
                    !(regions[k].status == Allocated && regions[k].addr <= address < End(regions[k]))
      {
        if regions[i].status == Allocated && address >= regions[i].addr && address < End(regions[i]) {
          assert regions[i] in Live(regions);
          return true;
        }
      }
    }
  }
}
