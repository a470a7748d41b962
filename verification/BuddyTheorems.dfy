// What the pool invariant means: the free blocks are determined by the live
// ones, allocation fails exactly when nothing fits, nothing is ever lost, and
// freeing undoes allocating.

module BuddyTheorems {
  import opened Options
  import opened Dyadic
  import opened BuddySpec
  import opened BuddySteps

  // ------------------------------------------------------------ free memory

  predicate Misses(live: map<nat, nat>, g: nat, h: nat, order: nat)
  {
    g in live ==> g + Pow2(live[g]) <= h || h + Pow2(order) <= g
  }

  // The block touches no live block.
  ghost predicate Clear(live: map<nat, nat>, h: nat, order: nat)
  {
    forall g: nat :: Misses(live, g, h, order)
  }

  predicate Inside(h: nat, o: nat, g: nat, k: nat)
  {
    g <= h && h + Pow2(o) <= g + Pow2(k)
  }

  // A legal block of memory nobody holds, not part of a larger one.
  ghost predicate MaximalFree(p: Pool, live: map<nat, nat>, h: nat, o: nat)
  {
    && Fits(p, h, o) && Clear(live, h, o)
    && forall g: nat, k: nat :: Fits(p, g, k) && Clear(live, g, k) && Inside(h, o, g, k) ==> (g, k) == (h, o)
  }

  lemma InsideOrder(h: nat, o: nat, g: nat, k: nat)
    requires Inside(h, o, g, k)
    ensures o <= k
    ensures o == k ==> g == h
  {
    if k < o {
      Pow2Monotone(k, o);
    }
  }

  lemma LivePieceMisses(p: Pool, h: nat, o: nat, x: nat)
    requires h in p.part && InBlock(x, h, p.part[h].order)
    requires Clear(Live(p), x, o)
    ensures p.part[h].free
  {
    assert Misses(Live(p), h, x, o);
  }

  lemma ClearShrinks(live: map<nat, nat>, h: nat, o: nat, g: nat, k: nat)
    requires Clear(live, g, k) && Inside(h, o, g, k)
    ensures Clear(live, h, o)
  {
    forall f: nat
      ensures Misses(live, f, h, o)
    {
      assert Misses(live, f, g, k);
    }
  }

  lemma FreePieceClear(p: Pool, h: nat, o: nat)
    requires Tiled(p) && FreeWith(p, h, o)
    ensures Fits(p, h, o) && Clear(Live(p), h, o)
  {
    assert Fits(p, h, o);
    forall g: nat
      ensures Misses(Live(p), g, h, o)
    {
      assert Apart(p.part, g, h) && Apart(p.part, h, g);
    }
  }

  lemma CoveringPiece(p: Pool, g: nat) returns (h: nat, o: nat)
    requires Inv(p) && Fits(p, g, p.min) && Clear(Live(p), g, p.min)
    ensures FreeWith(p, h, o) && Fits(p, h, o) && Inside(g, p.min, h, o)
  {
    assert CoveredAt(p.part, g);
    h :| h in p.part && InBlock(g, h, p.part[h].order);
    o := p.part[h].order;
    LivePieceMisses(p, h, p.min, g);
    assert Fits(p, h, o);
    Nested(g, p.min, h, o);
  }

  // If a free piece covers half of an aligned block without covering all of
  // it, the piece is that half.
  lemma CoversHalf(p: Pool, g: nat, k: nat, half: nat, h: nat, o: nat)
    requires Fits(p, g, k) && 0 < k && (half == g || half == g + Pow2(k - 1))
    requires Fits(p, h, o) && Inside(half, k - 1, h, o)
    ensures Inside(g, k, h, o) || (h, o) == (half, k - 1)
  {
    InsideOrder(half, k - 1, h, o);
    if o >= k {
      Nested(g, k, h, o);
    }
  }

  // Memory nobody holds is never fragmented: a clear legal block lies inside
  // one free piece.
  lemma {:induction false} ClearInOnePiece(p: Pool, g: nat, k: nat) returns (h: nat, o: nat)
    requires Inv(p) && Fits(p, g, k) && Clear(Live(p), g, k)
    ensures FreeWith(p, h, o) && Fits(p, h, o) && Inside(g, k, h, o)
    decreases k
  {
    if k == p.min {
      h, o := CoveringPiece(p, g);
    } else {
      var upper := g + Pow2(k - 1);
      BuddyOfLower(g, k - 1);
      ClearShrinks(Live(p), g, k - 1, g, k);
      ClearShrinks(Live(p), upper, k - 1, g, k);
      h, o := ClearInOnePiece(p, g, k - 1);
      CoversHalf(p, g, k, g, h, o);
      if !Inside(g, k, h, o) {
        assert !CanMerge(p, g, k - 1);
        h, o := ClearInOnePiece(p, upper, k - 1);
        CoversHalf(p, g, k, upper, h, o);
      }
    }
  }

  // Two pieces one inside the other are one piece.
  lemma InsidePiece(p: Pool, h: nat, o: nat, g: nat, k: nat)
    requires Tiled(p) && FreeWith(p, h, o) && FreeWith(p, g, k) && Inside(h, o, g, k)
    ensures (g, k) == (h, o)
  {
    SamePiece(p, h, g, h);
  }

  // Canonical form: the free blocks are exactly the maximal legal blocks that
  // touch no live block.
  lemma Canonical(p: Pool, h: nat, o: nat)
    requires Inv(p)
    ensures FreeWith(p, h, o) <==> MaximalFree(p, Live(p), h, o)
  {
    if FreeWith(p, h, o) {
      FreePieceClear(p, h, o);
      forall g: nat, k: nat | Fits(p, g, k) && Clear(Live(p), g, k) && Inside(h, o, g, k)
        ensures (g, k) == (h, o)
      {
        var f, m := ClearInOnePiece(p, g, k);
        InsidePiece(p, h, o, f, m);
        InsideOrder(h, o, g, k);
        InsideOrder(g, k, f, m);
      }
    }
    if MaximalFree(p, Live(p), h, o) {
      var g, k := ClearInOnePiece(p, h, o);
      FreePieceClear(p, g, k);
      assert (g, k) == (h, o);
    }
  }

  // Two pools with the same live blocks have the same free blocks.
  lemma LiveDeterminesPool(p: Pool, q: Pool)
    requires Inv(p) && Inv(q) && p.top == q.top && p.min == q.min && Live(p) == Live(q)
    ensures p.part == q.part
    ensures forall j | 0 <= j <= p.top :: forall h: nat :: h in p.avail[j] <==> h in q.avail[j]
  {
    forall h: nat, o: nat
      ensures FreeWith(p, h, o) <==> FreeWith(q, h, o)
    {
      Canonical(p, h, o);
      Canonical(q, h, o);
      forall g: nat, k: nat
        ensures Fits(p, g, k) <==> Fits(q, g, k)
      {
      }
    }
    forall h: nat
      ensures h in p.part <==> h in q.part
      ensures h in p.part ==> p.part[h] == q.part[h]
    {
      assert h in Live(p) <==> h in Live(q);
      if h in p.part && p.part[h].free {
        assert FreeWith(q, h, p.part[h].order);
      }
      if h in q.part && q.part[h].free {
        assert FreeWith(p, h, q.part[h].order);
      }
    }
    forall j | 0 <= j <= p.top
      ensures forall h: nat :: h in p.avail[j] <==> h in q.avail[j]
    {
      assert ListMatches(p, j) && ListMatches(q, j);
    }
  }

  // With nothing live the pool is one free block again.
  lemma AllFree(p: Pool)
    requires Inv(p) && Live(p) == map[]
    ensures p.part == map[0 := Piece(p.top, true)]
  {
    AlignedSelf(p.top);
    assert Clear(Live(p), 0, p.top);
    assert Fits(p, 0, p.top);
    var h, o := ClearInOnePiece(p, 0, p.top);
    InsideOrder(0, p.top, h, o);
    forall g: nat | g in p.part
      ensures g == 0
    {
      assert Fits(p, g, p.part[g].order);
      SamePiece(p, g, 0, g);
    }
  }

  // -------------------------------------------------------------- allocation

  lemma TakesSmallest(p: Pool, order: nat)
    requires Inv(p) && order <= p.top && Alloc(p, order).1.Some?
    ensures var o, b := Fixup(p, order), Alloc(p, order).1.value;
            && Fits(p, b, o) && Clear(Live(p), b, o)
            && exists j: nat :: o <= j && FreeWith(p, b, j)
                 && forall h: nat, k: nat :: o <= k < j ==> !FreeWith(p, h, k)
  {
    var o := Fixup(p, order);
    var j := FirstOrder(p, o);
    var b := p.avail[j][0];
    TakeInv(p, j);
    FreePieceClear(p, b, j);
    AlignedDown(b, o, j);
    Pow2Monotone(o, j);
    ClearShrinks(Live(p), b, o, b, j);
    forall h: nat, k: nat | o <= k < j
      ensures !FreeWith(p, h, k)
    {
      assert ListMatches(p, k) && h !in p.avail[k];
    }
  }

  lemma FreeListed(p: Pool, h: nat, k: nat)
    requires Inv(p) && FreeWith(p, h, k)
    ensures k <= p.top && p.avail[k] != []
  {
    assert Fits(p, h, k) && ListMatches(p, k);
  }

  // No legal block of this order lies wholly in memory nobody holds.
  ghost predicate NoRoom(p: Pool, o: nat)
  {
    forall h: nat :: !(Fits(p, h, o) && Clear(Live(p), h, o))
  }

  // buddy_alloc fails exactly when there is no room.
  lemma FailsExactly(p: Pool, order: nat)
    requires Inv(p) && order <= p.top
    ensures Alloc(p, order).1.None? <==> NoRoom(p, Fixup(p, order))
  {
    var o := Fixup(p, order);
    if Alloc(p, order).1.Some? {
      TakesSmallest(p, order);
    } else {
      forall h: nat
        ensures !(Fits(p, h, o) && Clear(Live(p), h, o))
      {
        if Fits(p, h, o) && Clear(Live(p), h, o) {
          var g, k := ClearInOnePiece(p, h, o);
          InsideOrder(h, o, g, k);
          FreeListed(p, g, k);
        }
      }
    }
  }

  // ----------------------------------------------------- free undoes allocate

  lemma MergeUndoesSplit(p: Pool, b: nat, j: nat)
    requires Inv(p) && Splits(p, b, j)
    ensures 0 < j < |p.avail|
    ensures var q := Split(p, b, j);
            CanMerge(q, b, j - 1) && Merge(q, b, j - 1) == p && Min(b, Buddy(b, j - 1)) == b
  {
    SplitFresh(p, b, j);
    var q, upper := Split(p, b, j), b + Pow2(j - 1);
    assert FreeWith(q, upper, j - 1);
    var r := Merge(q, b, j - 1);
    assert Remove([upper] + p.avail[j - 1], upper) == p.avail[j - 1];
    assert r.avail == p.avail;
    assert r.part == p.part;
  }

  lemma {:induction false} ReleaseUndoesTrim(p: Pool, b: nat, j: nat, o: nat)
    requires Inv(p) && InHand(p, b, j) && p.min <= o <= j
    ensures j < |p.avail| && j <= p.top && Trim(p, b, j, o).top == p.top
    ensures |Trim(p, b, j, o).avail| == p.top + 1
    ensures Release(Trim(p, b, j, o), b, o) == Release(p, b, j)
    decreases j
  {
    assert Fits(p, b, j);
    if j > o {
      SplitInv(p, b, j);
      MergeUndoesSplit(p, b, j);
      ReleaseUndoesTrim(Split(p, b, j), b, j - 1, o);
    }
  }

  // Freeing a block just allocated restores the pool exactly: every piece, and
  // every free list in its old order.
  lemma ReleaseUndoesAlloc(p: Pool, order: nat)
    requires Inv(p) && order <= p.top && Alloc(p, order).1.Some?
    ensures var (q, r) := Alloc(p, order);
            && q.top == p.top && |q.avail| == p.top + 1 && Fixup(p, order) <= p.top
            && Release(q, r.value, Fixup(p, order)) == p
  {
    var o := Fixup(p, order);
    var j := FirstOrder(p, o);
    var b, q := p.avail[j][0], Take(p, j);
    TakeInv(p, j);
    ReleaseUndoesTrim(q, b, j, o);
    assert !CanMerge(p, b, j);
    if j < p.top {
      var g := Buddy(b, j);
      assert FreeWith(q, g, j) ==> FreeWith(p, g, j);
    }
    assert !CanMerge(q, b, j);
    var r := Insert(q, b, j);
    assert r.part == p.part;
    assert r.avail[j] == p.avail[j];
    assert r.avail == p.avail;
  }

  // -------------------------------------------------------------------- runs

  datatype Op = AllocOp(order: nat) | FreeOp(addr: nat, order: nat)

  // What both calls check first: the order is within the pool.
  predicate WithinPool(p: Pool, op: Op)
  {
    p.min <= p.top && |p.avail| == p.top + 1 && op.order <= p.top
  }

  // What callers owe: to free what they hold, with its order.  The code cannot
  // check this: buddy_free looks at one tag bit of the address and trusts the
  // order (BuddyImage.CatchesExactly says which frees that bit stops).
  predicate Legal(p: Pool, op: Op)
  {
    WithinPool(p, op) && (op.FreeOp? ==> op.addr in p.part && p.part[op.addr] == Piece(Fixup(p, op.order), false))
  }

  function Apply(p: Pool, op: Op): Pool
    requires WithinPool(p, op)
  {
    match op
    case AllocOp(order) => Alloc(p, order).0
    case FreeOp(addr, order) => Release(p, addr, Fixup(p, order))
  }

  // The pool after a run of operations, if all of them are legal.
  function Run(p: Pool, ops: seq<Op>): Option<Pool>
  {
    if ops == [] then Some(p)
    else
      match Run(p, ops[..|ops| - 1])
      case None => None
      case Some(q) => if Legal(q, ops[|ops| - 1]) then Some(Apply(q, ops[|ops| - 1])) else None
  }

  // A pool as ADD_MEMORY makes it: initialised, then freed whole.
  function Started(top: nat, min: nat): Pool
  {
    Release(Fresh(top, min), 0, top)
  }

  lemma StartedInv(top: nat, min: nat)
    requires min <= top
    ensures var p := Started(top, min);
            Inv(p) && p.top == top && p.min == min && Live(p) == map[]
  {
    FreshInv(top, min);
    ReleaseInv(Fresh(top, min), 0, top);
    ReleaseLive(Fresh(top, min), 0, top);
  }

  lemma ApplyInv(p: Pool, op: Op)
    requires Inv(p) && Legal(p, op)
    ensures var q := Apply(p, op);
            Inv(q) && q.top == p.top && q.min == p.min
  {
    match op {
      case AllocOp(order) => AllocInv(p, order);
      case FreeOp(addr, order) => ReleaseInv(p, addr, Fixup(p, order));
    }
  }

  // Every state of every run of legal calls keeps the invariant.
  lemma {:induction false} RunInv(p: Pool, ops: seq<Op>)
    requires Inv(p) && Run(p, ops).Some?
    ensures var q := Run(p, ops).value;
            Inv(q) && q.top == p.top && q.min == p.min
    decreases |ops|
  {
    if ops != [] {
      RunInv(p, ops[..|ops| - 1]);
      ApplyInv(Run(p, ops[..|ops| - 1]).value, ops[|ops| - 1]);
    }
  }

  // Whatever was allocated and freed, in whatever order: equal live blocks mean
  // equal free blocks, and these are the maximal ones.
  lemma RunsConverge(ops: seq<Op>, ops': seq<Op>, top: nat, min: nat)
    requires min <= top && Run(Started(top, min), ops).Some? && Run(Started(top, min), ops').Some?
    requires Live(Run(Started(top, min), ops).value) == Live(Run(Started(top, min), ops').value)
    ensures var p, q := Run(Started(top, min), ops).value, Run(Started(top, min), ops').value;
            && p.part == q.part
            && forall h: nat, o: nat :: FreeWith(p, h, o) <==> MaximalFree(p, Live(p), h, o)
  {
    StartedInv(top, min);
    RunInv(Started(top, min), ops);
    RunInv(Started(top, min), ops');
    var p, q := Run(Started(top, min), ops).value, Run(Started(top, min), ops').value;
    LiveDeterminesPool(p, q);
    forall h: nat, o: nat
      ensures FreeWith(p, h, o) <==> MaximalFree(p, Live(p), h, o)
    {
      Canonical(p, h, o);
    }
  }

  function Nth(l: seq<nat>, i: nat): nat
  {
    if i < |l| then l[i] else 0
  }

  lemma Singleton(l: seq<nat>, x: nat)
    requires NoDup(l) && x in l && forall y: nat :: y in l ==> y == x
    ensures l == [x]
  {
    assert forall i | 0 <= i < |l| :: l[i] in l;
    assert Nth(l, 0) == x && (|l| > 1 ==> Nth(l, 1) == x);
  }

  // Once everything is freed, one block of the pool's own order is left, alone
  // on the top list.
  lemma EverythingFreed(ops: seq<Op>, top: nat, min: nat)
    requires min <= top && Run(Started(top, min), ops).Some?
    requires Live(Run(Started(top, min), ops).value) == map[]
    ensures var p := Run(Started(top, min), ops).value;
            && p.part == map[0 := Piece(top, true)]
            && |p.avail| == top + 1 && p.avail[top] == [0]
            && forall j | 0 <= j < top :: p.avail[j] == []
  {
    StartedInv(top, min);
    RunInv(Started(top, min), ops);
    var p := Run(Started(top, min), ops).value;
    AllFree(p);
    forall j | 0 <= j <= top
      ensures p.avail[j] == if j == top then [0] else []
    {
      assert ListMatches(p, j);
      var l := p.avail[j];
      assert l != [] ==> FreeWith(p, l[0], j);
      if j == top {
        assert FreeWith(p, 0, top);
        Singleton(l, 0);
      }
    }
  }

  // ------------------------------------------------------------ conservation

  ghost function Pick(part: map<nat, Piece>): nat
    requires part != map[]
    ensures Pick(part) in part
  {
    var h :| h in part; h
  }

  // Bytes in all the pieces together.
  ghost function Total(part: map<nat, Piece>): nat
  {
    if part == map[] then 0
    else Pow2(part[Pick(part)].order) + Total(part - {Pick(part)})
  }

  ghost function Points(part: map<nat, Piece>, n: nat): set<nat>
  {
    set x: nat | x < n && CoveredAt(part, x)
  }

  function Interval(h: nat, len: nat): (r: set<nat>)
    ensures forall x: nat :: x in r <==> h <= x < h + len
    ensures |r| == len
  {
    if len == 0 then {} else Interval(h, len - 1) + {h + len - 1}
  }

  lemma {:induction false} TotalCountsPoints(part: map<nat, Piece>, n: nat)
    requires Separate(part)
    requires forall h: nat :: h in part ==> h + Pow2(part[h].order) <= n
    ensures |Points(part, n)| == Total(part)
    decreases part
  {
    if part == map[] {
      assert Points(part, n) == {};
    } else {
      var h := Pick(part);
      var rest, own := part - {h}, Interval(h, Pow2(part[h].order));
      forall f: nat, g: nat
        ensures Apart(rest, f, g)
      {
        assert Apart(part, f, g);
      }
      TotalCountsPoints(rest, n);
      PointsSplit(part, n, h, own);
    }
  }

  lemma PointSplit(part: map<nat, Piece>, h: nat, x: nat)
    requires Separate(part) && h in part
    ensures CoveredAt(part, x) <==> InBlock(x, h, part[h].order) || CoveredAt(part - {h}, x)
    ensures !(InBlock(x, h, part[h].order) && CoveredAt(part - {h}, x))
  {
    var rest := part - {h};
    if CoveredAt(part, x) {
      var g :| g in part && InBlock(x, g, part[g].order);
      assert g != h ==> g in rest && InBlock(x, g, rest[g].order);
    }
    if CoveredAt(rest, x) {
      var g :| g in rest && InBlock(x, g, rest[g].order);
      assert g in part && InBlock(x, g, part[g].order);
      assert Apart(part, g, h) && Apart(part, h, g);
    }
  }

  lemma PointsSplit(part: map<nat, Piece>, n: nat, h: nat, own: set<nat>)
    requires Separate(part) && h in part && h + Pow2(part[h].order) <= n
    requires forall x: nat :: x in own <==> InBlock(x, h, part[h].order)
    ensures own !! Points(part - {h}, n) && Points(part, n) == own + Points(part - {h}, n)
  {
    var all, others := Points(part, n), Points(part - {h}, n);
    forall x: nat
      ensures x in all <==> x in own || x in others
      ensures !(x in own && x in others)
    {
      PointSplit(part, h, x);
    }
  }

  ghost function Owned(p: Pool, free: bool): map<nat, Piece>
  {
    map h | h in p.part && p.part[h].free == free :: p.part[h]
  }

  lemma OwnedCounts(p: Pool, free: bool)
    requires Tiled(p)
    ensures |Points(Owned(p, free), Pow2(p.top))| == Total(Owned(p, free))
  {
    var part := Owned(p, free);
    forall h: nat
      ensures h in part ==> h + Pow2(part[h].order) <= Pow2(p.top)
    {
      if h in part {
        assert Fits(p, h, p.part[h].order);
      }
    }
    forall g: nat, h: nat
      ensures Apart(part, g, h)
    {
      assert Apart(p.part, g, h);
    }
    TotalCountsPoints(part, Pow2(p.top));
  }

  lemma OneOwner(p: Pool, x: nat)
    requires Tiled(p) && x < Pow2(p.top)
    ensures CoveredAt(Owned(p, true), x) <==> !CoveredAt(Owned(p, false), x)
  {
    assert CoveredAt(p.part, x);
    var h :| h in p.part && InBlock(x, h, p.part[h].order);
    var own := Owned(p, p.part[h].free);
    assert h in own && InBlock(x, h, own[h].order);
    var other := Owned(p, !p.part[h].free);
    if CoveredAt(other, x) {
      var g :| g in other && InBlock(x, g, other[g].order);
      SamePiece(p, g, h, x);
    }
  }

  // Nothing is lost: free and live bytes always make up the pool.
  lemma Conservation(p: Pool)
    requires Tiled(p)
    ensures Total(Owned(p, true)) + Total(Owned(p, false)) == Pow2(p.top)
  {
    var n := Pow2(p.top);
    OwnedCounts(p, true);
    OwnedCounts(p, false);
    var free, live := Points(Owned(p, true), n), Points(Owned(p, false), n);
    forall x: nat | x < n
      ensures x in free <==> x !in live
    {
      OneOwner(p, x);
    }
    assert free !! live && free + live == Interval(0, n);
  }

  lemma TiledTotal(p: Pool)
    requires Tiled(p)
    ensures Total(p.part) == Pow2(p.top)
  {
    var n := Pow2(p.top);
    forall h: nat
      ensures h in p.part ==> h + Pow2(p.part[h].order) <= n
    {
      if h in p.part {
        assert Fits(p, h, p.part[h].order);
      }
    }
    TotalCountsPoints(p.part, n);
    assert Points(p.part, n) == Interval(0, n);
  }

  // ------------------------------------------------------------- wrong frees

  function Weight(part: map<nat, Piece>, h: nat): nat
  {
    if h in part then Pow2(part[h].order) else 0
  }

  lemma {:induction false} TotalWithout(part: map<nat, Piece>, h: nat)
    ensures Total(part) == Total(part - {h}) + Weight(part, h)
    decreases |part|
  {
    if h !in part {
      assert part - {h} == part;
    } else if Pick(part) != h {
      var g := Pick(part);
      TotalWithout(part - {g}, h);
      TotalWithout(part - {h}, g);
      assert part - {g} - {h} == part - {h} - {g};
    }
  }

  lemma TotalPut(part: map<nat, Piece>, h: nat, piece: Piece)
    ensures Total(part[h := piece]) == Total(part - {h}) + Pow2(piece.order)
  {
    TotalWithout(part[h := piece], h);
    assert part[h := piece] - {h} == part - {h};
  }

  lemma MergeTotal(p: Pool, b: nat, k: nat)
    requires CanMerge(p, b, k) && k < |p.avail|
    ensures var q := Merge(p, b, k);
            && Total(q.part) == Total(p.part) - Weight(p.part, b) + Pow2(k)
            && Weight(q.part, Min(b, Buddy(b, k))) == Pow2(k + 1)
  {
    var buddy, low := Buddy(b, k), Min(b, Buddy(b, k));
    BuddyDiffers(b, k);
    TotalWithout(p.part, b);
    TotalWithout(p.part - {b}, buddy);
    assert p.part - {b} - {buddy} == p.part - {b, buddy};
    TotalPut(p.part - {b, buddy}, low, Piece(k + 1, false));
    assert p.part - {b, buddy} - {low} == p.part - {b, buddy};
  }

  // Whatever address and order it is given, coalescing accounts for the block
  // at the address as one of that order.
  lemma {:induction false} ReleaseTotal(p: Pool, b: nat, k: nat)
    requires k <= p.top && |p.avail| == p.top + 1
    ensures var q := Release(p, b, k);
            q.top == p.top && Total(q.part) == Total(p.part) - Weight(p.part, b) + Pow2(k)
    decreases p.top - k
  {
    if CanMerge(p, b, k) {
      MergeTotal(p, b, k);
      ReleaseTotal(Merge(p, b, k), Min(b, Buddy(b, k)), k + 1);
    } else {
      TotalWithout(p.part, b);
      TotalPut(p.part, b, Piece(k, true));
    }
  }

  // A free leaves the pool sound exactly if it is one its caller may make: a
  // block that is live, with its order.
  lemma FreeSoundExactly(p: Pool, b: nat, k: nat)
    requires Inv(p) && k <= p.top
    ensures Inv(Release(p, b, k)) <==> b in Live(p) && Live(p)[b] == k
  {
    var q := Release(p, b, k);
    if b in Live(p) && Live(p)[b] == k {
      ReleaseInv(p, b, k);
    } else if Inv(q) {
      ReleaseTotal(p, b, k);
      TiledTotal(p);
      TiledTotal(q);
      SameOrder(k, p.part[b].order);
      NotListedTwice(p, b, k);
    }
  }

  // A free block given back again would be on its list twice.
  lemma NotListedTwice(p: Pool, b: nat, k: nat)
    requires Inv(p) && k <= p.top && FreeWith(p, b, k)
    ensures !Inv(Release(p, b, k))
  {
    var q := Release(p, b, k);
    assert !CanMerge(p, b, k) && ListMatches(p, k);
    var i :| 0 <= i < |p.avail[k]| && p.avail[k][i] == b;
    assert q.avail[k][0] == q.avail[k][i + 1];
    assert ListMatches(q, k) ==> false;
  }

  lemma SameOrder(j: nat, k: nat)
    requires Pow2(j) == Pow2(k)
    ensures j == k
  {
    Pow2Monotone(Min(j, k), if j < k then k else j);
  }

  // Hence a call keeps the pool sound exactly if it is legal.
  lemma LegalExactly(p: Pool, op: Op)
    requires Inv(p) && WithinPool(p, op)
    ensures Inv(Apply(p, op)) <==> Legal(p, op)
  {
    match op {
      case AllocOp(order) => AllocInv(p, order);
      case FreeOp(addr, order) => FreeSoundExactly(p, addr, Fixup(p, order));
    }
  }

  // Where the block put on a free list starts after coalescing.
  function Landing(p: Pool, b: nat, o: nat): nat
    requires o <= p.top && |p.avail| == p.top + 1
    decreases p.top - o
  {
    if CanMerge(p, b, o) then Landing(Merge(p, b, o), Min(b, Buddy(b, o)), o + 1) else b
  }

  lemma {:induction false} LandingHead(p: Pool, b: nat, o: nat)
    requires Inv(p) && InHand(p, b, o)
    ensures o <= p.top && Landing(p, b, o) <= b
    ensures var q, g := Release(p, b, o), Landing(p, b, o);
            && g in q.part && q.part[g].free
            && b + Pow2(o) <= g + Pow2(q.part[g].order)
    decreases p.top - o
  {
    ReleaseStep(p, b, o);
    if CanMerge(p, b, o) {
      MergeFacts(p, b, o);
      LandingHead(Merge(p, b, o), Min(b, Buddy(b, o)), o + 1);
    }
  }

  // The freed block starts a piece afterwards exactly if no lower buddy absorbed
  // it, that is, if no legal block of memory nobody else holds reaches over its
  // start from below.
  lemma StaysHeadExactly(p: Pool, b: nat, o: nat)
    requires Inv(p) && InHand(p, b, o)
    ensures o <= p.top
    ensures b in Release(p, b, o).part <==> Landing(p, b, o) == b
    ensures Landing(p, b, o) == b <==>
              forall h: nat, k: nat :: Fits(p, h, k) && Clear(Others(p, b), h, k) && InBlock(b, h, k) ==> h == b
  {
    LandingHead(p, b, o);
    ReleaseInv(p, b, o);
    ReleaseLive(p, b, o);
    var q, g := Release(p, b, o), Landing(p, b, o);
    if b in q.part {
      SamePiece(q, g, b, b);
      forall h: nat, k: nat | Fits(p, h, k) && Clear(Others(p, b), h, k) && InBlock(b, h, k)
        ensures h == b
      {
        assert Fits(q, h, k);
        var f, m := ClearInOnePiece(q, h, k);
        SamePiece(q, f, b, b);
      }
    }
    FreePieceClear(q, g, q.part[g].order);
    assert Fits(p, g, q.part[g].order) && InBlock(b, g, q.part[g].order);
  }

  // So a second free of the last live block goes unnoticed unless the block
  // starts the pool.
  lemma LastFreedTwice(p: Pool, b: nat, o: nat)
    requires Inv(p) && Live(p) == map[b := o]
    ensures o <= p.top && (b in Release(p, b, o).part <==> b == 0)
  {
    assert b in Live(p);
    ReleaseInv(p, b, o);
    ReleaseLive(p, b, o);
    AllFree(Release(p, b, o));
  }

  // A pool of two blocks, with these pieces and these lists of orders 5 and 6.
  function TwoBlocks(part: map<nat, Piece>, five: seq<nat>, six: seq<nat>): Pool
  {
    Pool(6, 5, part, [[], [], [], [], [], five, six])
  }

  lemma TwoBlocksStart()
    ensures Started(6, 5) == TwoBlocks(map[0 := Piece(6, true)], [], [0])
  {
    var p := TwoBlocks(map[0 := Piece(6, false)], [], []);
    assert Fresh(6, 5) == p;
    assert [0] + p.avail[6] == [0];
    assert Insert(p, 0, 6) == TwoBlocks(map[0 := Piece(6, true)], [], [0]);
  }

  lemma TwoBlocksAlloc()
    ensures var p := TwoBlocks(map[0 := Piece(6, true)], [], [0]);
            Alloc(p, 5).0 == TwoBlocks(map[0 := Piece(5, false), 32 := Piece(5, true)], [32], [])
  {
    var p := TwoBlocks(map[0 := Piece(6, true)], [], [0]);
    var q := TwoBlocks(map[0 := Piece(6, false)], [], []);
    assert FirstOrder(p, 5) == 6;
    assert p.avail[6][1..] == [];
    assert Take(p, 6) == q;
    assert Pow2(5) == 32 && [32] + q.avail[5] == [32];
    assert Split(q, 0, 6) == TwoBlocks(map[0 := Piece(5, false), 32 := Piece(5, true)], [32], []);
  }

  lemma TwoBlocksAgain()
    ensures var p := TwoBlocks(map[0 := Piece(5, false), 32 := Piece(5, true)], [32], []);
            Alloc(p, 5).0 == TwoBlocks(map[0 := Piece(5, false), 32 := Piece(5, false)], [], [])
  {
    var p := TwoBlocks(map[0 := Piece(5, false), 32 := Piece(5, true)], [32], []);
    assert FirstOrder(p, 5) == 5;
    assert p.avail[5][1..] == [];
    assert Take(p, 5) == TwoBlocks(map[0 := Piece(5, false), 32 := Piece(5, false)], [], []);
  }

  lemma TwoBlocksFree()
    ensures var p := TwoBlocks(map[0 := Piece(5, false), 32 := Piece(5, false)], [], []);
            Release(p, 0, 5) == TwoBlocks(map[0 := Piece(5, true), 32 := Piece(5, false)], [0], [])
  {
    var p := TwoBlocks(map[0 := Piece(5, false), 32 := Piece(5, false)], [], []);
    assert Buddy(0, 5) == 32;
    assert [0] + p.avail[5] == [0];
    assert Insert(p, 0, 5) == TwoBlocks(map[0 := Piece(5, true), 32 := Piece(5, false)], [0], []);
  }

  lemma RunStep(p: Pool, ops: seq<Op>, op: Op, q: Pool)
    requires Run(p, ops) == Some(q) && Legal(q, op)
    ensures Run(p, ops + [op]) == Some(Apply(q, op))
  {
    assert (ops + [op])[..|ops|] == ops;
  }

  // Two blocks of 32 bytes are handed out and the lower one is freed.
  lemma UpperLeft()
    ensures Run(Started(6, 5), [AllocOp(5)] + [AllocOp(5)] + [FreeOp(0, 5)])
         == Some(TwoBlocks(map[0 := Piece(5, true), 32 := Piece(5, false)], [0], []))
  {
    var p := TwoBlocks(map[0 := Piece(6, true)], [], [0]);
    var q := TwoBlocks(map[0 := Piece(5, false), 32 := Piece(5, true)], [32], []);
    var r := TwoBlocks(map[0 := Piece(5, false), 32 := Piece(5, false)], [], []);
    TwoBlocksStart();
    TwoBlocksAlloc();
    TwoBlocksAgain();
    TwoBlocksFree();
    RunStep(p, [], AllocOp(5), p);
    assert [] + [AllocOp(5)] == [AllocOp(5)];
    RunStep(p, [AllocOp(5)], AllocOp(5), q);
    RunStep(p, [AllocOp(5)] + [AllocOp(5)], FreeOp(0, 5), r);
  }

  // Once the upper one is freed too, it is no longer the start of a piece.
  lemma UpperFreedTwice()
    ensures var r := Run(Started(6, 5), [AllocOp(5)] + [AllocOp(5)] + [FreeOp(0, 5)]);
            && r.Some? && Inv(r.value) && r.value.top == 6 && Live(r.value) == map[32 := 5]
            && 32 !in Release(r.value, 32, 5).part
  {
    StartedInv(6, 5);
    UpperLeft();
    var ops := [AllocOp(5)] + [AllocOp(5)] + [FreeOp(0, 5)];
    RunInv(Started(6, 5), ops);
    LastFreedTwice(Run(Started(6, 5), ops).value, 32, 5);
  }
}
