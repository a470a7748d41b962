// Every step of buddy_alloc and buddy_free keeps the pool invariant.

module BuddySteps {
  import opened Dyadic
  import opened BuddySpec

  // ------------------------------------------------- what a step may change

  // Same pieces, possibly with other owners.
  ghost predicate SameShape(p: Pool, q: Pool)
  {
    && q.top == p.top && q.min == p.min && |q.avail| == |p.avail|
    && q.part.Keys == p.part.Keys
    && forall h | h in p.part :: q.part[h].order == p.part[h].order
  }

  lemma SameShapeTiled(p: Pool, q: Pool)
    requires Tiled(p) && SameShape(p, q)
    ensures Tiled(q)
  {
    forall h: nat, o: nat | h in q.part && q.part[h].order == o
      ensures Fits(q, h, o)
    {
      assert Fits(p, h, o);
    }
    forall g: nat, h: nat
      ensures Apart(q.part, g, h)
    {
      assert Apart(p.part, g, h);
    }
    forall x: nat | x < Pow2(q.top)
      ensures CoveredAt(q.part, x)
    {
      assert CoveredAt(p.part, x);
      var h :| h in p.part && InBlock(x, h, p.part[h].order);
      assert h in q.part && InBlock(x, h, q.part[h].order);
    }
  }

  ghost predicate NoNewFree(p: Pool, q: Pool)
  {
    q.top == p.top && forall h: nat, k: nat | FreeWith(q, h, k) :: FreeWith(p, h, k)
  }

  lemma NoNewFreeMerged(p: Pool, q: Pool)
    requires Merged(p) && NoNewFree(p, q)
    ensures Merged(q)
  {
    forall h: nat, k: nat | FreeWith(q, h, k)
      ensures !CanMerge(q, h, k)
    {
      assert FreeWith(p, h, k) && !CanMerge(p, h, k);
      assert FreeWith(q, Buddy(h, k), k) ==> FreeWith(p, Buddy(h, k), k);
    }
  }

  ghost predicate OneNewFree(p: Pool, q: Pool, b: nat, o: nat)
  {
    && q.top == p.top
    && forall h: nat, k: nat | FreeWith(q, h, k) && (h, k) != (b, o) :: FreeWith(p, h, k)
  }

  lemma OneNewFreeMerged(p: Pool, q: Pool, b: nat, o: nat)
    requires WellShaped(p) && Merged(p) && OneNewFree(p, q, b, o)
    requires FreeWith(q, b, o) && !CanMerge(q, b, o)
    ensures Merged(q)
  {
    forall h: nat, k: nat | FreeWith(q, h, k)
      ensures !CanMerge(q, h, k)
    {
      if CanMerge(q, h, k) && (h, k) != (b, o) {
        assert FreeWith(p, h, k) && Fits(p, h, k) && !CanMerge(p, h, k);
        BuddyFacts(h, k, p.top);
        assert false;
      }
    }
  }

  // ------------------------------------------------------------------- Take

  lemma TakeLists(p: Pool, j: nat)
    requires ListsMatch(p) && j <= p.top && p.avail[j] != []
    ensures FreeWith(p, p.avail[j][0], j)
    ensures ListsMatch(Take(p, j))
  {
    var b, q := p.avail[j][0], Take(p, j);
    assert ListMatches(p, j) && b in p.avail[j];
    assert p.avail[j] == [b] + q.avail[j];
    forall k | 0 <= k <= p.top
      ensures ListMatches(q, k)
    {
      assert ListMatches(p, k);
      forall h: nat
        ensures h in q.avail[k] <==> FreeWith(q, h, k)
      {
        assert h in q.avail[k] <==> h in p.avail[k] && !(k == j && h == b);
        assert FreeWith(q, h, k) <==> FreeWith(p, h, k) && h != b;
      }
    }
  }

  lemma TakeInv(p: Pool, j: nat)
    requires Inv(p) && j <= p.top && p.avail[j] != []
    ensures var b, q := p.avail[j][0], Take(p, j);
            && FreeWith(p, b, j) && Inv(q) && b in q.part && q.part[b] == Piece(j, false)
  {
    var q := Take(p, j);
    TakeLists(p, j);
    assert SameShape(p, q);
    SameShapeTiled(p, q);
    assert NoNewFree(p, q);
    NoNewFreeMerged(p, q);
  }

  // ------------------------------------------------------------------ Split

  // b is an allocated order-j block that can be split.
  ghost predicate Splits(p: Pool, b: nat, j: nat)
  {
    Tiled(p) && b in p.part && p.part[b] == Piece(j, false) && p.min < j
  }

  lemma SplitFresh(p: Pool, b: nat, j: nat)
    requires Splits(p, b, j)
    ensures 0 < j <= p.top && j < |p.avail|
    ensures Pow2(j) == 2 * Pow2(j - 1)
    ensures b + Pow2(j - 1) !in p.part
    ensures Fits(p, b, j - 1) && Fits(p, b + Pow2(j - 1), j - 1)
    ensures Buddy(b + Pow2(j - 1), j - 1) == b && Buddy(b, j - 1) == b + Pow2(j - 1)
  {
    assert Fits(p, b, j);
    BuddyOfLower(b, j - 1);
    assert Apart(p.part, b, b + Pow2(j - 1));
  }

  lemma SplitSeparate(p: Pool, b: nat, j: nat)
    requires Splits(p, b, j)
    ensures 0 < j < |p.avail| && Separate(Split(p, b, j).part)
  {
    SplitFresh(p, b, j);
    var q := Split(p, b, j);
    forall g: nat, h: nat
      ensures Apart(q.part, g, h)
    {
      assert Apart(p.part, g, h);
      assert Apart(p.part, b, h) && Apart(p.part, g, b) && Apart(p.part, b, g);
    }
  }

  lemma SplitCovers(p: Pool, b: nat, j: nat)
    requires Covers(p) && b in p.part && p.part[b] == Piece(j, false)
    requires 0 < j < |p.avail| && b + Pow2(j - 1) !in p.part
    ensures Covers(Split(p, b, j))
  {
    var q, upper := Split(p, b, j), b + Pow2(j - 1);
    forall x: nat | x < Pow2(p.top)
      ensures CoveredAt(q.part, x)
    {
      assert CoveredAt(p.part, x);
      var h :| h in p.part && InBlock(x, h, p.part[h].order);
      var g := if h == b && x >= upper then upper else h;
      assert g in q.part && InBlock(x, g, q.part[g].order);
    }
  }

  lemma SplitShape(p: Pool, b: nat, j: nat)
    requires Splits(p, b, j)
    ensures 0 < j < |p.avail| && WellShaped(Split(p, b, j))
  {
    SplitFresh(p, b, j);
    var q := Split(p, b, j);
    forall h: nat, o: nat | h in q.part && q.part[h].order == o
      ensures Fits(q, h, o)
    {
      assert Fits(p, h, o);
    }
  }

  lemma SplitTiled(p: Pool, b: nat, j: nat)
    requires Splits(p, b, j)
    ensures 0 < j < |p.avail| && Tiled(Split(p, b, j))
  {
    SplitFresh(p, b, j);
    SplitShape(p, b, j);
    SplitSeparate(p, b, j);
    SplitCovers(p, b, j);
  }

  lemma SplitLists(p: Pool, b: nat, j: nat)
    requires Splits(p, b, j) && ListsMatch(p)
    ensures 0 < j < |p.avail| && ListsMatch(Split(p, b, j))
  {
    SplitFresh(p, b, j);
    var q, upper := Split(p, b, j), b + Pow2(j - 1);
    forall k | 0 <= k <= p.top
      ensures ListMatches(q, k)
    {
      assert ListMatches(p, k);
      if k == j - 1 {
        assert !FreeWith(p, upper, k);
      }
    }
  }

  lemma SplitMerged(p: Pool, b: nat, j: nat)
    requires Splits(p, b, j) && Merged(p)
    ensures 0 < j < |p.avail| && Merged(Split(p, b, j))
  {
    SplitFresh(p, b, j);
    var q, upper := Split(p, b, j), b + Pow2(j - 1);
    assert OneNewFree(p, q, upper, j - 1);
    assert !CanMerge(q, upper, j - 1);
    OneNewFreeMerged(p, q, upper, j - 1);
  }

  lemma SplitInv(p: Pool, b: nat, j: nat)
    requires Inv(p) && Splits(p, b, j)
    ensures 0 < j < |p.avail|
    ensures var q := Split(p, b, j);
            Inv(q) && b in q.part && q.part[b] == Piece(j - 1, false)
  {
    SplitTiled(p, b, j);
    SplitLists(p, b, j);
    SplitMerged(p, b, j);
  }

  // ------------------------------------------------------------------ Merge

  // b is an allocated order-o block whose buddy can be absorbed.
  ghost predicate Merges(p: Pool, b: nat, o: nat)
  {
    Tiled(p) && b in p.part && p.part[b] == Piece(o, false) && CanMerge(p, b, o)
  }

  lemma MergeFacts(p: Pool, b: nat, o: nat)
    requires Merges(p, b, o)
    ensures var buddy := Buddy(b, o);
            var low := Min(b, buddy);
            && o + 1 < |p.avail| && buddy in p.part && p.part[buddy] == Piece(o, true)
            && (buddy == b + Pow2(o) || b == buddy + Pow2(o))
            && Fits(p, low, o + 1) && Pow2(o + 1) == 2 * Pow2(o)
  {
    assert Fits(p, b, o);
    BuddyFacts(b, o, p.top);
  }

  lemma MergeSeparate(p: Pool, b: nat, o: nat)
    requires Merges(p, b, o)
    ensures o + 1 < |p.avail| && Separate(Merge(p, b, o).part)
  {
    MergeFacts(p, b, o);
    var buddy, q := Buddy(b, o), Merge(p, b, o);
    var low := Min(b, buddy);
    forall g: nat, h: nat
      ensures Apart(q.part, g, h)
    {
      assert Apart(p.part, g, h);
      assert Apart(p.part, b, h) && Apart(p.part, buddy, h);
      assert Apart(p.part, g, b) && Apart(p.part, g, buddy);
    }
  }

  lemma MergeShape(p: Pool, b: nat, o: nat)
    requires Merges(p, b, o)
    ensures o + 1 < |p.avail| && WellShaped(Merge(p, b, o))
  {
    MergeFacts(p, b, o);
    var q := Merge(p, b, o);
    forall h: nat, k: nat | h in q.part && q.part[h].order == k
      ensures Fits(q, h, k)
    {
      assert Fits(p, h, k);
    }
  }

  lemma MergeCovers(p: Pool, b: nat, o: nat)
    requires Merges(p, b, o)
    ensures o + 1 < |p.avail| && Covers(Merge(p, b, o))
  {
    MergeFacts(p, b, o);
    var q, buddy := Merge(p, b, o), Buddy(b, o);
    var low := Min(b, buddy);
    forall x: nat | x < Pow2(p.top)
      ensures CoveredAt(q.part, x)
    {
      assert CoveredAt(p.part, x);
      var h :| h in p.part && InBlock(x, h, p.part[h].order);
      var g := if h == b || h == buddy then low else h;
      assert g in q.part && InBlock(x, g, q.part[g].order);
    }
  }

  lemma MergeTiled(p: Pool, b: nat, o: nat)
    requires Merges(p, b, o)
    ensures o + 1 < |p.avail| && Tiled(Merge(p, b, o))
  {
    MergeShape(p, b, o);
    MergeSeparate(p, b, o);
    MergeCovers(p, b, o);
  }

  lemma MergeLists(p: Pool, b: nat, o: nat)
    requires Merges(p, b, o) && ListsMatch(p)
    ensures o + 1 < |p.avail| && ListsMatch(Merge(p, b, o))
  {
    MergeFacts(p, b, o);
    var q, buddy := Merge(p, b, o), Buddy(b, o);
    assert ListMatches(p, o);
    RemoveMembers(p.avail[o], buddy);
    forall k | 0 <= k <= p.top
      ensures ListMatches(q, k)
    {
      assert ListMatches(p, k);
      forall h: nat
        ensures h in q.avail[k] <==> FreeWith(q, h, k)
      {
        assert FreeWith(q, h, k) <==> FreeWith(p, h, k) && h != buddy;
      }
    }
  }

  lemma MergeInv(p: Pool, b: nat, o: nat)
    requires Inv(p) && Merges(p, b, o)
    ensures o + 1 < |p.avail|
    ensures var q, low := Merge(p, b, o), Min(b, Buddy(b, o));
            Inv(q) && low in q.part && q.part[low] == Piece(o + 1, false)
  {
    MergeFacts(p, b, o);
    MergeTiled(p, b, o);
    MergeLists(p, b, o);
    var q := Merge(p, b, o);
    assert NoNewFree(p, q);
    NoNewFreeMerged(p, q);
  }

  // ----------------------------------------------------------------- Insert

  lemma InsertLists(p: Pool, b: nat, o: nat)
    requires WellShaped(p) && ListsMatch(p) && b in p.part && p.part[b] == Piece(o, false)
    ensures o < |p.avail| && ListsMatch(Insert(p, b, o))
  {
    assert Fits(p, b, o);
    var q := Insert(p, b, o);
    forall k | 0 <= k <= p.top
      ensures ListMatches(q, k)
    {
      assert ListMatches(p, k);
      assert b !in p.avail[k] by {
        assert !FreeWith(p, b, k);
      }
    }
  }

  lemma InsertMerged(p: Pool, b: nat, o: nat)
    requires WellShaped(p) && Merged(p) && b in p.part && p.part[b] == Piece(o, false)
    requires !CanMerge(p, b, o)
    ensures o < |p.avail| && Merged(Insert(p, b, o))
  {
    assert Fits(p, b, o);
    var q := Insert(p, b, o);
    assert OneNewFree(p, q, b, o);
    if o < p.top {
      BuddyFacts(b, o, p.top);
      var g := Buddy(b, o);
      assert FreeWith(q, g, o) ==> FreeWith(p, g, o);
    }
    OneNewFreeMerged(p, q, b, o);
  }

  lemma InsertInv(p: Pool, b: nat, o: nat)
    requires Inv(p) && b in p.part && p.part[b] == Piece(o, false) && !CanMerge(p, b, o)
    ensures o < |p.avail| && Inv(Insert(p, b, o))
  {
    InsertLists(p, b, o);
    InsertMerged(p, b, o);
    assert SameShape(p, Insert(p, b, o));
    SameShapeTiled(p, Insert(p, b, o));
  }

  // ------------------------------------------------------ whole operations

  lemma {:induction false} TrimInv(p: Pool, b: nat, j: nat, order: nat)
    requires Inv(p) && b in p.part && p.part[b] == Piece(j, false) && p.min <= order <= j
    ensures j < |p.avail|
    ensures var q := Trim(p, b, j, order);
            Inv(q) && q.top == p.top && q.min == p.min
    decreases j
  {
    assert Fits(p, b, j);
    if j > order {
      SplitInv(p, b, j);
      TrimInv(Split(p, b, j), b, j - 1, order);
    }
  }

  lemma SplitLive(p: Pool, b: nat, j: nat)
    requires b in p.part && p.part[b] == Piece(j, false) && 0 < j <= |p.avail|
    requires b + Pow2(j - 1) !in p.part
    ensures Live(Split(p, b, j)) == Live(p)[b := j - 1]
  {
    var upper := b + Pow2(j - 1);
    assert upper != b && upper !in Live(p);
  }

  lemma {:induction false} TrimLive(p: Pool, b: nat, j: nat, order: nat)
    requires Inv(p) && b in p.part && p.part[b] == Piece(j, false) && p.min <= order <= j
    ensures j < |p.avail| && Live(Trim(p, b, j, order)) == Live(p)[b := order]
    decreases j
  {
    assert Fits(p, b, j);
    if j > order {
      SplitInv(p, b, j);
      SplitFresh(p, b, j);
      SplitLive(p, b, j);
      TrimLive(Split(p, b, j), b, j - 1, order);
    } else {
      assert Live(p) == Live(p)[b := order];
    }
  }

  lemma TakeLive(p: Pool, j: nat)
    requires j < |p.avail| && p.avail[j] != [] && FreeWith(p, p.avail[j][0], j)
    ensures Live(Take(p, j)) == Live(p)[p.avail[j][0] := j]
    ensures p.avail[j][0] !in Live(p)
  {
  }

  lemma AllocLive(p: Pool, order: nat)
    requires Inv(p) && order <= p.top
    ensures var (q, r) := Alloc(p, order);
            match r
            case None => q == p
            case Some(b) => b !in Live(p) && Live(q) == Live(p)[b := Fixup(p, order)]
  {
    var o := Fixup(p, order);
    var j := FirstOrder(p, o);
    if j <= p.top {
      var b, q := p.avail[j][0], Take(p, j);
      TakeInv(p, j);
      TrimLive(q, b, j, o);
      TakeLive(p, j);
    }
  }

  lemma AllocInv(p: Pool, order: nat)
    requires Inv(p) && order <= p.top
    ensures var q := Alloc(p, order).0;
            Inv(q) && q.top == p.top && q.min == p.min
  {
    var o := Fixup(p, order);
    var j := FirstOrder(p, o);
    if j <= p.top {
      TakeInv(p, j);
      TrimInv(Take(p, j), p.avail[j][0], j, o);
    }
  }

  // ---------------------------------------------------------------- Release

  // The block in hand during buddy_free: not free, of order o.
  predicate InHand(p: Pool, b: nat, o: nat)
  {
    b in p.part && p.part[b] == Piece(o, false)
  }

  // What is live besides the block in hand.
  ghost function Others(p: Pool, b: nat): map<nat, nat>
  {
    Live(p) - {b}
  }

  lemma SplitOthers(p: Pool, b: nat, j: nat)
    requires Splits(p, b, j)
    ensures 0 < j <= |p.avail| && Others(Split(p, b, j), b) == Others(p, b)
  {
    SplitFresh(p, b, j);
  }

  lemma TakeOthers(p: Pool, j: nat)
    requires Inv(p) && j <= p.top && p.avail[j] != []
    ensures var b := p.avail[j][0];
            b !in Live(p) && Others(Take(p, j), b) == Live(p)
  {
    assert ListMatches(p, j);
    assert FreeWith(p, p.avail[j][0], j);
  }

  lemma MergeOthers(p: Pool, b: nat, o: nat, low: nat)
    requires InHand(p, b, o) && CanMerge(p, b, o) && o < |p.avail|
    requires low == Min(b, Buddy(b, o))
    ensures Others(Merge(p, b, o), low) == Others(p, b)
  {
    var q, buddy := Merge(p, b, o), Buddy(b, o);
    forall h | h != low
      ensures h in Live(q) <==> h in Live(p) && h != b
    {
      assert h in q.part <==> h in p.part && h != b && h != buddy;
    }
  }

  lemma InsertLive(p: Pool, b: nat, o: nat)
    requires InHand(p, b, o) && o < |p.avail|
    ensures Live(Insert(p, b, o)) == Others(p, b)
  {
  }

  lemma ReleaseStep(p: Pool, b: nat, o: nat)
    requires Inv(p) && InHand(p, b, o)
    ensures o <= p.top
    ensures CanMerge(p, b, o) ==>
              var q, low := Merge(p, b, o), Min(b, Buddy(b, o));
              && o < p.top && q.top == p.top && q.min == p.min
              && Inv(q) && InHand(q, low, o + 1)
              && Release(p, b, o) == Release(q, low, o + 1)
    ensures !CanMerge(p, b, o) ==>
              Release(p, b, o) == Insert(p, b, o) && Inv(Insert(p, b, o))
  {
    assert Fits(p, b, o);
    if CanMerge(p, b, o) {
      MergeInv(p, b, o);
    } else {
      InsertInv(p, b, o);
    }
  }

  lemma {:induction false} ReleaseInv(p: Pool, b: nat, o: nat)
    requires Inv(p) && InHand(p, b, o)
    ensures o <= p.top
    ensures var q := Release(p, b, o);
            Inv(q) && q.top == p.top && q.min == p.min
    decreases p.top - o
  {
    ReleaseStep(p, b, o);
    if CanMerge(p, b, o) {
      ReleaseInv(Merge(p, b, o), Min(b, Buddy(b, o)), o + 1);
    }
  }

  lemma {:induction false} ReleaseLive(p: Pool, b: nat, o: nat)
    requires Inv(p) && InHand(p, b, o)
    ensures o <= p.top && Live(Release(p, b, o)) == Others(p, b)
    decreases p.top - o
  {
    ReleaseStep(p, b, o);
    if CanMerge(p, b, o) {
      var low := Min(b, Buddy(b, o));
      ReleaseLive(Merge(p, b, o), low, o + 1);
      MergeOthers(p, b, o, low);
    } else {
      InsertLive(p, b, o);
    }
  }
}
