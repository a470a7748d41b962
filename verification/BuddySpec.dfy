// The buddy allocator as values: a pool is a partition of [0, 2^top) into
// pieces, and one free list per order.  Alloc and Release below are what
// buddy_alloc and buddy_free are proved to compute (see BuddyMempool.dfy).

module BuddySpec {
  import opened Options
  import opened Dyadic

  // A block of 2^order bytes, free or handed out (or about to be).
  datatype Piece = Piece(order: nat, free: bool)

  // part maps the offset of each piece to the piece; avail[j] is the free
  // list of order j, first block first.
  datatype Pool = Pool(top: nat, min: nat, part: map<nat, Piece>, avail: seq<seq<nat>>)

  // ---------------------------------------------------------------- sequences

  predicate NoDup(s: seq<nat>)
  {
    forall i, j | 0 <= i < j < |s| :: s[i] != s[j]
  }

  function Remove(s: seq<nat>, x: nat): seq<nat>
  {
    if s == [] then []
    else if s[0] == x then s[1..]
    else [s[0]] + Remove(s[1..], x)
  }

  lemma {:induction false} RemoveAt(s: seq<nat>, i: nat)
    requires NoDup(s) && i < |s|
    ensures Remove(s, s[i]) == s[..i] + s[i + 1..]
  {
    if i > 0 {
      assert s[1..][i - 1] == s[i];
      RemoveAt(s[1..], i - 1);
    }
  }

  lemma RemoveMembers(s: seq<nat>, x: nat)
    requires NoDup(s) && x in s
    ensures NoDup(Remove(s, x))
    ensures forall y :: y in Remove(s, x) <==> y in s && y != x
  {
    var i :| 0 <= i < |s| && s[i] == x;
    RemoveAt(s, i);
    var t := s[..i] + s[i + 1..];
    forall y | y in s && y != x
      ensures y in t
    {
      var k :| 0 <= k < |s| && s[k] == y;
      assert y == t[if k < i then k else k - 1];
    }
  }

  // --------------------------------------------------------------- invariants

  // A legal block: supported order, aligned, inside the pool.
  predicate Fits(p: Pool, h: nat, order: nat)
  {
    p.min <= order <= p.top && Aligned(h, order) && h + Pow2(order) <= Pow2(p.top)
  }

  predicate InBlock(x: nat, h: nat, order: nat)
  {
    h <= x < h + Pow2(order)
  }

  predicate FreeWith(p: Pool, h: nat, order: nat)
  {
    h in p.part && p.part[h] == Piece(order, true)
  }

  ghost predicate WellShaped(p: Pool)
  {
    && p.min <= p.top
    && |p.avail| == p.top + 1
    && forall h: nat, o: nat {:trigger Fits(p, h, o)} | h in p.part && p.part[h].order == o :: Fits(p, h, o)
  }

  predicate Apart(part: map<nat, Piece>, g: nat, h: nat)
  {
    g in part && h in part && g < h ==> g + Pow2(part[g].order) <= h
  }

  ghost predicate Separate(part: map<nat, Piece>)
  {
    forall g: nat, h: nat :: Apart(part, g, h)
  }

  ghost predicate CoveredAt(part: map<nat, Piece>, x: nat)
  {
    exists h :: h in part && InBlock(x, h, part[h].order)
  }

  ghost predicate Covers(p: Pool)
  {
    forall x: nat | x < Pow2(p.top) :: CoveredAt(p.part, x)
  }

  // The pieces are aligned, pairwise disjoint and fill the pool.
  ghost predicate Tiled(p: Pool)
  {
    WellShaped(p) && Separate(p.part) && Covers(p)
  }

  ghost predicate ListMatches(p: Pool, j: nat)
    requires j < |p.avail|
  {
    NoDup(p.avail[j]) && forall h: nat :: h in p.avail[j] <==> FreeWith(p, h, j)
  }

  // Each free piece is in the free list of its order, exactly once.
  ghost predicate ListsMatch(p: Pool)
  {
    |p.avail| == p.top + 1 && forall j | 0 <= j <= p.top :: ListMatches(p, j)
  }

  predicate CanMerge(p: Pool, h: nat, order: nat)
  {
    order < p.top && FreeWith(p, Buddy(h, order), order)
  }

  // Two free buddies never coexist.
  ghost predicate Merged(p: Pool)
  {
    forall h: nat, o: nat {:trigger CanMerge(p, h, o)} | FreeWith(p, h, o) :: !CanMerge(p, h, o)
  }

  ghost predicate Inv(p: Pool)
  {
    Tiled(p) && ListsMatch(p) && Merged(p)
  }

  // The blocks handed out, with their orders.
  ghost function Live(p: Pool): map<nat, nat>
  {
    map h | h in p.part && !p.part[h].free :: p.part[h].order
  }

  // --------------------------------------------------------------- operations

  // The smallest supported order at or above `order`.
  function Fixup(p: Pool, order: nat): (o: nat)
    ensures o >= order && o >= p.min && (o == order || o == p.min)
  {
    if order < p.min then p.min else order
  }

  // The smallest order at or above `order` with a free block, or top + 1.
  function FirstOrder(p: Pool, order: nat): (j: nat)
    requires order <= p.top + 1 && |p.avail| == p.top + 1
    ensures order <= j <= p.top + 1
    ensures j <= p.top ==> p.avail[j] != []
    ensures forall k | order <= k < j :: p.avail[k] == []
    decreases p.top + 1 - order
  {
    if order == p.top + 1 || p.avail[order] != [] then order
    else FirstOrder(p, order + 1)
  }

  // Unlink the first block of list j and mark it allocated.
  function Take(p: Pool, j: nat): Pool
    requires j < |p.avail| && p.avail[j] != []
  {
    p.(part := p.part[p.avail[j][0] := Piece(j, false)],
       avail := p.avail[j := p.avail[j][1..]])
  }

  // Give the upper half of the order-j block at b back.
  function Split(p: Pool, b: nat, j: nat): Pool
    requires 0 < j <= |p.avail|
  {
    var upper := b + Pow2(j - 1);
    p.(part := p.part[b := Piece(j - 1, false)][upper := Piece(j - 1, true)],
       avail := p.avail[j - 1 := [upper] + p.avail[j - 1]])
  }

  function Trim(p: Pool, b: nat, j: nat, order: nat): Pool
    requires j <= |p.avail|
    decreases j
  {
    if j <= order then p else Trim(Split(p, b, j), b, j - 1, order)
  }

  function Alloc(p: Pool, order: nat): (r: (Pool, Option<nat>))
    requires p.min <= p.top && |p.avail| == p.top + 1 && order <= p.top
  {
    var o := Fixup(p, order);
    var j := FirstOrder(p, o);
    if j > p.top then (p, None)
    else
      var b := p.avail[j][0];
      (Trim(Take(p, j), b, j, o), Some(b))
  }

  // Absorb the free buddy of the order-o block at b.
  function Merge(p: Pool, b: nat, o: nat): Pool
    requires o < |p.avail|
  {
    var buddy := Buddy(b, o);
    p.(part := (p.part - {b, buddy})[Min(b, buddy) := Piece(o + 1, false)],
       avail := p.avail[o := Remove(p.avail[o], buddy)])
  }

  // Put the block on its free list.
  function Insert(p: Pool, b: nat, o: nat): Pool
    requires o < |p.avail|
  {
    p.(part := p.part[b := Piece(o, true)], avail := p.avail[o := [b] + p.avail[o]])
  }

  function Release(p: Pool, b: nat, o: nat): Pool
    requires o <= p.top && |p.avail| == p.top + 1
    decreases p.top - o
  {
    if CanMerge(p, b, o) then Release(Merge(p, b, o), Min(b, Buddy(b, o)), o + 1)
    else Insert(p, b, o)
  }

  // buddy_init: every tag says "allocated" and no list holds anything, so the
  // whole pool is one block in the hands of the caller.
  function Fresh(top: nat, min: nat): Pool
  {
    Pool(top, min, map[0 := Piece(top, false)], seq(top + 1, _ => []))
  }

  // -------------------------------------------------------------- steps keep Inv

  lemma FreshInv(top: nat, min: nat)
    requires min <= top
    ensures Inv(Fresh(top, min)) && Live(Fresh(top, min)) == map[0 := top]
  {
    AlignedSelf(top);
    var p := Fresh(top, min);
    forall x: nat | x < Pow2(top)
      ensures CoveredAt(p.part, x)
    {
      assert 0 in p.part && InBlock(x, 0, p.part[0].order);
    }
  }

  // Two pieces that overlap are the same piece.
  lemma SamePiece(p: Pool, g: nat, h: nat, x: nat)
    requires Separate(p.part) && g in p.part && h in p.part
    requires InBlock(x, g, p.part[g].order) && InBlock(x, h, p.part[h].order)
    ensures g == h
  {
    assert Apart(p.part, g, h) && Apart(p.part, h, g);
  }

  // The address find_buddy computes for a piece is itself the start of a
  // piece, never the middle of one, whose order is no larger.
  lemma BuddyIsHead(p: Pool, h: nat)
    requires Tiled(p) && h in p.part && p.part[h].order < p.top
    ensures Buddy(h, p.part[h].order) in p.part
    ensures p.part[Buddy(h, p.part[h].order)].order <= p.part[h].order
  {
    var o := p.part[h].order;
    var b := Buddy(h, o);
    assert Fits(p, h, o);
    BuddyFacts(h, o, p.top);
    assert CoveredAt(p.part, b);
    var g :| g in p.part && InBlock(b, g, p.part[g].order);
    var k := p.part[g].order;
    assert Fits(p, g, k);
    if k > o {
      Nested(Min(h, b), o + 1, g, k);
      SamePiece(p, g, h, h);
      assert false;
    }
    Nested(g, k, b, o);
  }
}
