// How a pool lies in memory: one tag bit per minimum-sized block, link fields
// and an order field inside the blocks.  Only what the allocator may rely on
// is fixed: tag bits at the heads of pieces, links and orders of free pieces.
// Tag bits inside pieces may be stale, and live memory holds anything.

module BuddyImage {
  import opened Options
  import opened Dyadic
  import opened BuddySpec
  import opened BuddySteps
  import opened BuddyTheorems
  import opened IntrusiveList

  datatype Image = Image(tag: seq<bool>, link: Links, order: map<nat, nat>)

  // The tag bit of a piece says whether it is free; that of the block in hand
  // (the one buddy_free is coalescing) is not relied upon.
  predicate TagOk(im: Image, p: Pool, hand: Option<nat>, h: nat)
  {
    h in p.part && hand != Some(h) ==>
      Shr(h, p.min) < |im.tag| && im.tag[Shr(h, p.min)] == p.part[h].free
  }

  predicate OrderOk(im: Image, p: Pool, h: nat, o: nat)
  {
    FreeWith(p, h, o) ==> h in im.order && im.order[h] == o
  }

  ghost predicate RingOk(im: Image, p: Pool, j: nat)
  {
    j < |p.avail| ==> Ring(im.link, j, p.avail[j])
  }

  ghost predicate Reflects(im: Image, p: Pool, hand: Option<nat>)
  {
    && p.min <= p.top && |im.tag| == Pow2(p.top - p.min)
    && (forall h: nat :: TagOk(im, p, hand, h))
    && (forall h: nat, o: nat :: OrderOk(im, p, h, o))
    && (forall j: nat :: RingOk(im, p, j))
  }

  lemma TakeInHand(im: Image, p: Pool, b: nat)
    requires Reflects(im, p, None)
    ensures Reflects(im, p, Some(b))
  {
    forall h: nat
      ensures TagOk(im, p, Some(b), h)
    {
      assert TagOk(im, p, None, h);
    }
  }

  // block_to_id: the number of the tag bit of a piece, in bounds and its own.
  lemma TagIndex(p: Pool, h: nat)
    requires WellShaped(p) && h in p.part
    ensures Shr(h, p.min) < Pow2(p.top - p.min) && Aligned(h, p.min)
  {
    var o := p.part[h].order;
    assert Fits(p, h, o);
    AlignedDown(h, p.min, o);
    ShrBound(h, p.min, p.top);
  }

  lemma TagApart(p: Pool, g: nat, h: nat)
    requires WellShaped(p) && g in p.part && h in p.part && g != h
    ensures Shr(g, p.min) != Shr(h, p.min)
  {
    TagIndex(p, g);
    TagIndex(p, h);
    if Shr(g, p.min) == Shr(h, p.min) {
      ShrInjective(g, h, p.min);
    }
  }

  function SetTag(im: Image, i: nat, value: bool): Image
    requires i < |im.tag|
  {
    im.(tag := im.tag[i := value])
  }

  // Writing the tag bit of piece b leaves the tag bits of all other pieces.
  lemma SetTagOk(im: Image, p: Pool, hand: Option<nat>, b: nat, value: bool, h: nat)
    requires WellShaped(p) && b in p.part && h != b && TagOk(im, p, hand, h)
    requires |im.tag| == Pow2(p.top - p.min)
    ensures Shr(b, p.min) < |im.tag| && TagOk(SetTag(im, Shr(b, p.min), value), p, hand, h)
  {
    TagIndex(p, b);
    if h in p.part {
      TagApart(p, b, h);
    }
  }

  lemma ListsDisjoint(p: Pool, j: nat, k: nat)
    requires ListsMatch(p) && j <= p.top && k <= p.top && j != k
    ensures forall h: nat | h in p.avail[j] :: h !in p.avail[k]
  {
    assert ListMatches(p, j) && ListMatches(p, k);
  }

  // ------------------------------------------------------------------- Take

  function TakeImage(im: Image, p: Pool, b: nat): Image
    requires At(b) in im.link && im.link[At(b)].next in im.link && im.link[At(b)].prev in im.link
    requires Shr(b, p.min) < |im.tag|
  {
    SetTag(im.(link := Del(im.link, At(b))), Shr(b, p.min), false)
  }

  lemma DelRings(im: Image, p: Pool, j: nat, i: nat, k: nat)
    requires ListsMatch(p) && j <= p.top && k <= p.top && i < |p.avail[j]|
    requires forall l: nat :: RingOk(im, p, l)
    ensures var x, l := At(p.avail[j][i]), im.link;
            && x in l && l[x].next in l && l[x].prev in l
            && (k != j ==> Ring(Del(l, x), k, p.avail[k]))
            && (k == j ==> Ring(Del(l, x), j, Remove(p.avail[j], p.avail[j][i])))
  {
    assert RingOk(im, p, j) && RingOk(im, p, k) && ListMatches(p, j);
    if k == j {
      DelRing(im.link, j, p.avail[j], i);
      RemoveAt(p.avail[j], i);
    } else {
      ListsDisjoint(p, j, k);
      DelFrame(im.link, j, p.avail[j], i, k, p.avail[k]);
    }
  }

  lemma TakeReflects(im: Image, p: Pool, j: nat)
    requires Inv(p) && Reflects(im, p, None) && j <= p.top && p.avail[j] != []
    ensures var b := p.avail[j][0];
            && At(b) in im.link && im.link[At(b)].next in im.link && im.link[At(b)].prev in im.link
            && b in p.part && Shr(b, p.min) < |im.tag|
            && Reflects(TakeImage(im, p, b), Take(p, j), None)
  {
    var b, q := p.avail[j][0], Take(p, j);
    TakeInv(p, j);
    DelRings(im, p, j, 0, j);
    TagIndex(p, b);
    var im' := TakeImage(im, p, b);
    forall h: nat
      ensures TagOk(im', q, None, h)
    {
      assert TagOk(im, p, None, h);
      if h != b {
        SetTagOk(im, p, None, b, false, h);
      }
    }
    forall h: nat, o: nat
      ensures OrderOk(im', q, h, o)
    {
      assert OrderOk(im, p, h, o);
    }
    forall k: nat
      ensures RingOk(im', q, k)
    {
      if k <= p.top {
        DelRings(im, p, j, 0, k);
      }
    }
  }

  // ---------------------------------------------- Split and Insert: list_add

  function PutImage(im: Image, p: Pool, b: nat, o: nat): Image
    requires Head(o) in im.link && im.link[Head(o)].next in im.link
    requires Shr(b, p.min) < |im.tag|
  {
    SetTag(im.(link := Add(im.link, At(b), Head(o)), order := im.order[b := o]), Shr(b, p.min), true)
  }

  lemma AddRings(im: Image, p: Pool, b: nat, o: nat, k: nat)
    requires ListsMatch(p) && o <= p.top && k <= p.top && !FreeWith(p, b, k) && !FreeWith(p, b, o)
    requires forall l: nat :: RingOk(im, p, l)
    ensures Head(o) in im.link && im.link[Head(o)].next in im.link
    ensures Ring(Add(im.link, At(b), Head(o)), k, if k == o then [b] + p.avail[o] else p.avail[k])
  {
    assert RingOk(im, p, o) && RingOk(im, p, k) && ListMatches(p, o) && ListMatches(p, k);
    if k == o {
      AddRing(im.link, o, p.avail[o], b);
    } else {
      ListsDisjoint(p, o, k);
      AddFrame(im.link, o, p.avail[o], b, k, p.avail[k]);
    }
  }

  // q is p with the block b, not free before, put on the list of order o.
  ghost predicate Puts(p: Pool, q: Pool, b: nat, o: nat)
  {
    && Tiled(q) && b in q.part && q.part[b] == Piece(o, true)
    && q.top == p.top && q.min == p.min && o <= p.top && |p.avail| == p.top + 1
    && q.avail == p.avail[o := [b] + p.avail[o]]
    && (forall k: nat :: !FreeWith(p, b, k))
    && (forall h: nat, k: nat | FreeWith(q, h, k) && h != b :: FreeWith(p, h, k))
    && (forall h: nat | h in q.part && h != b :: h in p.part && q.part[h].free == p.part[h].free)
  }

  lemma PutTags(im: Image, p: Pool, q: Pool, b: nat, o: nat, im': Image, hand: Option<nat>, h: nat)
    requires Puts(p, q, b, o) && |im.tag| == Pow2(p.top - p.min) && TagOk(im, p, hand, h)
    requires hand == None || hand == Some(b)
    requires Shr(b, p.min) < |im.tag| && im'.tag == im.tag[Shr(b, p.min) := true]
    ensures TagOk(im', q, None, h)
  {
    if h != b && h in q.part {
      TagApart(q, b, h);
    }
  }

  lemma PutReflects(im: Image, p: Pool, q: Pool, b: nat, o: nat, hand: Option<nat>)
    requires ListsMatch(p) && Reflects(im, p, hand) && Puts(p, q, b, o)
    requires hand == None || hand == Some(b)
    ensures Head(o) in im.link && im.link[Head(o)].next in im.link && Shr(b, p.min) < |im.tag|
    ensures Reflects(PutImage(im, p, b, o), q, None)
  {
    AddRings(im, p, b, o, o);
    TagIndex(q, b);
    var im' := PutImage(im, p, b, o);
    forall h: nat
      ensures TagOk(im', q, None, h)
    {
      assert TagOk(im, p, hand, h);
      PutTags(im, p, q, b, o, im', hand, h);
    }
    forall h: nat, k: nat
      ensures OrderOk(im', q, h, k)
    {
      assert OrderOk(im, p, h, k);
    }
    forall k: nat
      ensures RingOk(im', q, k)
    {
      if k <= p.top {
        AddRings(im, p, b, o, k);
      }
    }
  }

  lemma SplitReflects(im: Image, p: Pool, b: nat, j: nat)
    requires Inv(p) && Splits(p, b, j) && Reflects(im, p, None)
    ensures 0 < j < |p.avail|
    ensures var upper := b + Pow2(j - 1);
            && Head(j - 1) in im.link && im.link[Head(j - 1)].next in im.link
            && Shr(upper, p.min) < |im.tag|
            && Reflects(PutImage(im, p, upper, j - 1), Split(p, b, j), None)
  {
    SplitFresh(p, b, j);
    SplitInv(p, b, j);
    var q, upper := Split(p, b, j), b + Pow2(j - 1);
    assert Puts(p, q, upper, j - 1);
    PutReflects(im, p, q, upper, j - 1, None);
  }

  lemma InsertReflects(im: Image, p: Pool, b: nat, o: nat)
    requires Inv(p) && InHand(p, b, o) && !CanMerge(p, b, o) && Reflects(im, p, Some(b))
    ensures o < |p.avail|
    ensures Head(o) in im.link && im.link[Head(o)].next in im.link && Shr(b, p.min) < |im.tag|
    ensures Reflects(PutImage(im, p, b, o), Insert(p, b, o), None)
  {
    InsertInv(p, b, o);
    assert Puts(p, Insert(p, b, o), b, o);
    PutReflects(im, p, Insert(p, b, o), b, o, Some(b));
  }

  // ------------------------------------------------------------------ Merge

  function MergeImage(im: Image, buddy: nat, low: nat, o: nat): Image
    requires At(buddy) in im.link && im.link[At(buddy)].next in im.link && im.link[At(buddy)].prev in im.link
  {
    im.(link := Del(im.link, At(buddy)), order := im.order[low := o + 1])
  }

  // What buddy_free reads about the buddy: its tag bit is the tag bit of a
  // piece, and its order field is looked at only if that piece is free.
  lemma BuddyReadable(im: Image, p: Pool, b: nat, o: nat)
    requires Inv(p) && InHand(p, b, o) && o < p.top && Reflects(im, p, Some(b))
    ensures var g := Buddy(b, o);
            && g in p.part && Shr(g, p.min) < |im.tag|
            && im.tag[Shr(g, p.min)] == p.part[g].free
            && (im.tag[Shr(g, p.min)] ==> g in im.order)
            && (CanMerge(p, b, o) <==> im.tag[Shr(g, p.min)] && im.order[g] == o)
  {
    var g := Buddy(b, o);
    assert Fits(p, b, o);
    BuddyFacts(b, o, p.top);
    BuddyIsHead(p, b);
    TagIndex(p, g);
    assert TagOk(im, p, Some(b), g) && OrderOk(im, p, g, p.part[g].order);
  }

  lemma MergeReflects(im: Image, p: Pool, b: nat, o: nat)
    requires Inv(p) && Merges(p, b, o) && Reflects(im, p, Some(b))
    ensures o + 1 < |p.avail|
    ensures var buddy := Buddy(b, o);
            var low := Min(b, buddy);
            && At(buddy) in im.link && im.link[At(buddy)].next in im.link && im.link[At(buddy)].prev in im.link
            && Reflects(MergeImage(im, buddy, low, o), Merge(p, b, o), Some(low))
  {
    MergeFacts(p, b, o);
    var q, buddy := Merge(p, b, o), Buddy(b, o);
    var low := Min(b, buddy);
    assert ListMatches(p, o) && buddy in p.avail[o];
    var i :| 0 <= i < |p.avail[o]| && p.avail[o][i] == buddy;
    DelRings(im, p, o, i, o);
    var im' := MergeImage(im, buddy, low, o);
    forall h: nat
      ensures TagOk(im', q, Some(low), h)
    {
      assert TagOk(im, p, Some(b), h);
    }
    forall h: nat, k: nat
      ensures OrderOk(im', q, h, k)
    {
      assert OrderOk(im, p, h, k);
    }
    forall k: nat
      ensures RingOk(im', q, k)
    {
      if k <= p.top {
        DelRings(im, p, o, i, k);
      }
    }
  }

  // ------------------------------------------------------------------- users

  // Whoever holds a live block may write anything into it: the links and the
  // order field there carry no meaning for the allocator.
  lemma ScribbleReflects(im: Image, p: Pool, g: nat, x: nat, link: Link, order: nat)
    requires Inv(p) && Reflects(im, p, None)
    requires g in Live(p) && InBlock(x, g, Live(p)[g])
    ensures Reflects(im.(link := im.link[At(x) := link], order := im.order[x := order]), p, None)
  {
    var im' := im.(link := im.link[At(x) := link], order := im.order[x := order]);
    assert forall k: nat :: !FreeWith(p, x, k) by {
      if x in p.part {
        assert Fits(p, x, p.part[x].order);
        SamePiece(p, g, x, x);
      }
    }
    forall h: nat, k: nat
      ensures OrderOk(im', p, h, k)
    {
      assert OrderOk(im, p, h, k);
    }
    forall h: nat
      ensures TagOk(im', p, None, h)
    {
      assert TagOk(im, p, None, h);
    }
    forall j: nat
      ensures RingOk(im', p, j)
    {
      assert RingOk(im, p, j);
      if j <= p.top {
        assert ListMatches(p, j);
        assert x !in p.avail[j];
        RingFirst(im.link, j, p.avail[j]);
        RingFrame(im.link, im'.link, j, p.avail[j]);
      }
    }
  }

  // ------------------------------------------------- live memory is left alone

  // The link and order fields at an offset.
  predicate SameCell(im: Image, im': Image, x: nat)
  {
    && (At(x) in im'.link <==> At(x) in im.link) && (At(x) in im.link ==> im'.link[At(x)] == im.link[At(x)])
    && (x in im'.order <==> x in im.order) && (x in im.order ==> im'.order[x] == im.order[x])
  }

  predicate CellSpared(held: map<nat, nat>, im: Image, im': Image, g: nat, x: nat)
  {
    g in held && InBlock(x, g, held[g]) ==> SameCell(im, im', x)
  }

  // Nothing was written inside these blocks.
  ghost predicate Spares(held: map<nat, nat>, im: Image, im': Image)
  {
    forall g: nat, x: nat :: CellSpared(held, im, im', g, x)
  }

  lemma SparesTrans(held: map<nat, nat>, im: Image, im1: Image, im2: Image)
    requires Spares(held, im, im1) && Spares(held, im1, im2)
    ensures Spares(held, im, im2)
  {
    forall g: nat, x: nat
      ensures CellSpared(held, im, im2, g, x)
    {
      assert CellSpared(held, im, im1, g, x) && CellSpared(held, im1, im2, g, x);
    }
  }

  // An offset in a live block is no free block.
  lemma LiveNotListed(p: Pool, g: nat, x: nat, j: nat)
    requires Tiled(p) && ListsMatch(p) && j <= p.top && g in Live(p) && InBlock(x, g, Live(p)[g])
    ensures x !in p.avail[j] && !FreeWith(p, x, j)
  {
    assert ListMatches(p, j);
    if FreeWith(p, x, j) {
      assert Fits(p, x, j);
      SamePiece(p, g, x, x);
    }
  }

  // list_del writes to the neighbours only: list heads and free blocks.
  lemma DelSpares(im: Image, p: Pool, j: nat, i: nat, g: nat, x: nat)
    requires Tiled(p) && ListsMatch(p) && j <= p.top && i < |p.avail[j]| && RingOk(im, p, j)
    requires g in Live(p) && InBlock(x, g, Live(p)[g])
    ensures var b, l := At(p.avail[j][i]), im.link;
            && b in l && l[b].next in l && l[b].prev in l
            && (At(x) in Del(l, b) <==> At(x) in l) && (At(x) in l ==> Del(l, b)[At(x)] == l[At(x)])
  {
    LiveNotListed(p, g, x, j);
    RingMember(im.link, j, p.avail[j], i);
  }

  lemma TakeSpares(im: Image, p: Pool, j: nat)
    requires Inv(p) && Reflects(im, p, None) && j <= p.top && p.avail[j] != []
    ensures var b := p.avail[j][0];
            && At(b) in im.link && im.link[At(b)].next in im.link && im.link[At(b)].prev in im.link
            && Shr(b, p.min) < |im.tag| && Spares(Live(p), im, TakeImage(im, p, b))
  {
    TakeReflects(im, p, j);
    var b := p.avail[j][0];
    var im' := TakeImage(im, p, b);
    forall g: nat, x: nat
      ensures CellSpared(Live(p), im, im', g, x)
    {
      if g in Live(p) && InBlock(x, g, Live(p)[g]) {
        assert RingOk(im, p, j);
        DelSpares(im, p, j, 0, g, x);
      }
    }
  }

  // list_add writes to the block itself, the head and the first free block.
  lemma AddSpares(im: Image, p: Pool, b: nat, o: nat, g: nat, x: nat)
    requires Tiled(p) && ListsMatch(p) && o <= p.top && RingOk(im, p, o)
    requires g in Live(p) && InBlock(x, g, Live(p)[g]) && x != b
    ensures Head(o) in im.link && im.link[Head(o)].next in im.link
    ensures var l := Add(im.link, At(b), Head(o));
            (At(x) in l <==> At(x) in im.link) && (At(x) in im.link ==> l[At(x)] == im.link[At(x)])
  {
    LiveNotListed(p, g, x, o);
    RingFirst(im.link, o, p.avail[o]);
  }

  // A block put on its list is, or lies in, the block in hand.
  lemma PutSpares(im: Image, p: Pool, h: nat, b: nat, o: nat)
    requires Tiled(p) && ListsMatch(p) && o <= p.top && RingOk(im, p, o) && Shr(b, p.min) < |im.tag|
    requires h in p.part && !p.part[h].free && InBlock(b, h, p.part[h].order)
    ensures Head(o) in im.link && im.link[Head(o)].next in im.link
    ensures Spares(Others(p, h), im, PutImage(im, p, b, o))
  {
    RingFirst(im.link, o, p.avail[o]);
    var im' := PutImage(im, p, b, o);
    forall g: nat, x: nat
      ensures CellSpared(Others(p, h), im, im', g, x)
    {
      if g in Others(p, h) && InBlock(x, g, Others(p, h)[g]) {
        if x == b {
          SamePiece(p, g, h, x);
        }
        AddSpares(im, p, b, o, g, x);
      }
    }
  }

  // Merging writes to the buddy's neighbours and to the lower of the two.
  lemma MergeSpares(im: Image, p: Pool, b: nat, o: nat)
    requires Inv(p) && Merges(p, b, o) && Reflects(im, p, Some(b))
    ensures o + 1 < |p.avail|
    ensures var buddy := Buddy(b, o);
            && At(buddy) in im.link && im.link[At(buddy)].next in im.link && im.link[At(buddy)].prev in im.link
            && Spares(Others(p, b), im, MergeImage(im, buddy, Min(b, buddy), o))
  {
    MergeReflects(im, p, b, o);
    MergeFacts(p, b, o);
    var buddy := Buddy(b, o);
    var im' := MergeImage(im, buddy, Min(b, buddy), o);
    assert ListMatches(p, o) && buddy in p.avail[o];
    var i :| 0 <= i < |p.avail[o]| && p.avail[o][i] == buddy;
    forall g: nat, x: nat
      ensures CellSpared(Others(p, b), im, im', g, x)
    {
      if g in Others(p, b) && InBlock(x, g, Others(p, b)[g]) {
        assert RingOk(im, p, o);
        DelSpares(im, p, o, i, g, x);
        LiveNotListed(p, g, x, o);
        if x == b {
          SamePiece(p, g, b, x);
        }
      }
    }
  }

  // --------------------------------------------------- what is_available sees

  predicate Tagged(im: Image, p: Pool, h: nat)
  {
    Shr(h, p.min) < |im.tag| && im.tag[Shr(h, p.min)]
  }

  // The tag bit of an address inside a piece may be anything.
  lemma TagInside(im: Image, p: Pool, h: nat, value: bool)
    requires Inv(p) && Reflects(im, p, None) && Aligned(h, p.min) && h < Pow2(p.top) && h !in p.part
    ensures Shr(h, p.min) < |im.tag| && Reflects(SetTag(im, Shr(h, p.min), value), p, None)
  {
    ShrBound(h, p.min, p.top);
    var im' := SetTag(im, Shr(h, p.min), value);
    forall g: nat
      ensures TagOk(im', p, None, g)
    {
      assert TagOk(im, p, None, g);
      if g in p.part && Shr(g, p.min) == Shr(h, p.min) {
        TagIndex(p, g);
        ShrInjective(g, h, p.min);
      }
    }
    assert forall g: nat, o: nat :: OrderOk(im, p, g, o) ==> OrderOk(im', p, g, o);
    assert forall j: nat :: RingOk(im, p, j) ==> RingOk(im', p, j);
  }

  // The check of buddy_free stops the free of an address in every memory that
  // shows the pool exactly if a free block starts there; it lets it through in
  // every such memory exactly if a live block does.  Otherwise it depends on
  // what was left in the tag bit.
  lemma CatchesExactly(im: Image, p: Pool, h: nat)
    requires Inv(p) && Reflects(im, p, None) && Aligned(h, p.min) && h < Pow2(p.top)
    ensures (forall im' | Reflects(im', p, None) :: Tagged(im', p, h)) <==> h in p.part && p.part[h].free
    ensures (forall im' | Reflects(im', p, None) :: !Tagged(im', p, h)) <==> h in Live(p)
  {
    forall im' | Reflects(im', p, None)
      ensures h in p.part ==> (Tagged(im', p, h) <==> p.part[h].free)
    {
      assert TagOk(im', p, None, h);
    }
    if h !in p.part {
      TagInside(im, p, h, true);
      TagInside(im, p, h, false);
      assert Tagged(SetTag(im, Shr(h, p.min), true), p, h);
      assert !Tagged(SetTag(im, Shr(h, p.min), false), p, h);
    } else {
      assert TagOk(im, p, None, h);
    }
  }

  // Freeing b sets the tag bit of the block it ends in and no other, so that the
  // check stops a second free of b exactly if b starts that block.
  lemma SecondFreeCaught(im: Image, p: Pool, b: nat, o: nat)
    requires Inv(p) && Reflects(im, p, None) && InHand(p, b, o)
    ensures o <= p.top && Shr(b, p.min) < |im.tag| && Shr(Landing(p, b, o), p.min) < |im.tag|
    ensures var im' := SetTag(im, Shr(Landing(p, b, o), p.min), true);
            im'.tag[Shr(b, p.min)] <==> b in Release(p, b, o).part
  {
    StaysHeadExactly(p, b, o);
    var q, g := Release(p, b, o), Landing(p, b, o);
    LandingHead(p, b, o);
    ReleaseInv(p, b, o);
    TagIndex(p, b);
    TagIndex(q, g);
    assert TagOk(im, p, None, b);
    if Shr(b, p.min) == Shr(g, p.min) {
      ShrInjective(b, g, p.min);
    }
  }
}
