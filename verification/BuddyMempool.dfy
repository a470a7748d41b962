// The buddy allocator as it runs: a tag bitmap, free lists threaded through the
// free blocks, and an order field in each free block, all updated in place.
// Offsets are relative to base_addr; the methods take and return addresses.

module BuddyMempool {
  import opened Options
  import opened Dyadic
  import opened BuddySpec
  import opened BuddySteps
  import opened BuddyTheorems
  import opened IntrusiveList
  import opened BuddyImage

  // sizeof(struct block): two list pointers and the order, eight bytes each.
  const BLOCK_STRUCT_SIZE: nat := 24

  // The order a minimum of m is raised to when 2^m cannot hold a struct block:
  // ilog2(roundup_pow_of_two(24)).
  function MinOrderFixup(m: nat): nat
  {
    if Pow2(m) < BLOCK_STRUCT_SIZE then 5 else m
  }

  // The fix-up is the smallest order at or above m whose blocks hold the struct.
  lemma MinOrderFixupExact(m: nat)
    ensures var r := MinOrderFixup(m);
            && m <= r && Pow2(r) >= BLOCK_STRUCT_SIZE
            && forall k: nat :: m <= k && Pow2(k) >= BLOCK_STRUCT_SIZE ==> r <= k
  {
    assert Pow2(5) == 32 && Pow2(4) == 16 by {
      assert Pow2(1) == 2 && Pow2(2) == 4 && Pow2(3) == 8;
    }
    if m > 5 {
      Pow2Monotone(5, m);
    }
    forall k: nat | m <= k && Pow2(k) >= BLOCK_STRUCT_SIZE
      ensures MinOrderFixup(m) <= k
    {
      if k <= 4 {
        Pow2Monotone(k, 4);
      }
    }
  }

  class Mempool {
    const base: nat
    const poolOrder: nat
    const minOrder: nat
    const tagBits: array<bool>
    // Link fields: of the list heads avail[j], and inside the blocks.
    var link: Links
    // Order fields inside the blocks.
    var order: map<nat, nat>
    ghost var pool: Pool

    ghost function Im(): Image
      reads this, tagBits
    {
      Image(tagBits[..], link, order)
    }

    ghost predicate Mirrors(p: Pool, hand: Option<nat>)
      reads this, tagBits
    {
      Inv(p) && p.top == poolOrder && p.min == minOrder && Reflects(Im(), p, hand)
    }

    ghost predicate Valid()
      reads this, tagBits
    {
      Mirrors(pool, None)
    }

    // buddy_init, past its argument checks.
    constructor (base: nat, poolOrder: nat, minOrder: nat)
      requires minOrder <= poolOrder
      ensures this.base == base && this.poolOrder == poolOrder && this.minOrder == minOrder
      ensures fresh(tagBits) && Valid() && pool == Fresh(poolOrder, minOrder)
      ensures forall i | 0 <= i < tagBits.Length :: !tagBits[i]
    {
      this.base, this.poolOrder, this.minOrder := base, poolOrder, minOrder;
      link := map j: nat | j <= poolOrder :: Head(j) := Link(Head(j), Head(j));
      order := map[];
      tagBits := new bool[Pow2(poolOrder - minOrder)](_ => false);
      pool := Fresh(poolOrder, minOrder);
      new;
      FreshInv(poolOrder, minOrder);
      var im := Im();
      forall j: nat
        ensures RingOk(im, pool, j)
      {
        if j <= poolOrder {
          RingEmpty(im.link, j);
        }
      }
      forall h: nat
        ensures TagOk(im, pool, None, h)
      {
        if h in pool.part {
          TagIndex(pool, h);
        }
      }
    }

    function BlockToId(block: nat): nat
    {
      Shr(block, minOrder)
    }

    predicate IsAvailable(block: nat)
      reads tagBits
      requires BlockToId(block) < tagBits.Length
    {
      tagBits[BlockToId(block)]
    }

    function FindBuddy(block: nat, o: nat): nat
    {
      Xor(block, Pow2(o))
    }

    method MarkAvailable(block: nat)
      requires BlockToId(block) < tagBits.Length
      modifies tagBits
      ensures tagBits[..] == old(tagBits[..])[BlockToId(block) := true]
    {
      tagBits[BlockToId(block)] := true;
    }

    method MarkAllocated(block: nat)
      requires BlockToId(block) < tagBits.Length
      modifies tagBits
      ensures tagBits[..] == old(tagBits[..])[BlockToId(block) := false]
    {
      tagBits[BlockToId(block)] := false;
    }

    // buddy_alloc.
    method Alloc(request: nat) returns (r: Option<nat>)
      requires Valid() && request <= poolOrder
      modifies this, tagBits
      ensures Valid()
      ensures pool == BuddySpec.Alloc(old(pool), request).0
      ensures match BuddySpec.Alloc(old(pool), request).1
              case None => r == None
              case Some(b) => r == Some(base + b)
      ensures r == None <==> NoRoom(old(pool), Fixup(old(pool), request))
      ensures r.Some? ==>
                && r.value >= base && r.value - base !in Live(old(pool))
                && Live(pool) == Live(old(pool))[r.value - base := Fixup(old(pool), request)]
      ensures Spares(Live(old(pool)), old(Im()), Im())
    {
      FailsExactly(pool, request);
      AllocLive(pool, request);
      var o := if request < minOrder then minOrder else request;
      var j := o;
      while j <= poolOrder
        invariant o <= j <= poolOrder + 1
        invariant Valid() && pool == old(pool)
        invariant FirstOrder(pool, o) == FirstOrder(pool, j) && Im() == old(Im())
      {
        var empty := ListEmpty(j);
        if empty {
          j := j + 1;
          continue;
        }
        ghost var p, im := pool, Im();
        var block := TakeBlock(j);
        TakeOthers(p, j);
        ghost var im1 := Im();
        Trim(block, j, o);
        SparesTrans(Live(p), im, im1, Im());
        return Some(base + block);
      }
      return None;
    }

    method ListEmpty(j: nat) returns (empty: bool)
      requires Valid() && j <= poolOrder
      ensures empty <==> pool.avail[j] == []
    {
      assert RingOk(Im(), pool, j);
      RingFirst(link, j, pool.avail[j]);
      empty := link[Head(j)].next == Head(j);
    }

    // Unlink the first block of list j and mark it allocated.
    method TakeBlock(j: nat) returns (block: nat)
      requires Valid() && j <= poolOrder && pool.avail[j] != []
      modifies this, tagBits
      ensures Valid() && block == old(pool).avail[j][0] && pool == Take(old(pool), j)
      ensures InHand(pool, block, j) && block !in Live(old(pool))
      ensures Spares(Live(old(pool)), old(Im()), Im())
    {
      assert RingOk(Im(), pool, j);
      RingFirst(link, j, pool.avail[j]);
      TakeInv(pool, j);
      TakeReflects(Im(), pool, j);
      TakeSpares(Im(), pool, j);
      ghost var im := Im();
      block := link[Head(j)].next.offset;
      link := Del(link, At(block));
      MarkAllocated(block);
      assert Im() == TakeImage(im, pool, block);
      pool := Take(pool, j);
    }

    // Give back the upper halves until the block has the order asked for.
    method Trim(block: nat, from: nat, o: nat)
      requires Valid() && InHand(pool, block, from) && minOrder <= o <= from <= poolOrder
      modifies this, tagBits
      ensures Valid() && pool == BuddySpec.Trim(old(pool), block, from, o)
      ensures Spares(Others(old(pool), block), old(Im()), Im())
    {
      var j := from;
      while j > o
        invariant o <= j <= from && Valid() && InHand(pool, block, j)
        invariant Others(pool, block) == Others(old(pool), block)
        invariant Spares(Others(old(pool), block), old(Im()), Im())
        invariant BuddySpec.Trim(pool, block, j, o) == BuddySpec.Trim(old(pool), block, from, o)
      {
        j := j - 1;
        ghost var im := Im();
        SplitBlock(block, j);
        SparesTrans(Others(old(pool), block), old(Im()), im, Im());
      }
    }

    method SplitBlock(block: nat, j: nat)
      requires Valid() && InHand(pool, block, j + 1) && minOrder <= j < poolOrder
      modifies this, tagBits
      ensures Valid() && pool == Split(old(pool), block, j + 1) && InHand(pool, block, j)
      ensures Others(pool, block) == Others(old(pool), block)
      ensures Spares(Others(old(pool), block), old(Im()), Im())
    {
      SplitInv(pool, block, j + 1);
      SplitReflects(Im(), pool, block, j + 1);
      SplitOthers(pool, block, j + 1);
      assert RingOk(Im(), pool, j);
      PutSpares(Im(), pool, block, block + Pow2(j), j);
      ghost var im := Im();
      var buddy := block + Pow2(j);
      PutOnList(buddy, j);
      assert Im() == PutImage(im, pool, buddy, j);
      pool := Split(pool, block, j + 1);
    }

    // Write the order, set the tag bit and link the block in.
    method PutOnList(block: nat, o: nat)
      requires BlockToId(block) < tagBits.Length
      requires Head(o) in link && link[Head(o)].next in link
      modifies this, tagBits
      ensures tagBits[..] == old(tagBits[..])[BlockToId(block) := true]
      ensures link == Add(old(link), At(block), Head(o)) && order == old(order)[block := o]
      ensures pool == old(pool)
    {
      order := order[block := o];
      MarkAvailable(block);
      link := Add(link, At(block), Head(o));
    }

    // A block its holder gives back is marked allocated.
    lemma HeldBlock(block: nat)
      requires Valid() && block in Live(pool)
      ensures BlockToId(block) < tagBits.Length && !IsAvailable(block)
      ensures Mirrors(pool, Some(block))
    {
      TagIndex(pool, block);
      assert TagOk(Im(), pool, None, block);
      TakeInHand(Im(), pool, block);
    }

    // The tag bit buddy_free reads is that of a piece; it looks at the order
    // field only of a free piece; and the two tell whether to merge.
    lemma ReadsHead(q: Pool, block: nat, o: nat)
      requires Mirrors(q, Some(block)) && InHand(q, block, o) && o < poolOrder
      ensures FindBuddy(block, o) == Buddy(block, o) && FindBuddy(block, o) in q.part
      ensures BlockToId(FindBuddy(block, o)) < tagBits.Length
      ensures IsAvailable(FindBuddy(block, o)) <==> q.part[FindBuddy(block, o)].free
      ensures IsAvailable(FindBuddy(block, o)) ==> FindBuddy(block, o) in order
      ensures CanMerge(q, block, o) <==>
                IsAvailable(FindBuddy(block, o)) && order[FindBuddy(block, o)] == o
    {
      BuddyIsXor(block, o);
      BuddyReadable(Im(), q, block, o);
    }

    // What freeing a live block does to the tag bits, and what the next call
    // will see of it.
    lemma FreedTags(block: nat, o: nat)
      requires Valid() && InHand(pool, block, o)
      ensures o <= poolOrder && BlockToId(block) < tagBits.Length
      ensures BlockToId(Landing(pool, block, o)) < tagBits.Length
      ensures tagBits[..][BlockToId(Landing(pool, block, o)) := true][BlockToId(block)] <==>
              block in Release(pool, block, o).part
    {
      SecondFreeCaught(Im(), pool, block, o);
    }

    // buddy_free.  Of the two BUG_ONs the first is the bound on the order, and
    // the second is asserted below.
    method Free(addr: nat, request: nat)
      requires Valid() && request <= poolOrder
      requires addr >= base && addr - base in Live(pool)
      requires Live(pool)[addr - base] == Fixup(pool, request)
      modifies this, tagBits
      ensures Valid()
      ensures pool == Release(old(pool), addr - base, Fixup(old(pool), request))
      ensures Live(pool) == Live(old(pool)) - {addr - base}
      ensures Spares(Live(pool), old(Im()), Im())
      ensures BlockToId(addr - base) < tagBits.Length
      ensures IsAvailable(addr - base) <==> addr - base in pool.part
      ensures var i := BlockToId(Landing(old(pool), addr - base, Fixup(old(pool), request)));
              i < tagBits.Length && tagBits[..] == old(tagBits[..])[i := true]
    {
      var o := if request < minOrder then minOrder else request;
      var block: nat := addr - base;
      HeldBlock(block);
      FreedTags(block, o);
      assert BlockToId(block) < tagBits.Length && !IsAvailable(block);
      ReleaseLive(pool, block, o);
      ghost var q;
      q, block, o := Coalesce(block, o);
      ghost var im := Im();
      Finish(q, block, o);
      SparesTrans(Others(q, block), old(Im()), im, Im());
    }

    // The loop of buddy_free: absorb the buddy as long as it is free and of the
    // same size.
    method Coalesce(start: nat, order: nat) returns (ghost q: Pool, block: nat, o: nat)
      requires Mirrors(pool, Some(start)) && InHand(pool, start, order) && order <= poolOrder
      modifies this
      ensures pool == old(pool) && o <= poolOrder
      ensures Mirrors(q, Some(block)) && InHand(q, block, o) && !CanMerge(q, block, o)
      ensures Insert(q, block, o) == Release(pool, start, order) && block == Landing(pool, start, order)
      ensures Others(q, block) == Others(pool, start) && Spares(Others(q, block), old(Im()), Im())
    {
      q, block, o := pool, start, order;
      ghost var held := Others(q, block);
      while o < poolOrder
        invariant o <= poolOrder && InHand(q, block, o) && Mirrors(q, Some(block)) && pool == old(pool)
        invariant Release(q, block, o) == Release(pool, start, order)
        invariant Landing(q, block, o) == Landing(pool, start, order)
        invariant Others(q, block) == held && Spares(held, old(Im()), Im())
        decreases poolOrder - o
      {
        var buddy := FindBuddy(block, o);
        ReadsHead(q, block, o);
        if !IsAvailable(buddy) {
          break;
        }
        if IsAvailable(buddy) && this.order[buddy] != o {
          break;
        }
        ghost var im := Im();
        MergeOthers(q, block, o, Min(block, buddy));
        Absorb(q, block, o, buddy);
        SparesTrans(held, old(Im()), im, Im());
        q := Merge(q, block, o);
        if buddy < block {
          block := buddy;
        }
        o := o + 1;
      }
    }

    // Unlink the buddy and write the merged block's order.
    method Absorb(ghost q: Pool, block: nat, o: nat, buddy: nat)
      requires Mirrors(q, Some(block)) && InHand(q, block, o) && CanMerge(q, block, o)
      requires buddy == Buddy(block, o)
      modifies this
      ensures pool == old(pool) && Mirrors(Merge(q, block, o), Some(Min(block, buddy)))
      ensures InHand(Merge(q, block, o), Min(block, buddy), o + 1)
      ensures Spares(Others(q, block), old(Im()), Im())
    {
      MergeInv(q, block, o);
      MergeSpares(Im(), q, block, o);
      MergeReflects(Im(), q, block, o);
      ghost var im := Im();
      link := Del(link, At(buddy));
      var low := if buddy < block then buddy else block;
      order := order[low := o + 1];
      assert Im() == MergeImage(im, buddy, Min(block, buddy), o);
    }

    // Put the coalesced block on its list.
    method Finish(ghost q: Pool, block: nat, o: nat)
      requires Mirrors(q, Some(block)) && InHand(q, block, o) && !CanMerge(q, block, o)
      requires o <= poolOrder
      modifies this, tagBits
      ensures Valid() && pool == Insert(q, block, o) && Spares(Others(q, block), old(Im()), Im())
      ensures BlockToId(block) < tagBits.Length && tagBits[..] == old(tagBits[..])[BlockToId(block) := true]
    {
      InsertInv(q, block, o);
      assert RingOk(Im(), q, o);
      TagIndex(q, block);
      PutSpares(Im(), q, block, block, o);
      InsertReflects(Im(), q, block, o);
      ghost var im := Im();
      PutOnList(block, o);
      assert Im() == PutImage(im, q, block, o);
      pool := Insert(q, block, o);
    }

    // The holder of a live block writes into it.
    method Scribble(ghost owner: nat, at: nat, l: Link, o: nat)
      requires Valid() && owner in Live(pool) && InBlock(at, owner, Live(pool)[owner])
      modifies this
      ensures Valid() && pool == old(pool)
    {
      ScribbleReflects(Im(), pool, owner, at, l, o);
      ghost var im := Im();
      link := link[At(at) := l];
      order := order[at := o];
      assert Im() == im.(link := im.link[At(at) := l], order := im.order[at := o]);
    }
  }

  // buddy_init: no allocator when the smallest block would exceed the pool.
  method BuddyInit(base: nat, poolOrder: nat, minOrder: nat) returns (mp: Mempool?)
    ensures mp == null <==> MinOrderFixup(minOrder) > poolOrder
    ensures mp != null ==>
              && fresh(mp) && fresh(mp.tagBits) && mp.Valid()
              && mp.base == base && mp.poolOrder == poolOrder
              && mp.pool == Fresh(poolOrder, MinOrderFixup(minOrder))
              && forall i | 0 <= i < mp.tagBits.Length :: !mp.tagBits[i]
  {
    var m := minOrder;
    if Pow2(m) < BLOCK_STRUCT_SIZE {
      m := 5;
    }
    if m > poolOrder {
      return null;
    }
    mp := new Mempool(base, poolOrder, m);
  }
}
