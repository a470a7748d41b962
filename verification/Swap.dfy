// The swap file: a bit map of used slots, eight to a byte, and a store of pages.

module Swap {

  import opened Bits

  // ----------------------------------------------------------------- the store

  // Which slots are used, and what each slot of the file holds.
  datatype Store<P> = Store(used: seq<bool>, file: seq<P>)

  predicate Sized<P>(s: Store<P>)
  {
    |s.used| == |s.file|
  }

  // The lowest unused slot, or the number of slots.
  function LeastFree(used: seq<bool>): (i: nat)
    ensures i <= |used|
    ensures i < |used| ==> !used[i]
    ensures forall k | 0 <= k < i :: used[k]
  {
    if used == [] || !used[0] then 0
    else
      var i := 1 + LeastFree(used[1..]);
      assert forall k | 1 <= k < i :: used[k] == used[1..][k - 1];
      i
  }

  predicate HasFree(used: seq<bool>)
  {
    LeastFree(used) < |used|
  }

  // swap_out_page: the page goes to the lowest unused slot, if there is one.
  function Out<P>(s: Store<P>, page: P): Store<P>
    requires Sized(s)
  {
    var i := LeastFree(s.used);
    if i < |s.used| then Store(s.used[i := true], s.file[i := page]) else s
  }

  // swap_in_page marks the slot unused; its bytes stay.
  function In<P>(s: Store<P>, i: nat): Store<P>
    requires i < |s.used|
  {
    s.(used := s.used[i := false])
  }

  datatype Op<P> = OutOp(page: P) | InOp(slot: nat)

  function Step<P>(s: Store<P>, op: Op<P>): Store<P>
    requires Sized(s)
  {
    match op
    case OutOp(page) => Out(s, page)
    case InOp(i) => if i < |s.used| then In(s, i) else s
  }

  function Run<P>(s: Store<P>, ops: seq<Op<P>>): (t: Store<P>)
    requires Sized(s)
    ensures Sized(t) && |t.used| == |s.used|
    decreases ops
  {
    if ops == [] then s else Run(Step(s, ops[0]), ops[1..])
  }

  // A used slot keeps its page through any run that does not swap it in.
  lemma {:induction false} UsedSlotKept<P>(s: Store<P>, ops: seq<Op<P>>, i: nat)
    requires Sized(s) && i < |s.used| && s.used[i]
    requires InOp(i) !in ops
    ensures Run(s, ops).used[i] && Run(s, ops).file[i] == s.file[i]
    decreases ops
  {
    if ops != [] {
      assert ops[0] in ops;
      UsedSlotKept(Step(s, ops[0]), ops[1..], i);
    }
  }

  // What is swapped out comes back: whatever else is swapped in and out in
  // between, the slot still holds the page when it is swapped in, and swapping
  // it in frees exactly that slot.
  lemma SwapRoundTrip<P>(s: Store<P>, page: P, ops: seq<Op<P>>)
    requires Sized(s) && HasFree(s.used)
    requires InOp(LeastFree(s.used)) !in ops
    ensures var i, t := LeastFree(s.used), Run(Out(s, page), ops);
            && t.file[i] == page && t.used[i]
            && In(Out(s, page), i).used == s.used
            && !In(t, i).used[i] && forall k | 0 <= k < |s.used| && k != i :: In(t, i).used[k] == t.used[k]
  {
    var i := LeastFree(s.used);
    UsedSlotKept(Out(s, page), ops, i);
    assert In(Out(s, page), i).used == s.used;
  }

  // ----------------------------------------------------------------- the class

  class SwapSpace<P> {
    // Number of slots.
    const size: nat
    const allocMap: array<bv8>
    const swapFile: array<P>

    predicate Valid()
      reads this
    {
      && size <= 8 * allocMap.Length && swapFile.Length == size
      && allocMap as object != swapFile as object
    }

    // The bit map and the file are whatever was on disk.
    constructor (size: nat, allocMap: array<bv8>, swapFile: array<P>)
      requires size <= 8 * allocMap.Length && swapFile.Length == size
      requires allocMap as object != swapFile as object
      ensures Valid() && this.size == size && this.allocMap == allocMap && this.swapFile == swapFile
    {
      this.size, this.allocMap, this.swapFile := size, allocMap, swapFile;
    }

    ghost function Used(): (u: seq<bool>)
      reads this, allocMap
      ensures |u| == size
    {
      BitsOf(allocMap[..], size)
    }

    ghost function Contents(): Store<P>
      reads this, allocMap, swapFile
    {
      Store(Used(), swapFile[..])
    }

    // -1 outside the map, else the slot's bit.
    method CheckBitmap(index: nat) returns (r: int)
      requires Valid()
      ensures index >= size ==> r == -1
      ensures index < size ==> r == if Used()[index] then 1 else 0
    {
      if index < size {
        var b := allocMap[index / 8];
        r := if TestBit(b, index % 8) then 1 else 0;
      } else {
        r := -1;
      }
    }

    // Nothing outside the map, else exactly the slot's bit.
    method PutValue(index: nat, value: bool)
      requires Valid()
      modifies allocMap
      ensures Used() == if index < size then old(Used())[index := value] else old(Used())
    {
      if index < size {
        PutBitOf(allocMap[..], size, index, value);
        ghost var before := allocMap[..];
        var b := allocMap[index / 8];
        allocMap[index / 8] := PutBit(b, index % 8, value);
        assert allocMap[..] == before[index / 8 := PutBit(b, index % 8, value)];
      }
    }

    // The slot number stays what it was when the map is full.  The source
    // returns -1 either way; done says which way it went.
    method SwapOutPage(index: nat, page: P) returns (slot: nat, done: bool)
      requires Valid()
      modifies allocMap, swapFile
      ensures done <==> HasFree(old(Used()))
      ensures slot == if done then LeastFree(old(Used())) else index
      ensures Contents() == Out(old(Contents()), page)
    {
      slot, done := index, false;
      for i := 0 to size
        invariant slot == index && !done && Contents() == old(Contents())
        invariant i <= LeastFree(Used())
      {
        var r := CheckBitmap(i);
        if r == 0 {
          PutValue(i, true);
          slot, done := i, true;
          swapFile[i] := page;
          break;
        }
      }
    }

    method SwapInPage(index: nat) returns (page: P)
      requires Valid() && index < size
      modifies allocMap
      ensures page == old(Contents()).file[index]
      ensures Contents() == In(old(Contents()), index)
    {
      page := swapFile[index];
      PutValue(index, false);
    }
  }
}
