// petmem.c: find a run of memory blocks that can all be taken offline.  Linux
// may refuse blocks it said were removable; they are struck off and the search
// starts again.

module OfflineSearch {
  import opened Bits

  predicate RunAt(bits: seq<bool>, s: nat, n: nat)
  {
    s + n <= |bits| && forall k | s <= k < s + n :: bits[k]
  }

  ghost predicate NoRunBefore(bits: seq<bool>, s: nat, n: nat)
  {
    forall t: nat | t < s :: !RunAt(bits, t, n)
  }

  ghost predicate Leftmost(bits: seq<bool>, s: nat, n: nat)
  {
    RunAt(bits, s, n) && NoRunBefore(bits, s, n)
  }

  // A run of set bits passes over no clear bit.
  lemma ClearBitStops(bits: seq<bool>, z: nat, t: nat, n: nat)
    requires z < |bits| && !bits[z] && t <= z < t + n
    ensures !RunAt(bits, t, n)
  {
  }

  // No run ends at or before i.
  ghost predicate Scanned(bits: seq<bool>, n: nat, i: nat)
  {
    forall t: nat :: t + n <= i ==> !RunAt(bits, t, n)
  }

  lemma ScanPast(bits: seq<bool>, n: nat, i: nat, z: nat)
    requires Scanned(bits, n, i) && z <= i < z + n && z < |bits| && !bits[z]
    ensures Scanned(bits, n, i + 1)
  {
    forall t: nat | t + n <= i + 1
      ensures !RunAt(bits, t, n)
    {
      if t + n == i + 1 && z >= t {
        ClearBitStops(bits, z, t, n);
      }
    }
  }

  // What one pass answers: runs are reported exactly when there are any; the
  // leftmost one starts at `start`, unless it starts at 0, in which case the
  // pass wrote nothing.
  ghost predicate Answer(bits: seq<bool>, n: nat, regStart: nat, found: bool, start: nat)
  {
    && (found <==> exists s: nat :: RunAt(bits, s, n))
    && (found ==> if RunAt(bits, 0, n) then start == regStart else Leftmost(bits, start, n))
  }

  // One pass over the bitmap.  regStart comes in with whatever the last pass
  // left there, and is written only at clear bits.
  method Scan(bitmap: array<bv8>, entries: nat, n: nat, regStart: nat) returns (found: bool, start: nat)
    requires entries <= 8 * bitmap.Length
    ensures n > 0 ==> Answer(BitsOf(bitmap[..], entries), n, regStart, found, start)
  {
    ghost var bits := BitsOf(bitmap[..], entries);
    start := regStart;
    var runLen := 0;
    var i := 0;
    while i < entries
      invariant runLen <= i <= entries && (n > 0 ==> runLen < n && Scanned(bits, n, i))
      invariant forall k | i - runLen <= k < i :: bits[k]
      invariant if runLen < i then start == i - runLen && !bits[start - 1] else start == regStart
    {
      IsSetIsTest(bitmap[i / 8], i % 8);
      var removable := IsSet(bitmap[i / 8], i % 8);
      assert removable == bits[i];
      if !removable {
        if n > 0 {
          ScanPast(bits, n, i, i);
        }
        start := i + 1;
        runLen := 0;
        i := i + 1;
        continue;
      }
      runLen := runLen + 1;
      if runLen >= n {
        if n > 0 {
          RunFound(bits, n, i, regStart, start);
        }
        break;
      }
      ScanOn(bits, n, i, runLen, start);
      i := i + 1;
    }
    found := runLen >= n;
  }

  lemma ScanOn(bits: seq<bool>, n: nat, i: nat, runLen: nat, start: nat)
    requires Scanned(bits, n, i) && runLen < n && i < |bits| && runLen <= i + 1
    requires runLen < i + 1 ==> 0 < start == i + 1 - runLen && !bits[start - 1]
    ensures Scanned(bits, n, i + 1)
  {
    if runLen < i + 1 && start - 1 + n > i {
      ScanPast(bits, n, i, start - 1);
    }
  }

  lemma RunFound(bits: seq<bool>, n: nat, i: nat, regStart: nat, start: nat)
    requires 0 < n && Scanned(bits, n, i) && n <= i + 1 <= |bits|
    requires forall k | i + 1 - n <= k <= i :: bits[k]
    requires if n < i + 1 then start == i + 1 - n else start == regStart
    ensures Answer(bits, n, regStart, true, start)
  {
    assert RunAt(bits, i + 1 - n, n);
  }

  // Carrying regStart over from the last pass is harmless exactly when it is 0
  // or the bitmap no longer starts with a run.
  lemma CarryOverExact(bits: seq<bool>, n: nat, regStart: nat, start: nat)
    requires n > 0 && Answer(bits, n, regStart, true, start)
    ensures Leftmost(bits, start, n) <==> regStart == 0 || !RunAt(bits, 0, n)
  {
  }

  // Bits are only ever struck off.
  predicate Shrunk(was: seq<bool>, now: seq<bool>)
  {
    |was| == |now| && forall k | 0 <= k < |now| :: now[k] ==> was[k]
  }

  // ... so the condition holds on every pass.
  lemma CarryOverSafe(was: seq<bool>, now: seq<bool>, n: nat, start: nat)
    requires Leftmost(was, start, n) && Shrunk(was, now)
    ensures start == 0 || !RunAt(now, 0, n)
  {
    if start > 0 && RunAt(now, 0, n) {
      assert RunAt(was, 0, n);
    }
  }

  function Count(bits: seq<bool>): nat
  {
    if bits == [] then 0 else (if bits[0] then 1 else 0) + Count(bits[1..])
  }

  lemma {:induction false} CountDrops(bits: seq<bool>, i: nat)
    requires i < |bits| && bits[i]
    ensures Count(bits[i := false]) == Count(bits) - 1
  {
    var after := bits[i := false];
    if i == 0 {
      assert after[1..] == bits[1..];
    } else {
      CountDrops(bits[1..], i - 1);
      assert after[1..] == bits[1..][i - 1 := false];
    }
  }

  // Block k said in some earlier pass that it would not go offline.
  ghost predicate Refused(replies: (nat, nat) -> bool, passes: nat, k: nat)
  {
    exists p: nat :: p < passes && !replies(p, k)
  }

  // now is was without blocks that refused.
  ghost predicate Struck(was: seq<bool>, now: seq<bool>, replies: (nat, nat) -> bool, passes: nat)
  {
    && Shrunk(was, now)
    && forall k: nat :: k < |was| && was[k] && !now[k] ==> Refused(replies, passes, k)
  }

  // After this pass every block of the region said it was offline.
  ghost predicate AllOffline(replies: (nat, nat) -> bool, pass: nat, start: nat, n: nat)
  {
    forall k: nat | start <= k < start + n :: replies(pass, k)
  }

  // Read the state of each block of the region; strike off the first that did
  // not go offline.
  method Check(bitmap: array<bv8>, entries: nat, n: nat, start: nat, replies: (nat, nat) -> bool, pass: nat)
    returns (ready: bool, ghost refused: nat)
    requires entries <= 8 * bitmap.Length && RunAt(BitsOf(bitmap[..], entries), start, n)
    modifies bitmap
    ensures ready <==> AllOffline(replies, pass, start, n)
    ensures ready ==> bitmap[..] == old(bitmap[..])
    ensures !ready ==>
              && start <= refused < start + n && !replies(pass, refused)
              && (forall k | start <= k < refused :: replies(pass, k))
              && BitsOf(bitmap[..], entries) == BitsOf(old(bitmap[..]), entries)[refused := false]
  {
    ready, refused := true, 0;
    for i := 0 to n
      invariant ready && bitmap[..] == old(bitmap[..])
      invariant forall k | start <= k < start + i :: replies(pass, k)
    {
      if !replies(pass, i + start) {
        var major, minor := (i + start) / 8, (i + start) % 8;
        PutBitOf(bitmap[..], entries, i + start, false);
        bitmap[major] := PutBit(bitmap[major], minor, false);
        assert bitmap[..] == old(bitmap[..])[major := PutBit(old(bitmap[..])[major], minor, false)];
        ready, refused := false, i + start;
        break;
      }
    }
  }

  // -------------------------------------------------------- what the search finds

  // The start of the leftmost run at or after s, if there is one.
  function FirstRun(bits: seq<bool>, n: nat, s: nat): (r: nat)
    ensures r <= |bits| ==> s <= r && RunAt(bits, r, n)
    ensures forall t: nat | s <= t < r :: !RunAt(bits, t, n)
    ensures r > |bits| ==> forall t: nat | s <= t :: !RunAt(bits, t, n)
    decreases |bits| + 1 - s
  {
    if s + n > |bits| then |bits| + 1 + s
    else if RunAt(bits, s, n) then s else FirstRun(bits, n, s + 1)
  }

  // The first of n blocks from start that did not go offline in this pass, or
  // start + n.
  function FirstRefusing(replies: (nat, nat) -> bool, pass: nat, start: nat, n: nat): (k: nat)
    ensures start <= k <= start + n && (k < start + n ==> !replies(pass, k))
    ensures forall j | start <= j < k :: replies(pass, j)
    decreases n
  {
    if n == 0 || !replies(pass, start) then start else FirstRefusing(replies, pass, start + 1, n - 1)
  }

  datatype Result = Result(found: bool, start: nat, bits: seq<bool>, passes: nat)

  // From this pass on: take the leftmost run; if every block in it went offline,
  // that is it, else the first that did not is struck off.
  function Settle(bits: seq<bool>, n: nat, replies: (nat, nat) -> bool, pass: nat): (r: Result)
    requires n > 0
    ensures r.found ==> Leftmost(r.bits, r.start, n) && r.passes > 0 && AllOffline(replies, r.passes - 1, r.start, n)
    ensures !r.found ==> forall s: nat :: !RunAt(r.bits, s, n)
    ensures Shrunk(bits, r.bits)
    decreases Count(bits)
  {
    var s := FirstRun(bits, n, 0);
    if s > |bits| then Result(false, 0, bits, pass)
    else
      var k := FirstRefusing(replies, pass, s, n);
      if k == s + n then Result(true, s, bits, pass + 1)
      else
        CountDrops(bits, k);
        Settle(bits[k := false], n, replies, pass + 1)
  }

  // Each pass strikes one block off, except the one that succeeds.
  function Strikes(success: bool, passes: nat): int
  {
    if success then passes - 1 else passes
  }

  // Only blocks that refused are struck off, one in each failed pass.
  lemma {:induction false} SettleStrikes(bits: seq<bool>, n: nat, replies: (nat, nat) -> bool, pass: nat)
    requires n > 0
    ensures var r := Settle(bits, n, replies, pass);
            && r.passes >= pass && Struck(bits, r.bits, replies, r.passes)
            && Count(bits) + pass == Count(r.bits) + Strikes(r.found, r.passes)
    decreases Count(bits)
  {
    var s := FirstRun(bits, n, 0);
    if s <= |bits| {
      var k := FirstRefusing(replies, pass, s, n);
      if k < s + n {
        CountDrops(bits, k);
        SettleStrikes(bits[k := false], n, replies, pass + 1);
        StruckFirst(bits, k, Settle(bits[k := false], n, replies, pass + 1).bits, replies, pass,
                    Settle(bits[k := false], n, replies, pass + 1).passes);
      }
    }
  }

  lemma StruckFirst(was: seq<bool>, k: nat, now: seq<bool>, replies: (nat, nat) -> bool, pass: nat, passes: nat)
    requires k < |was| && !replies(pass, k) && pass < passes && Struck(was[k := false], now, replies, passes)
    ensures Struck(was, now, replies, passes)
  {
    forall j: nat | j < |was| && was[j] && !now[j]
      ensures Refused(replies, passes, j)
    {
      assert j != k ==> was[k := false][j];
    }
  }

  // One pass of the search, and what it settles.
  method TryOnce(bitmap: array<bv8>, entries: nat, n: nat, carried: nat, replies: (nat, nat) -> bool, pass: nat)
    returns (found: bool, regStart: nat, ready: bool)
    requires entries <= 8 * bitmap.Length && n > 0
    requires carried == 0 || !RunAt(BitsOf(bitmap[..], entries), 0, n)
    modifies bitmap
    ensures var was, now := BitsOf(old(bitmap[..]), entries), BitsOf(bitmap[..], entries);
            && (!found ==> Settle(was, n, replies, pass) == Result(false, 0, now, pass))
            && (found && ready ==> Settle(was, n, replies, pass) == Result(true, regStart, now, pass + 1))
            && (found && !ready ==>
                  && Settle(was, n, replies, pass) == Settle(now, n, replies, pass + 1)
                  && Count(now) < Count(was) && (regStart == 0 || !RunAt(now, 0, n)))
  {
    ghost var bits := BitsOf(bitmap[..], entries);
    found, regStart := Scan(bitmap, entries, n, carried);
    ready := false;
    if found {
      CarryOverExact(bits, n, carried, regStart);
      ghost var refused;
      ready, refused := Check(bitmap, entries, n, regStart, replies, pass);
      assert FirstRun(bits, n, 0) == regStart;
      if !ready {
        assert FirstRefusing(replies, pass, regStart, n) == refused;
        CountDrops(bits, refused);
        CarryOverSafe(bits, bits[refused := false], n, regStart);
      }
    }
  }

  // The whole search.  replies(p, k) is what block k's state file says after
  // pass p asked it to go offline.
  method Search(bitmap: array<bv8>, entries: nat, n: nat, replies: (nat, nat) -> bool)
    returns (found: bool, regStart: nat, ghost passes: nat)
    requires entries <= 8 * bitmap.Length && n > 0
    modifies bitmap
    ensures var r := Settle(BitsOf(old(bitmap[..]), entries), n, replies, 0);
            && found == r.found && BitsOf(bitmap[..], entries) == r.bits && passes == r.passes
            && (found ==> regStart == r.start)
    ensures Struck(BitsOf(old(bitmap[..]), entries), BitsOf(bitmap[..], entries), replies, passes)
    ensures found ==>
              && Leftmost(BitsOf(bitmap[..], entries), regStart, n)
              && passes > 0 && AllOffline(replies, passes - 1, regStart, n)
    ensures !found ==> forall s: nat :: !RunAt(BitsOf(bitmap[..], entries), s, n)
    ensures Count(BitsOf(old(bitmap[..]), entries)) == Count(BitsOf(bitmap[..], entries)) + Strikes(found, passes)
    ensures passes <= Count(BitsOf(old(bitmap[..]), entries)) + 1
  {
    ghost var was := BitsOf(bitmap[..], entries);
    SettleStrikes(was, n, replies, 0);
    regStart, passes := 0, 0;
    var pass := 0;
    var memReady := false;
    while !memReady
      invariant pass == passes && (regStart == 0 || memReady || !RunAt(BitsOf(bitmap[..], entries), 0, n))
      invariant Settle(was, n, replies, 0) ==
                  if memReady then Result(true, regStart, BitsOf(bitmap[..], entries), passes)
                  else Settle(BitsOf(bitmap[..], entries), n, replies, passes)
      decreases !memReady, Count(BitsOf(bitmap[..], entries))
    {
      found, regStart, memReady := TryOnce(bitmap, entries, n, regStart, replies, pass);
      if !found {
        return;
      }
      pass, passes := pass + 1, passes + 1;
    }
    found := true;
  }
}
