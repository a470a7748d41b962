// Circular doubly linked lists whose links live inside the listed blocks, as
// the kernel's list.h keeps them: list_add and list_del on a map from pointers
// to link fields.  list.h itself is not part of this model.

module IntrusiveList {
  import opened BuddySpec

  // A list head &avail[order], or the link field of the block at an offset.
  datatype Ptr = Head(order: nat) | At(offset: nat)
  datatype Link = Link(next: Ptr, prev: Ptr)

  type Links = map<Ptr, Link>

  // The i-th node of the ring that starts and ends at Head(j).
  function Node(j: nat, s: seq<nat>, i: nat): Ptr
  {
    if i == 0 || i > |s| then Head(j) else At(s[i - 1])
  }

  predicate Linked(l: Links, x: Ptr, y: Ptr)
  {
    x in l && y in l && l[x].next == y && l[y].prev == x
  }

  predicate Joined(l: Links, j: nat, s: seq<nat>, i: nat)
  {
    Linked(l, Node(j, s, i), Node(j, s, i + 1))
  }

  // List j holds exactly s, in that order, linked both ways.
  ghost predicate Ring(l: Links, j: nat, s: seq<nat>)
  {
    forall i: nat | i <= |s| :: Joined(l, j, s, i)
  }

  function SetNext(l: Links, x: Ptr, y: Ptr): Links
    requires x in l
  {
    l[x := l[x].(next := y)]
  }

  function SetPrev(l: Links, x: Ptr, y: Ptr): Links
    requires x in l
  {
    l[x := l[x].(prev := y)]
  }

  // list_add: x goes right behind the head.  Whatever x's link field held
  // before is overwritten.
  function Add(l: Links, x: Ptr, head: Ptr): Links
    requires head in l && l[head].next in l && x != head
  {
    var first := l[head].next;
    var l1 := SetPrev(l, first, x);
    var l2 := l1[x := Link(first, head)];
    SetNext(l2, head, x)
  }

  // list_del: join x's neighbours.
  function Del(l: Links, x: Ptr): Links
    requires x in l && l[x].next in l && l[x].prev in l
  {
    SetNext(SetPrev(l, l[x].next, l[x].prev), l[x].prev, l[x].next)
  }

  lemma RingEmpty(l: Links, j: nat)
    requires Head(j) in l && l[Head(j)] == Link(Head(j), Head(j))
    ensures Ring(l, j, [])
  {
  }

  // list_empty and the first entry.
  lemma RingFirst(l: Links, j: nat, s: seq<nat>)
    requires Ring(l, j, s)
    ensures Head(j) in l && l[Head(j)].next in l
    ensures l[Head(j)].next == Head(j) <==> s == []
    ensures s != [] ==> l[Head(j)].next == At(s[0])
  {
    assert Joined(l, j, s, 0);
  }

  lemma RingMember(l: Links, j: nat, s: seq<nat>, i: nat)
    requires Ring(l, j, s) && i < |s|
    ensures Node(j, s, i) in l && Node(j, s, i + 1) in l && Node(j, s, i + 2) in l
    ensures Node(j, s, i + 1) == At(s[i])
    ensures l[At(s[i])] == Link(Node(j, s, i + 2), Node(j, s, i))
  {
    assert Joined(l, j, s, i);
    assert Joined(l, j, s, i + 1);
  }

  // A ring survives changes to nodes outside it.
  lemma RingFrame(l: Links, l': Links, j: nat, s: seq<nat>)
    requires Ring(l, j, s)
    requires Head(j) in l' && Head(j) in l ==> l'[Head(j)] == l[Head(j)]
    requires Head(j) in l'
    requires forall h: nat | h in s && At(h) in l :: At(h) in l' && l'[At(h)] == l[At(h)]
    ensures Ring(l', j, s)
  {
    forall i: nat | i <= |s|
      ensures Joined(l', j, s, i)
    {
      assert Joined(l, j, s, i);
    }
  }

  lemma AddRing(l: Links, j: nat, s: seq<nat>, x: nat)
    requires Ring(l, j, s) && x !in s && NoDup(s)
    ensures Head(j) in l && l[Head(j)].next in l
    ensures Ring(Add(l, At(x), Head(j)), j, [x] + s) && Add(l, At(x), Head(j))[Head(j)].next == At(x)
  {
    RingFirst(l, j, s);
    var l', t := Add(l, At(x), Head(j)), [x] + s;
    forall i: nat | i <= |t|
      ensures Joined(l', j, t, i)
    {
      if i >= 1 {
        assert Joined(l, j, s, i - 1);
        assert Node(j, t, i + 1) == Node(j, s, i);
        assert i >= 2 ==> Node(j, t, i) == Node(j, s, i - 1);
      }
    }
  }

  lemma NodeInjective(j: nat, s: seq<nat>, a: nat, b: nat)
    requires NoDup(s) && a <= |s| && b <= |s| && Node(j, s, a) == Node(j, s, b)
    ensures a == b
  {
  }

  // Links of s that do not touch s[i] are kept.
  lemma DelKeeps(l: Links, j: nat, s: seq<nat>, i: nat, a: nat)
    requires Ring(l, j, s) && NoDup(s) && i < |s| && a <= |s| && a != i && a != i + 1
    ensures At(s[i]) in l && l[At(s[i])].next in l && l[At(s[i])].prev in l
    ensures Linked(Del(l, At(s[i])), Node(j, s, a), Node(j, s, a + 1))
  {
    RingMember(l, j, s, i);
    assert Joined(l, j, s, a);
    if Node(j, s, a) == Node(j, s, i) {
      NodeInjective(j, s, a, i);
    }
  }

  lemma DelRing(l: Links, j: nat, s: seq<nat>, i: nat)
    requires Ring(l, j, s) && NoDup(s) && i < |s|
    ensures At(s[i]) in l && l[At(s[i])].next in l && l[At(s[i])].prev in l
    ensures Ring(Del(l, At(s[i])), j, s[..i] + s[i + 1..])
  {
    RingMember(l, j, s, i);
    var l', t := Del(l, At(s[i])), s[..i] + s[i + 1..];
    forall k: nat | k <= |t|
      ensures Joined(l', j, t, k)
    {
      assert Node(j, t, k) == Node(j, s, if k <= i then k else k + 1);
      assert Node(j, t, k + 1) == Node(j, s, if k < i then k + 1 else k + 2);
      if k != i {
        DelKeeps(l, j, s, i, if k < i then k else k + 1);
      }
    }
  }

  // The neighbours list_add and list_del write to belong to the same ring.
  lemma AddFrame(l: Links, j: nat, s: seq<nat>, x: nat, k: nat, t: seq<nat>)
    requires Ring(l, j, s) && Ring(l, k, t) && j != k && x !in t
    requires forall h: nat | h in s :: h !in t
    ensures Head(j) in l && l[Head(j)].next in l
    ensures Ring(Add(l, At(x), Head(j)), k, t)
  {
    RingFirst(l, j, s);
    RingFirst(l, k, t);
    RingFrame(l, Add(l, At(x), Head(j)), k, t);
  }

  lemma DelFrame(l: Links, j: nat, s: seq<nat>, i: nat, k: nat, t: seq<nat>)
    requires Ring(l, j, s) && Ring(l, k, t) && j != k && i < |s|
    requires forall h: nat | h in s :: h !in t
    ensures At(s[i]) in l && l[At(s[i])].next in l && l[At(s[i])].prev in l
    ensures Ring(Del(l, At(s[i])), k, t)
  {
    RingMember(l, j, s, i);
    RingFirst(l, k, t);
    RingFrame(l, Del(l, At(s[i])), k, t);
  }
}
