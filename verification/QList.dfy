// Intrusive circular doubly linked lists.
// Models libmink/Transport/MinkSocket/kernel/qlist.h.

module QLists {
  import opened Seqs

  /** A link cell embedded in some larger record; `container` stands for what
      C_CONTAINEROF recovers from the address of the cell. */
  class QNode {
    var pNext: QNode?
    var pPrev: QNode?
    var container: object?

    constructor ()
      ensures pNext == null && pPrev == null && container == null
    {
      pNext, pPrev, container := null, null, null;
    }

    /** QNode_insPrev */
    method InsPrev(pn: QNode)
      requires pPrev != null && pn != this && pn != pPrev
      modifies pn`pNext, pn`pPrev, this`pPrev, pPrev`pNext
      ensures pn.pNext == this && pn.pPrev == old(pPrev)
      ensures old(pPrev).pNext == pn && pPrev == pn
    {
      var pPrev := this.pPrev;
      pn.pNext := this;
      pn.pPrev := pPrev;
      pPrev.pNext := pn;
      this.pPrev := pn;
    }

    /** QNode_insNext */
    method InsNext(pn: QNode)
      requires pNext != null && pn != this && pn != pNext
      modifies pn`pNext, pn`pPrev, this`pNext, pNext`pPrev
      ensures pn.pPrev == this && pn.pNext == old(pNext)
      ensures old(pNext).pPrev == pn && pNext == pn
    {
      var pNext := this.pNext;
      pn.pPrev := this;
      pn.pNext := pNext;
      pNext.pPrev := pn;
      this.pNext := pn;
    }

    /** QNode_dequeue */
    method Dequeue()
      requires pNext != null && pPrev != null && pNext != this && pPrev != this
      modifies this`pNext, this`pPrev, pPrev`pNext, pNext`pPrev
      ensures pNext == null && pPrev == null
      ensures old(pPrev).pNext == old(pNext) && old(pNext).pPrev == old(pPrev)
    {
      var pNext := this.pNext;
      var pPrev := this.pPrev;
      pPrev.pNext := pNext;
      pNext.pPrev := pPrev;
      this.pNext := null;
      this.pPrev := null;
    }
  }

  /** The place after i on a ring of n cells. */
  ghost function Succ(i: nat, n: nat): nat {
    if i + 1 == n then 0 else i + 1
  }

  /** The place before i on a ring of n cells. */
  ghost function Pred(i: nat, n: nat): nat
    requires n > 0
  {
    if i == 0 then n - 1 else i - 1
  }

  /** The cells of `r` are linked in that order, the last one back to the first. */
  ghost predicate Linked(r: seq<QNode>)
    reads r
  {
    && Distinct(r)
    && (forall i {:trigger r[i].pNext} :: 0 <= i < |r| ==> r[i].pNext == r[Succ(i, |r|)])
    && (forall i {:trigger r[i].pPrev} :: 0 <= i < |r| ==> r[i].pPrev == r[Pred(i, |r|)])
  }

  /** The list headed by `h` is well formed and holds the cells `s`, in that order. */
  ghost predicate IsQueue(h: QNode, s: seq<QNode>)
    reads h, s
  {
    Linked([h] + s)
  }

  ghost function With(r: seq<QNode>, k: nat, x: QNode): seq<QNode>
    requires k <= |r|
  {
    r[..k] + [x] + r[k..]
  }

  ghost function Without<T>(r: seq<T>, k: nat): seq<T>
    requires k < |r|
  {
    r[..k] + r[k + 1..]
  }

  lemma RingWith(h: QNode, s: seq<QNode>, k: nat, x: QNode)
    requires k <= |s| && Distinct([h] + s) && x !in [h] + s
    ensures var r, w := [h] + s, [h] + With(s, k, x);
            && Distinct(w) && |w| == |r| + 1 && w[k + 1] == x
            && (forall i {:trigger w[i]} :: 0 <= i <= k ==> w[i] == r[i])
            && (forall i {:trigger w[i]} :: k + 1 < i < |w| ==> w[i] == r[i - 1])
  {
    hide Distinct;
    var r, w := [h] + s, [h] + With(s, k, x);
    DistinctPairs(r);
    forall i, j | 0 <= i < j < |w| ensures w[i] != w[j] {
      var a, b := if i <= k then i else i - 1, if j <= k then j else j - 1;
      if i == k + 1 {
        assert w[j] == r[b] && r[b] in r;
      } else if j == k + 1 {
        assert w[i] == r[a] && r[a] in r;
      } else {
        assert w[i] == r[a] && w[j] == r[b];
      }
    }
    DistinctPairs(w);
  }

  lemma RingWithout(h: QNode, s: seq<QNode>, k: nat)
    requires k < |s| && Distinct([h] + s)
    ensures var r, w := [h] + s, [h] + Without(s, k);
            && Distinct(w) && |w| == |r| - 1
            && (forall i {:trigger w[i]} :: 0 <= i <= k ==> w[i] == r[i])
            && (forall i {:trigger w[i]} :: k < i < |w| ==> w[i] == r[i + 1])
  {
    hide Distinct;
    var r, w := [h] + s, [h] + Without(s, k);
    DistinctPairs(r);
    forall i, j | 0 <= i < j < |w| ensures w[i] != w[j] {
      assert w[i] == r[if i <= k then i else i + 1] && w[j] == r[if j <= k then j else j + 1];
    }
    DistinctPairs(w);
  }

  lemma RingConcat(h: QNode, s: seq<QNode>, s': seq<QNode>)
    requires Distinct([h] + s) && Distinct(s')
    requires forall x :: x in [h] + s ==> x !in s'
    ensures var r, w := [h] + s, [h] + (s + s');
            && Distinct(w) && |w| == |r| + |s'|
            && (forall i {:trigger w[i]} :: 0 <= i < |r| ==> w[i] == r[i])
            && (forall i {:trigger w[i]} :: |r| <= i < |w| ==> w[i] == s'[i - |r|])
  {
    var r, w := [h] + s, [h] + (s + s');
    DistinctPairs(r);
    DistinctPairs(s');
    forall i, j | 0 <= i < j < |w| ensures w[i] != w[j] {
      if i < |r| <= j {
        assert w[i] == r[i] && r[i] in r && w[j] == s'[j - |r|];
      }
    }
    DistinctPairs(w);
  }

  lemma SplicedRing(r: seq<QNode>, w: seq<QNode>, k: nat, x: QNode)
    requires k < |r|
    requires Distinct(w) && |w| == |r| + 1 && w[k + 1] == x
    requires forall i {:trigger w[i]} :: 0 <= i <= k ==> w[i] == r[i]
    requires forall i {:trigger w[i]} :: k + 1 < i < |w| ==> w[i] == r[i - 1]
    requires r[k].pNext == x && x.pNext == r[Succ(k, |r|)]
    requires x.pPrev == r[k] && r[Succ(k, |r|)].pPrev == x
    requires forall i {:trigger r[i].pNext} :: 0 <= i < |r| && i != k ==> r[i].pNext == r[Succ(i, |r|)]
    requires forall i {:trigger r[i].pPrev} :: 0 <= i < |r| && i != Succ(k, |r|) ==> r[i].pPrev == r[Pred(i, |r|)]
    ensures Linked(w)
  {
    forall i | 0 <= i < |w| ensures w[i].pNext == w[Succ(i, |w|)] {
      if i <= k {
        assert w[i] == r[i];
      } else if i > k + 1 {
        assert w[i] == r[i - 1];
      }
    }
    forall i | 0 <= i < |w| ensures w[i].pPrev == w[Pred(i, |w|)] {
      if i <= k {
        assert w[i] == r[i];
      } else if i > k + 1 {
        assert w[i] == r[i - 1];
      }
    }
  }

  lemma UnsplicedRing(r: seq<QNode>, w: seq<QNode>, k: nat)
    requires 0 < k < |r|
    requires Distinct(w) && |w| == |r| - 1
    requires forall i {:trigger w[i]} :: 0 <= i < k ==> w[i] == r[i]
    requires forall i {:trigger w[i]} :: k <= i < |w| ==> w[i] == r[i + 1]
    requires r[k - 1].pNext == r[Succ(k, |r|)] && r[Succ(k, |r|)].pPrev == r[k - 1]
    requires forall i {:trigger r[i].pNext} :: 0 <= i < |r| && i != k && i != k - 1 ==>
               r[i].pNext == r[Succ(i, |r|)]
    requires forall i {:trigger r[i].pPrev} :: 0 <= i < |r| && i != k && i != Succ(k, |r|) ==>
               r[i].pPrev == r[Pred(i, |r|)]
    ensures Linked(w)
  {
  }

  lemma JoinedRing(r: seq<QNode>, s: seq<QNode>, w: seq<QNode>)
    requires r != [] && Distinct(w) && |w| == |r| + |s|
    requires forall i {:trigger w[i]} :: 0 <= i < |r| ==> w[i] == r[i]
    requires forall i {:trigger w[i]} :: |r| <= i < |w| ==> w[i] == s[i - |r|]
    requires forall i {:trigger r[i].pNext} :: 0 <= i < |r| - 1 ==> r[i].pNext == r[i + 1]
    requires forall i {:trigger r[i].pPrev} :: 1 <= i < |r| ==> r[i].pPrev == r[i - 1]
    requires forall i {:trigger s[i].pNext} :: 0 <= i < |s| - 1 ==> s[i].pNext == s[i + 1]
    requires forall i {:trigger s[i].pPrev} :: 1 <= i < |s| ==> s[i].pPrev == s[i - 1]
    requires s == [] ==> r[|r| - 1].pNext == r[0] && r[0].pPrev == r[|r| - 1]
    requires s != [] ==>
               && r[|r| - 1].pNext == s[0] && s[0].pPrev == r[|r| - 1]
               && s[|s| - 1].pNext == r[0] && r[0].pPrev == s[|s| - 1]
    ensures Linked(w)
  {
  }

  /** `x` linked in behind r[k], all other links those of ring `r`: `x` joins at place k. */
  lemma Spliced(h: QNode, s: seq<QNode>, k: nat, x: QNode)
    requires k <= |s| && Distinct([h] + s) && x !in [h] + s
    requires var r := [h] + s;
             && r[k].pNext == x && x.pNext == r[Succ(k, |r|)]
             && x.pPrev == r[k] && r[Succ(k, |r|)].pPrev == x
             && (forall i {:trigger r[i].pNext} :: 0 <= i < |r| && i != k ==> r[i].pNext == r[Succ(i, |r|)])
             && (forall i {:trigger r[i].pPrev} :: 0 <= i < |r| && i != Succ(k, |r|) ==> r[i].pPrev == r[Pred(i, |r|)])
    ensures Linked([h] + With(s, k, x))
  {
    RingWith(h, s, k, x);
    SplicedRing([h] + s, [h] + With(s, k, x), k, x);
  }

  /** The neighbours of s[k] linked to each other, all other links those of the ring: s[k] leaves. */
  lemma Unspliced(h: QNode, s: seq<QNode>, k: nat)
    requires k < |s| && Distinct([h] + s)
    requires var r := [h] + s;
             && r[k].pNext == r[Succ(k + 1, |r|)] && r[Succ(k + 1, |r|)].pPrev == r[k]
             && (forall i {:trigger r[i].pNext} :: 0 <= i < |r| && i != k + 1 && i != k ==>
                   r[i].pNext == r[Succ(i, |r|)])
             && (forall i {:trigger r[i].pPrev} :: 0 <= i < |r| && i != k + 1 && i != Succ(k + 1, |r|) ==>
                   r[i].pPrev == r[Pred(i, |r|)])
    ensures Linked([h] + Without(s, k))
  {
    RingWithout(h, s, k);
    UnsplicedRing([h] + s, [h] + Without(s, k), k + 1);
  }

  /** The ring of `h` opened at its end to take in the queued cells `s'` of another ring. */
  lemma Joined(h: QNode, s: seq<QNode>, s': seq<QNode>)
    requires Distinct([h] + s) && Distinct(s') && forall x :: x in [h] + s ==> x !in s'
    requires var r := [h] + s;
             && (forall i {:trigger r[i].pNext} :: 0 <= i < |r| - 1 ==> r[i].pNext == r[i + 1])
             && (forall i {:trigger r[i].pPrev} :: 1 <= i < |r| ==> r[i].pPrev == r[i - 1])
             && (forall i {:trigger s'[i].pNext} :: 0 <= i < |s'| - 1 ==> s'[i].pNext == s'[i + 1])
             && (forall i {:trigger s'[i].pPrev} :: 1 <= i < |s'| ==> s'[i].pPrev == s'[i - 1])
             && (s' == [] ==> r[|r| - 1].pNext == h && h.pPrev == r[|r| - 1])
             && (s' != [] ==>
                   && r[|r| - 1].pNext == s'[0] && s'[0].pPrev == r[|r| - 1]
                   && s'[|s'| - 1].pNext == h && h.pPrev == s'[|s'| - 1])
    ensures Linked([h] + (s + s'))
  {
    hide Distinct;
    RingConcat(h, s, s');
    JoinedRing([h] + s, s', [h] + (s + s'));
  }

  lemma EmptyRing(h: QNode)
    requires h.pNext == h && h.pPrev == h
    ensures Linked([h] + [])
  {
    assert [h] + [] == [h];
  }

  /** What a ring says of its head and of its queued cells. */
  lemma Unfold(h: QNode, s: seq<QNode>)
    requires Linked([h] + s)
    ensures Distinct(s) && h !in s
    ensures s == [] ==> h.pNext == h && h.pPrev == h
    ensures s != [] ==>
              && h.pNext == s[0] && s[0].pPrev == h
              && h.pPrev == s[|s| - 1] && s[|s| - 1].pNext == h
    ensures forall i {:trigger s[i].pNext} :: 0 <= i < |s| - 1 ==> s[i].pNext == s[i + 1]
    ensures forall i {:trigger s[i].pPrev} :: 1 <= i < |s| ==> s[i].pPrev == s[i - 1]
  {
    var r := [h] + s;
    assert r[1..] == s;
    assert r[0].pNext == r[Succ(0, |r|)];
    assert forall i {:trigger s[i]} :: 0 <= i < |s| ==> s[i] == r[i + 1];
  }

  lemma {:induction false} SameCell(r: seq<QNode>, w: seq<QNode>, i: nat)
    requires Linked(r) && Linked(w) && i < |r| <= |w| && r[0] == w[0]
    ensures r[i] == w[i]
  {
    if i > 0 {
      SameCell(r, w, i - 1);
      assert r[i - 1].pNext == r[i] && w[i - 1].pNext == w[i];
    }
  }

  /** The pointers alone decide which cells a list holds and in which order. */
  lemma QueueIsUnique(h: QNode, s: seq<QNode>, t: seq<QNode>)
    requires IsQueue(h, s) && IsQueue(h, t) && |s| <= |t|
    ensures s == t
  {
    hide Distinct;
    var r, w := [h] + s, [h] + t;
    forall i | 0 <= i < |s| ensures s[i] == t[i] {
      SameCell(r, w, i + 1);
      assert r[i + 1] == s[i] && w[i + 1] == t[i];
    }
    SameCell(r, w, |s|);
    assert r[|s|].pNext == r[0] && w[|s|].pNext == w[Succ(|s|, |w|)];
    OnlyAt(w, 0);
  }

  /** QNode_insPrev on the k-th queued cell or, when k is the length of the list, on the head. */
  method InsertBefore(me: QNode, pn: QNode, ghost h: QNode, ghost s: seq<QNode>, ghost k: nat)
    requires IsQueue(h, s) && pn !in [h] + s
    requires k <= |s| && me == ([h] + s)[Succ(k, |s| + 1)]
    modifies ([h] + s)`pNext, ([h] + s)`pPrev, pn`pNext, pn`pPrev
    ensures IsQueue(h, With(s, k, pn))
  {
    ghost var r := [h] + s;
    assert me.pPrev == r[k];
    me.InsPrev(pn);
    OnlyAt(r, k);
    OnlyAt(r, Succ(k, |r|));
    Spliced(h, s, k, pn);
  }

  /** QNode_insNext on cell k of the ring, where cell 0 is the head. */
  method InsertBehind(me: QNode, pn: QNode, ghost h: QNode, ghost s: seq<QNode>, ghost k: nat)
    requires IsQueue(h, s) && pn !in [h] + s
    requires k <= |s| && me == ([h] + s)[k]
    modifies ([h] + s)`pNext, ([h] + s)`pPrev, pn`pNext, pn`pPrev
    ensures IsQueue(h, With(s, k, pn))
  {
    ghost var r := [h] + s;
    assert me.pNext == r[Succ(k, |r|)];
    me.InsNext(pn);
    OnlyAt(r, k);
    OnlyAt(r, Succ(k, |r|));
    Spliced(h, s, k, pn);
  }

  /** QNode_dequeue of the k-th queued cell. */
  method Remove(me: QNode, ghost h: QNode, ghost s: seq<QNode>, ghost k: nat)
    requires IsQueue(h, s) && k < |s| && me == s[k]
    modifies ([h] + s)`pNext, ([h] + s)`pPrev
    ensures IsQueue(h, Without(s, k))
    ensures me.pNext == null && me.pPrev == null
  {
    hide Distinct;
    ghost var r := [h] + s;
    OnlyAt(r, k);
    OnlyAt(r, k + 1);
    OnlyAt(r, Succ(k + 1, |r|));
    assert me == r[k + 1] && me.pPrev == r[k] && me.pNext == r[Succ(k + 1, |r|)];
    me.Dequeue();
    Unspliced(h, s, k);
  }

  /** QNode_isQueued tells membership: it reads one pointer and no list. */
  method IsQueued(me: QNode, ghost h: QNode, ghost s: seq<QNode>) returns (b: bool)
    requires IsQueue(h, s)
    requires me in s || me.pNext == null
    ensures b <==> me in s
  {
    b := me.pNext != null;
    if i :| 0 <= i < |s| && s[i] == me {
      assert me == ([h] + s)[i + 1];
    }
  }

  /** QList_construct */
  method Construct(h: QNode)
    modifies h`pNext, h`pPrev
    ensures IsQueue(h, [])
  {
    h.pNext, h.pPrev := h, h;
    EmptyRing(h);
  }

  /** QList_isEmpty */
  method IsEmpty(h: QNode, ghost s: seq<QNode>) returns (b: bool)
    requires IsQueue(h, s)
    ensures b <==> s == []
  {
    Unfold(h, s);
    b := h.pNext == h;
  }

  /** QList_appendNode; the assertion of the source is the last precondition. */
  method AppendNode(h: QNode, pn: QNode, ghost s: seq<QNode>)
    requires IsQueue(h, s) && pn !in [h] + s && pn.pNext == null
    modifies ([h] + s)`pNext, ([h] + s)`pPrev, pn`pNext, pn`pPrev
    ensures IsQueue(h, s + [pn])
  {
    InsertBefore(h, pn, h, s, |s|);
    assert With(s, |s|, pn) == s + [pn];
  }

  /** QList_prependNode */
  method PrependNode(h: QNode, pn: QNode, ghost s: seq<QNode>)
    requires IsQueue(h, s) && pn !in [h] + s && pn.pNext == null
    modifies ([h] + s)`pNext, ([h] + s)`pPrev, pn`pNext, pn`pPrev
    ensures IsQueue(h, [pn] + s)
  {
    InsertBehind(h, pn, h, s, 0);
    assert With(s, 0, pn) == [pn] + s;
  }

  /** QList_getFirst */
  method GetFirst(h: QNode, ghost s: seq<QNode>) returns (r: QNode?)
    requires IsQueue(h, s)
    ensures r == if s == [] then null else s[0]
  {
    Unfold(h, s);
    var pn := h.pNext;
    r := if pn == h then null else pn;
  }

  /** QList_getLast */
  method GetLast(h: QNode, ghost s: seq<QNode>) returns (r: QNode?)
    requires IsQueue(h, s)
    ensures r == if s == [] then null else s[|s| - 1]
  {
    Unfold(h, s);
    var pn := h.pPrev;
    r := if pn == h then null else pn;
  }

  /** QList_pop */
  method Pop(h: QNode, ghost s: seq<QNode>) returns (r: QNode?)
    requires IsQueue(h, s)
    modifies ([h] + s)`pNext, ([h] + s)`pPrev
    ensures s == [] ==> r == null && IsQueue(h, [])
    ensures s != [] ==> r == s[0] && IsQueue(h, s[1..]) && r.pNext == null && r.pPrev == null
  {
    hide Distinct;
    Unfold(h, s);
    var pn := h.pNext;
    var pnn := pn.pNext;
    if pn == h {
      return null;
    }
    ghost var R := [h] + s;
    OnlyAt(R, 0);
    OnlyAt(R, 1);
    OnlyAt(R, Succ(1, |R|));
    assert pn == R[1] && pnn == R[Succ(1, |R|)];
    h.pNext := pnn;
    pnn.pPrev := h;
    pn.pNext, pn.pPrev := null, null;
    Unspliced(h, s, 0);
    assert Without(s, 0) == s[1..];
    return pn;
  }

  /** QList_popLast */
  method PopLast(h: QNode, ghost s: seq<QNode>) returns (r: QNode?)
    requires IsQueue(h, s)
    modifies ([h] + s)`pNext, ([h] + s)`pPrev
    ensures s == [] ==> r == null && IsQueue(h, [])
    ensures s != [] ==> r == s[|s| - 1] && IsQueue(h, s[..|s| - 1]) && r.pNext == null && r.pPrev == null
  {
    hide Distinct;
    Unfold(h, s);
    var pp := h.pPrev;
    var ppp := pp.pPrev;
    if pp == h {
      return null;
    }
    ghost var R := [h] + s;
    OnlyAt(R, 0);
    OnlyAt(R, |R| - 1);
    OnlyAt(R, |R| - 2);
    assert pp == R[|R| - 1] && ppp == R[|R| - 2];
    h.pPrev := ppp;
    ppp.pNext := h;
    pp.pNext, pp.pPrev := null, null;
    Unspliced(h, s, |s| - 1);
    assert Without(s, |s| - 1) == s[..|s| - 1];
    return pp;
  }

  /** The pointer writes of QList_constructFrom. */
  method ConstructLinks(d: QNode, s: QNode)
    requires s.pNext != null && s.pPrev != null && d != s && d != s.pNext && d != s.pPrev
    requires s.pNext == s <==> s.pPrev == s
    modifies d`pNext, d`pPrev, s`pNext, s`pPrev, s.pNext`pPrev, s.pPrev`pNext
    ensures s.pNext == s && s.pPrev == s
    ensures old(s.pNext) == s ==> d.pNext == d && d.pPrev == d
    ensures old(s.pNext) != s ==>
              && d.pNext == old(s.pNext) && old(s.pNext).pPrev == d
              && d.pPrev == old(s.pPrev) && old(s.pPrev).pNext == d
  {
    s.pNext.pPrev := d;
    d.pPrev := s.pPrev;
    d.pNext := s.pNext;
    s.pPrev.pNext := d;
    Construct(s);
  }

  /** QList_constructFrom: all cells `t` of the list `src` move to the raw head `dst`. The
      writes go through the source's own head when that list is empty. */
  method ConstructFrom(dst: QNode, src: QNode, ghost t: seq<QNode>)
    requires IsQueue(src, t) && dst !in [src] + t
    modifies dst`pNext, dst`pPrev, ([src] + t)`pNext, ([src] + t)`pPrev
    ensures IsQueue(dst, t) && IsQueue(src, [])
  {
    hide Distinct;
    Unfold(src, t);
    assert src in [src] + t && forall x :: x in t ==> x in [src] + t;
    ConstructLinks(dst, src);
    EmptyRing(src);
    if t != [] {
      OnlyAt(t, 0);
      OnlyAt(t, |t| - 1);
    }
    DistinctOne(dst);
    assert [dst] + [] == [dst];
    Joined(dst, [], t);
    assert [] + t == t;
  }

  /** The pointer writes of QList_appendList. */
  method AppendLinks(d: QNode, s: QNode)
    requires s.pNext != null && s.pPrev != null && d.pPrev != null
    requires s.pNext == s <==> s.pPrev == s
    requires d != s && d != s.pNext && d != s.pPrev
    requires d.pPrev != s && d.pPrev != s.pNext && d.pPrev != s.pPrev
    modifies d`pPrev, d.pPrev`pNext, s`pNext, s`pPrev, s.pNext`pPrev, s.pPrev`pNext
    ensures s.pNext == s && s.pPrev == s
    ensures old(s.pNext) == s ==> d.pPrev == old(d.pPrev) && d.pPrev.pNext == d
    ensures old(s.pNext) != s ==>
              && old(s.pNext).pPrev == old(d.pPrev) && old(d.pPrev).pNext == old(s.pNext)
              && d.pPrev == old(s.pPrev) && old(s.pPrev).pNext == d
  {
    var dp := d.pPrev;
    var sn := s.pNext;
    sn.pPrev := dp;
    dp.pNext := sn;
    var sp := s.pPrev;
    d.pPrev := sp;
    sp.pNext := d;
    s.pNext, s.pPrev := s, s;
  }

  /** QList_appendList: all cells `t` of the list `src` move behind the cells `s` of `dst`. */
  method AppendList(dst: QNode, src: QNode, ghost s: seq<QNode>, ghost t: seq<QNode>)
    requires IsQueue(dst, s) && IsQueue(src, t)
    requires forall x :: x in [dst] + s ==> x !in [src] + t
    modifies ([dst] + s)`pNext, ([dst] + s)`pPrev, ([src] + t)`pNext, ([src] + t)`pPrev
    ensures IsQueue(dst, s + t) && IsQueue(src, [])
  {
    hide Distinct;
    ghost var r := [dst] + s;
    Unfold(src, t);
    assert src in [src] + t && forall x :: x in t ==> x in [src] + t;
    assert src !in r && forall x :: x in r ==> x !in t;
    assert dst == r[0] && dst.pPrev == r[|r| - 1] && r[|r| - 1] in r;
    AppendLinks(dst, src);
    EmptyRing(src);
    OnlyAt(r, 0);
    OnlyAt(r, |r| - 1);
    if t != [] {
      OnlyAt(t, 0);
      OnlyAt(t, |t| - 1);
    }
    Joined(dst, s, t);
  }
}
