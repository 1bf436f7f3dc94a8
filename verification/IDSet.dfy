// Sets of 32-bit ids kept as a linked list of two-entry chunks.
// Models libmink/Hub/MinkHub/inc/IDSet.h.

module IDSets {
  import opened Seqs

  type Uid = x: int | 0 <= x < 0x1_0000_0000

  /** A 32-bit mask, written as the set of its one bits: `|`, `&` and `& ~` are union,
      intersection and difference, and zero is the empty set. */
  type Mask32 = set<nat>

  /** Available: group and mask zero. Used: a group id and one bit per id of the group. */
  datatype Entry = Entry(group: Uid, mask: Mask32)

  const FREE := Entry(0, {})

  /** id | 31 */
  function Group(id: Uid): Uid { id - id % 32 + 31 }

  /** 1 << (31 & id) */
  function Mask(id: Uid): Mask32 { {id % 32} }

  // ---------------------------------------------------------------- used entries

  /** The used entries of a list: their groups strictly increase. */
  ghost predicate Sorted(u: seq<Entry>) {
    && (forall i :: 0 <= i < |u| ==> u[i].group > 0)
    && (forall i, j :: 0 <= i < j < |u| ==> u[i].group < u[j].group)
  }

  /** id is a member */
  ghost predicate Has(u: seq<Entry>, id: Uid) {
    exists i :: 0 <= i < |u| && u[i].group == Group(id) && id % 32 in u[i].mask
  }

  /** The number of leading entries with a smaller group. */
  ghost function Rank(u: seq<Entry>, g: int): (p: nat)
    ensures p <= |u|
    ensures forall i :: 0 <= i < p ==> u[i].group < g
    ensures p < |u| ==> u[p].group >= g
  {
    if u == [] || u[0].group >= g then 0 else 1 + Rank(u[1..], g)
  }

  ghost predicate Present(u: seq<Entry>, g: int) {
    Rank(u, g) < |u| && u[Rank(u, g)].group == g
  }

  /** The used entries after id is set. */
  ghost function Put(u: seq<Entry>, id: Uid): seq<Entry> {
    var p := Rank(u, Group(id));
    if Present(u, Group(id)) then
      u[p := Entry(Group(id), u[p].mask + Mask(id))]
    else
      u[..p] + [Entry(Group(id), Mask(id))] + u[p..]
  }

  /** The used entries after id is cleared; its entry stays, maybe with no bit left. */
  ghost function Cut(u: seq<Entry>, id: Uid): seq<Entry> {
    var p := Rank(u, Group(id));
    if Present(u, Group(id)) then u[p := Entry(Group(id), u[p].mask - Mask(id))] else u
  }

  /** `t` is `u` with the entry `e` let in at place p. */
  ghost predicate LetIn(u: seq<Entry>, t: seq<Entry>, p: nat, e: Entry) {
    && p <= |u| && |t| == |u| + 1 && t[p] == e
    && (forall i {:trigger t[i]} :: 0 <= i < p ==> t[i] == u[i])
    && (forall i {:trigger t[i]} :: p < i < |t| ==> t[i] == u[i - 1])
  }

  lemma PutLetsIn(u: seq<Entry>, id: Uid)
    requires !Present(u, Group(id))
    ensures LetIn(u, Put(u, id), Rank(u, Group(id)), Entry(Group(id), Mask(id)))
  {
  }

  lemma LetInAdds(u: seq<Entry>, t: seq<Entry>, p: nat, id: Uid, x: Uid)
    requires Sorted(u) && LetIn(u, t, p, Entry(Group(id), Mask(id)))
    ensures Has(t, x) <==> Has(u, x) || x == id
  {
    if Has(u, x) {
      var i :| 0 <= i < |u| && u[i].group == Group(x) && x % 32 in u[i].mask;
      assert t[if i < p then i else i + 1] == u[i];
    }
  }

  lemma LetInSorted(u: seq<Entry>, t: seq<Entry>, e: Entry)
    requires Sorted(u) && e.group > 0 && !Present(u, e.group) && LetIn(u, t, Rank(u, e.group), e)
    ensures Sorted(t)
  {
    hide Rank;
  }

  /** Setting an id adds exactly that id and keeps the list sorted. */
  lemma PutAdds(u: seq<Entry>, id: Uid, x: Uid)
    requires Sorted(u)
    ensures Sorted(Put(u, id))
    ensures Has(Put(u, id), x) <==> Has(u, x) || x == id
  {
    hide Rank;
    var p, t := Rank(u, Group(id)), Put(u, id);
    if Present(u, Group(id)) {
      assert t[p].group == Group(id) && id % 32 in t[p].mask;
      if Has(u, x) {
        var i :| 0 <= i < |u| && u[i].group == Group(x) && x % 32 in u[i].mask;
        assert t[i].group == Group(x) && x % 32 in t[i].mask;
      }
    } else {
      PutLetsIn(u, id);
      LetInAdds(u, t, p, id, x);
      LetInSorted(u, t, Entry(Group(id), Mask(id)));
    }
  }

  /** Clearing an id removes exactly that id and keeps the list sorted. */
  lemma CutRemoves(u: seq<Entry>, id: Uid, x: Uid)
    requires Sorted(u)
    ensures Sorted(Cut(u, id))
    ensures Has(Cut(u, id), x) <==> Has(u, x) && x != id
  {
    hide Rank;
    if Has(u, x) && x != id {
      var i :| 0 <= i < |u| && u[i].group == Group(x) && x % 32 in u[i].mask;
      assert Cut(u, id)[i].group == Group(x) && x % 32 in Cut(u, id)[i].mask;
    }
  }

  /** The groups that have an entry. */
  ghost function Groups(u: seq<Entry>): set<int> {
    set e | e in u :: e.group
  }

  lemma LastIsNew(u: seq<Entry>)
    requires Sorted(u) && u != []
    ensures Sorted(u[..|u| - 1]) && u[|u| - 1].group !in Groups(u[..|u| - 1])
  {
    var most := u[..|u| - 1];
    forall e | e in most ensures e.group != u[|u| - 1].group {
      var i :| 0 <= i < |most| && most[i] == e;
      assert u[i] == e;
    }
  }

  lemma {:induction false} GroupsCount(u: seq<Entry>)
    requires Sorted(u)
    ensures |Groups(u)| == |u|
  {
    hide Sorted;
    if u != [] {
      var most, last := u[..|u| - 1], u[|u| - 1];
      LastIsNew(u);
      GroupsCount(most);
      assert u == most + [last];
      assert Groups(u) == Groups(most) + {last.group};
    }
  }

  lemma PresentIsGroup(u: seq<Entry>, g: int)
    requires Sorted(u)
    ensures Present(u, g) <==> g in Groups(u)
  {
    if g in Groups(u) {
      var e :| e in u && e.group == g;
      var i :| 0 <= i < |u| && u[i] == e;
    }
  }

  lemma LastIsLargest(u: seq<Entry>, g: int)
    requires Sorted(u) && g in Groups(u)
    ensures u != [] && g <= u[|u| - 1].group
  {
    var e :| e in u && e.group == g;
    var i :| 0 <= i < |u| && u[i] == e;
  }

  lemma GroupsConcat(u: seq<Entry>, v: seq<Entry>)
    ensures Groups(u + v) == Groups(u) + Groups(v)
  {
    assert forall e :: e in u + v <==> e in u || e in v;
  }

  lemma GroupsOne(e: Entry)
    ensures Groups([e]) == {e.group}
  {
  }

  /** The place of a group is cut out of `u` and filled with an entry of that group. */
  lemma PutSplits(u: seq<Entry>, id: Uid) returns (a: seq<Entry>, b: seq<Entry>, c: seq<Entry>, e: Entry)
    ensures u == a + (b + c) && Put(u, id) == a + ([e] + c) && e.group == Group(id)
    ensures b == [] || (|b| == 1 && b[0].group == Group(id))
  {
    var p := Rank(u, Group(id));
    if Present(u, Group(id)) {
      e := Entry(Group(id), u[p].mask + Mask(id));
      a, b, c := u[..p], [u[p]], u[p + 1..];
      UpdateSplits(u, p, e);
    } else {
      e := Entry(Group(id), Mask(id));
      a, b, c := u[..p], [], u[p..];
      InsertSplits(u, p, e);
    }
  }

  lemma InsertSplits<T>(s: seq<T>, p: nat, x: T)
    requires p <= |s|
    ensures s == s[..p] + ([] + s[p..]) && s[..p] + [x] + s[p..] == s[..p] + ([x] + s[p..])
  {
  }

  lemma UpdateSplits<T>(s: seq<T>, p: nat, x: T)
    requires p < |s|
    ensures s == s[..p] + ([s[p]] + s[p + 1..]) && s[p := x] == s[..p] + ([x] + s[p + 1..])
  {
  }

  lemma PutGroups(u: seq<Entry>, id: Uid)
    ensures Groups(Put(u, id)) == Groups(u) + {Group(id)}
  {
    hide *;
    var a, b, c, e := PutSplits(u, id);
    GroupsConcat(a, [e] + c);
    GroupsConcat([e], c);
    GroupsConcat(a, b + c);
    GroupsConcat(b, c);
    GroupsOne(e);
    if b != [] {
      GroupsOne(b[0]);
      assert b == [b[0]];
    } else {
      NoGroups();
    }
  }

  lemma NoGroups()
    ensures Groups([]) == {}
  {
  }

  // ---------------------------------------------------------------- the linked list

  class IDSet {
    var entries: seq<Entry>
    var next: IDSet?

    constructor ()
      ensures entries == [FREE, FREE] && next == null
    {
      entries, next := [FREE, FREE], null;
    }
  }

  /** The chunks `c` are linked in that order and end the list. */
  ghost predicate Chained(c: seq<IDSet>)
    reads c
  {
    && c != [] && Distinct(c)
    && (forall i {:trigger c[i].next} :: 0 <= i < |c| ==>
          c[i].next == if i + 1 < |c| then c[i + 1] else null)
  }

  /** Entry k of a list with used entries `u`; behind the used ones come free ones. */
  ghost function At(u: seq<Entry>, k: nat): Entry {
    if k < |u| then u[k] else FREE
  }

  /** The chunk holds places k and k + 1 of `u`. */
  ghost predicate Pair(chunk: IDSet, u: seq<Entry>, k: nat)
    reads chunk
  {
    |chunk.entries| == 2 && chunk.entries[0] == At(u, k) && chunk.entries[1] == At(u, k + 1)
  }

  /** The first i chunks show `t`, the others still show `u`. */
  ghost predicate Shows(c: seq<IDSet>, i: nat, t: seq<Entry>, u: seq<Entry>)
    reads c
  {
    forall j {:trigger c[j].entries} :: 0 <= j < |c| ==>
      if j < i then Pair(c[j], t, 2 * j) else Pair(c[j], u, 2 * j)
  }

  /** The list of chunks `c` holds the used entries `u`: sorted, and no used entry behind a free one. */
  ghost predicate IsList(c: seq<IDSet>, u: seq<Entry>)
    reads c
  {
    Chained(c) && Sorted(u) && |u| <= 2 * |c| && Shows(c, 0, u, u)
  }

  lemma IsSorted(c: seq<IDSet>, u: seq<Entry>)
    requires IsList(c, u)
    ensures c != [] && Sorted(u) && |u| <= 2 * |c|
  {
  }

  /** What testOrSet carries when it comes to place k: still the new entry, or the entry it displaced. */
  ghost predicate Carries(u: seq<Entry>, id: Uid, modifySet: bool, k: nat, insert: Entry) {
    var p := Rank(u, Group(id));
    && (k <= p ==> insert == Entry(Group(id), Mask(id)))
    && (k > p ==> modifySet && !Present(u, Group(id)) && k <= |u| && insert == u[k - 1])
  }

  /** `t` holds the used entries that testOrSet is to leave behind. */
  ghost predicate IsGoal(u: seq<Entry>, t: seq<Entry>, id: Uid, modifySet: bool) {
    var p, g := Rank(u, Group(id)), Group(id);
    if !modifySet then t == u
    else if !Present(u, g) then LetIn(u, t, p, Entry(g, Mask(id)))
    else
      && |t| == |u| && t[p] == Entry(g, u[p].mask + Mask(id))
      && (forall i {:trigger t[i]} :: 0 <= i < |u| && i != p ==> t[i] == u[i])
  }

  /** The places from k on read the same in `t` and `u`. */
  ghost predicate SameFrom(t: seq<Entry>, u: seq<Entry>, k: nat) {
    forall m {:trigger At(t, m)} {:trigger At(u, m)} :: m >= k ==> At(t, m) == At(u, m)
  }

  lemma PassPlace(u: seq<Entry>, t: seq<Entry>, id: Uid, modifySet: bool, k: nat, insert: Entry)
    requires Sorted(u) && IsGoal(u, t, id, modifySet) && Carries(u, id, modifySet, k, insert)
    requires 0 < At(u, k).group < Group(id)
    ensures At(t, k) == At(u, k) && Carries(u, id, modifySet, k + 1, insert)
  {
  }

  lemma HitPlace(u: seq<Entry>, t: seq<Entry>, id: Uid, modifySet: bool, k: nat)
    requires Sorted(u) && IsGoal(u, t, id, modifySet) && At(u, k).group == Group(id)
    ensures Has(u, id) <==> At(u, k).mask * Mask(id) != {}
    ensures At(t, k) == if modifySet then Entry(Group(id), At(u, k).mask + Mask(id)) else At(u, k)
    ensures (At(u, k).mask + Mask(id)) * Mask(id) != {}
    ensures SameFrom(t, u, k + 1)
  {
    assert id % 32 in Mask(id);
    if id % 32 in At(u, k).mask {
      assert id % 32 in At(u, k).mask * Mask(id);
    }
    assert id % 32 in (At(u, k).mask + Mask(id)) * Mask(id);
  }

  lemma SwapPlace(u: seq<Entry>, t: seq<Entry>, id: Uid, modifySet: bool, k: nat, insert: Entry)
    requires Sorted(u) && IsGoal(u, t, id, modifySet) && Carries(u, id, modifySet, k, insert)
    requires At(u, k).group == 0 || At(u, k).group > Group(id)
    ensures !modifySet ==> !Has(u, id)
    ensures modifySet ==> At(t, k) == insert
    ensures modifySet && At(u, k).group == 0 ==> SameFrom(t, u, k + 1)
    ensures modifySet && At(u, k).group != 0 ==> Carries(u, id, modifySet, k + 1, At(u, k))
  {
  }

  /** The inner loop of IDSet_testOrSet over the two entries of one chunk, places k and k + 1. */
  method Visit(chunk: IDSet, id: Uid, modifySet: bool, carried: Entry,
               ghost u: seq<Entry>, ghost t: seq<Entry>, ghost k: nat)
    returns (done: bool, r: bool, insert: Entry)
    requires Sorted(u) && IsGoal(u, t, id, modifySet) && Carries(u, id, modifySet, k, carried)
    requires Pair(chunk, u, k)
    modifies (if modifySet then {chunk} else {})`entries
    ensures Pair(chunk, t, k)
    ensures done ==> r == (modifySet || Has(u, id)) && SameFrom(t, u, k + 2)
    ensures !done ==> Carries(u, id, modifySet, k + 2, insert)
  {
    hide Sorted, Carries, Rank, Has, Present, Put;
    var group, mask := Group(id), Mask(id);
    insert := carried;
    var ndx := 0;
    while ndx < 2
      invariant 0 <= ndx <= 2
      invariant |chunk.entries| == 2
      invariant chunk.entries[0] == if ndx > 0 then At(t, k) else At(u, k)
      invariant chunk.entries[1] == if ndx > 1 then At(t, k + 1) else At(u, k + 1)
      invariant Carries(u, id, modifySet, k + ndx, insert)
    {
      var pe := chunk.entries[ndx];
      if pe.group > 0 && pe.group < group {
        PassPlace(u, t, id, modifySet, k + ndx, insert);
        ndx := ndx + 1;
        continue;
      }
      if pe.group == group {
        HitPlace(u, t, id, modifySet, k + ndx);
        if modifySet {
          chunk.entries := chunk.entries[ndx := Entry(group, pe.mask + mask)];
        }
        return true, chunk.entries[ndx].mask * mask != {}, insert;
      }
      SwapPlace(u, t, id, modifySet, k + ndx, insert);
      if !modifySet {
        return true, false, insert;
      }
      var tmp := pe;
      chunk.entries := chunk.entries[ndx := insert];
      insert := tmp;
      if insert.group == 0 {
        return true, true, insert;
      }
      ndx := ndx + 1;
    }
    return false, false, insert;
  }

  lemma MakeGoal(u: seq<Entry>, id: Uid, modifySet: bool) returns (t: seq<Entry>)
    requires Sorted(u)
    ensures Sorted(t) && IsGoal(u, t, id, modifySet)
  {
    PutAdds(u, id, id);
    if !Present(u, Group(id)) {
      PutLetsIn(u, id);
    }
    t := if modifySet then Put(u, id) else u;
  }

  lemma GoalIsPut(u: seq<Entry>, t: seq<Entry>, id: Uid)
    requires IsGoal(u, t, id, true)
    ensures t == Put(u, id)
  {
    if !Present(u, Group(id)) {
      PutLetsIn(u, id);
    }
  }

  lemma NothingShown(c: seq<IDSet>, t: seq<Entry>, u: seq<Entry>)
    requires Shows(c, 0, u, u)
    ensures Shows(c, 0, t, u)
  {
    forall j | 0 <= j < |c| ensures Pair(c[j], u, 2 * j) {
      assert |c[j].entries| == 2;
    }
  }

  /** After the last rewritten chunk both lists read the same: the whole list shows `t`. */
  lemma AllShown(c: seq<IDSet>, i: nat, t: seq<Entry>, u: seq<Entry>)
    requires Chained(c) && i < |c| && Shows(c, i + 1, t, u) && SameFrom(t, u, 2 * i + 2)
    requires Sorted(t) && |u| <= 2 * |c|
    ensures IsList(c, t)
  {
    assert At(t, 2 * |c|) == At(u, 2 * |c|);
    forall j | 0 <= j < |c| ensures Pair(c[j], t, 2 * j) {
      assert |c[j].entries| == 2;
    }
  }

  /** Visit on chunk i of a list. */
  method VisitChunk(cur: IDSet, id: Uid, modifySet: bool, carried: Entry,
                    ghost c: seq<IDSet>, ghost i: nat, ghost u: seq<Entry>, ghost t: seq<Entry>)
    returns (done: bool, r: bool, insert: Entry)
    requires Sorted(u) && IsGoal(u, t, id, modifySet) && Carries(u, id, modifySet, 2 * i, carried)
    requires Chained(c) && i < |c| && cur == c[i] && Shows(c, i, t, u)
    modifies (if modifySet then {cur} else {})`entries
    ensures Chained(c) && Shows(c, i + 1, t, u)
    ensures done ==> r == (modifySet || Has(u, id)) && SameFrom(t, u, 2 * i + 2)
    ensures !done ==> Carries(u, id, modifySet, 2 * (i + 1), insert)
  {
    OnlyAt(c, i);
    assert c[i].entries == cur.entries;
    done, r, insert := Visit(cur, id, modifySet, carried, u, t, 2 * i);
    assert 2 * i + 2 == 2 * (i + 1);
    forall j | 0 <= j < |c| ensures if j < i + 1 then Pair(c[j], t, 2 * j) else Pair(c[j], u, 2 * j) {
      assert j != i ==> c[j].entries == old(c[j].entries);
    }
  }

  /** The calloc of IDSet_testOrSet: another chunk with two free entries ends the list. */
  method Grow(last: IDSet, ghost c: seq<IDSet>, ghost u: seq<Entry>, ghost t: seq<Entry>)
    returns (chunk: IDSet)
    requires Chained(c) && last == c[|c| - 1] && Shows(c, |c|, t, u) && |u| <= 2 * |c|
    modifies last`next
    ensures fresh(chunk) && last.next == chunk
    ensures Chained(c + [chunk]) && Shows(c + [chunk], |c|, t, u)
  {
    OnlyAt(c, |c| - 1);
    chunk := new IDSet();
    last.next := chunk;
    DistinctAppend(c, chunk);
    ghost var d := c + [chunk];
    forall j | 0 <= j < |d| ensures if j < |c| then Pair(d[j], t, 2 * j) else Pair(d[j], u, 2 * j) {
      assert j < |c| ==> d[j].entries == old(c[j].entries);
    }
  }

  /** Past the last chunk: the id is absent, and setting it overflows a full list by one entry. */
  lemma NothingLeft(c: seq<IDSet>, u: seq<Entry>, t: seq<Entry>, id: Uid, modifySet: bool, insert: Entry)
    requires Chained(c) && Sorted(u) && Sorted(t) && |u| <= 2 * |c| && IsGoal(u, t, id, modifySet)
    requires Carries(u, id, modifySet, 2 * |c|, insert) && Shows(c, |c|, t, u)
    ensures !Has(u, id) && !Present(u, Group(id))
    ensures modifySet ==> |u| == 2 * |c| && |t| == |u| + 1 && IsList(c, t[..2 * |c|])
    ensures !modifySet ==> IsList(c, u)
  {
    var v := if modifySet then t[..2 * |c|] else u;
    forall j | 0 <= j < |c| ensures Pair(c[j], v, 2 * j) {
      assert |c[j].entries| == 2;
    }
  }

  /** Whoever still carries an entry past all places found them taken, and none by the group. */
  lemma CarriesFirst(u: seq<Entry>, id: Uid, modifySet: bool)
    ensures Carries(u, id, modifySet, 0, Entry(Group(id), Mask(id)))
  {
  }

  lemma CarriesPast(u: seq<Entry>, id: Uid, modifySet: bool, k: nat, insert: Entry)
    requires |u| <= k && Carries(u, id, modifySet, k, insert)
    ensures |u| == k && !Present(u, Group(id))
  {
  }

  /** One round of the outer loop of IDSet_testOrSet: chunk i, then the next chunk, made if need be. */
  method Round(cur: IDSet, id: Uid, modifySet: bool, alloc: bool, carried: Entry,
               ghost c: seq<IDSet>, ghost i: nat, ghost u: seq<Entry>, ghost t: seq<Entry>)
    returns (done: bool, r: bool, insert: Entry, nxt: IDSet?, ghost c': seq<IDSet>)
    requires Sorted(u) && IsGoal(u, t, id, modifySet) && Carries(u, id, modifySet, 2 * i, carried)
    requires Chained(c) && i < |c| && cur == c[i] && Shows(c, i, t, u) && |u| <= 2 * |c|
    modifies if modifySet then {cur} else {}
    ensures Chained(c') && Shows(c', i + 1, t, u)
    ensures done ==> c' == c && r == (modifySet || Has(u, id)) && SameFrom(t, u, 2 * i + 2)
    ensures !done ==> Carries(u, id, modifySet, 2 * (i + 1), insert)
    ensures !done ==> nxt == if i + 1 < |c'| then c'[i + 1] else null
    ensures c' == if !done && i + 1 == |c| && modifySet && alloc then c + [nxt] else c
    ensures c' != c ==> fresh(nxt)
  {
    nxt, c' := null, c;
    done, r, insert := VisitChunk(cur, id, modifySet, carried, c, i, u, t);
    if done {
      return;
    }
    assert cur.next == c[i].next;
    if cur.next == null && modifySet {
      if alloc {
        var chunk := Grow(cur, c, u, t);
        c' := c + [chunk];
      }
    }
    nxt := cur.next;
  }

  /** The outer loop of IDSet_testOrSet. `alloc` says whether calloc succeeds, should another
      chunk be needed. */
  method Walk(head: IDSet, id: Uid, modifySet: bool, alloc: bool,
              ghost c: seq<IDSet>, ghost u: seq<Entry>, ghost t: seq<Entry>)
    returns (done: bool, r: bool, insert: Entry, ghost c': seq<IDSet>, ghost i: nat)
    requires Sorted(u) && IsGoal(u, t, id, modifySet) && |u| <= 2 * |c|
    requires Chained(c) && Shows(c, 0, t, u) && head == c[0]
    modifies if modifySet then set x | x in c else {}
    ensures Chained(c') && c <= c' && |c'| <= |c| + 1 && (|c'| > |c| ==> fresh(c'[|c|]) && modifySet && alloc)
    ensures done ==> i < |c'| && Shows(c', i + 1, t, u) && SameFrom(t, u, 2 * i + 2) && r == (modifySet || Has(u, id))
    ensures !done ==> !r && i == |c'| && Shows(c', i, t, u) && Carries(u, id, modifySet, 2 * i, insert)
    ensures !done && modifySet && alloc ==> |c'| > |c|
    ensures |c'| > |c| ==> |u| == 2 * |c| && !Present(u, Group(id))
  {
    hide Sorted, IsGoal, Shows, Present, Has, SameFrom;
    insert := Entry(Group(id), Mask(id));
    CarriesFirst(u, id, modifySet);
    var cur: IDSet? := head;
    c', i := c, 0;
    while cur != null
      invariant i <= |c'| && cur == if i < |c'| then c'[i] else null
      invariant c <= c' && |c'| <= |c| + 1
      invariant |c'| > |c| ==> fresh(c'[|c|]) && modifySet && alloc && i >= |c|
      invariant i >= |c| && modifySet && alloc ==> |c'| > |c|
      invariant |c'| > |c| ==> |u| == 2 * |c| && !Present(u, Group(id))
      invariant Chained(c') && Shows(c', i, t, u)
      invariant Carries(u, id, modifySet, 2 * i, insert)
      decreases |c| + 1 - i
    {
      done, r, insert, cur, c' := Round(cur, id, modifySet, alloc, insert, c', i, u, t);
      if done {
        return;
      }
      i := i + 1;
      if i == |c| { CarriesPast(u, id, modifySet, 2 * i, insert); }
    }
    done, r := false, false;
  }

  /** IDSet_testOrSet. Without `alloc` a full list keeps only as many of the entries `t` as it
      has places for. */
  method TestOrSet(head: IDSet, id: Uid, modifySet: bool, alloc: bool, ghost c: seq<IDSet>, ghost u: seq<Entry>)
    returns (r: bool, ghost c': seq<IDSet>, ghost t: seq<Entry>)
    requires IsList(c, u) && head == c[0]
    modifies if modifySet then set x | x in c else {}
    ensures Sorted(t) && IsGoal(u, t, id, modifySet)
    ensures c <= c' && |c'| <= |c| + 1 && (|c'| > |c| ==> fresh(c'[|c|]))
    ensures !modifySet ==> c' == c && r == Has(u, id)
    ensures modifySet ==> (r <==> alloc || Present(u, Group(id)) || |u| < 2 * |c|)
    ensures |c'| > |c| <==> modifySet && alloc && |u| == 2 * |c| && !Present(u, Group(id))
    ensures modifySet ==> if r then IsList(c', t) else c' == c && |t| == 2 * |c| + 1 && IsList(c, t[..2 * |c|])
  {
    t := MakeGoal(u, id, modifySet);
    NothingShown(c, t, u);
    var done, insert;
    ghost var i;
    done, r, insert, c', i := Walk(head, id, modifySet, alloc, c, u, t);
    if done {
      AllShown(c', i, t, u);
    } else {
      NothingLeft(c', u, t, id, modifySet, insert);
      assert |c'| == |c|;
    }
    assert |c'| == |c| ==> c' == c;
  }

  lemma TruncatedHas(t: seq<Entry>, x: Uid)
    requires Sorted(t) && t != []
    ensures Sorted(t[..|t| - 1])
    ensures Has(t[..|t| - 1], x) <==> Has(t, x) && Group(x) != t[|t| - 1].group
  {
    var s := t[..|t| - 1];
    if Has(t, x) && Group(x) != t[|t| - 1].group {
      var i :| 0 <= i < |t| && t[i].group == Group(x) && x % 32 in t[i].mask;
      assert s[i] == t[i];
    }
  }

  lemma SetMeans(u: seq<Entry>, t: seq<Entry>, id: Uid)
    requires Sorted(u) && Sorted(t) && IsGoal(u, t, id, true)
    ensures t == Put(u, id) && t != []
    ensures forall x: Uid :: Has(t, x) <==> Has(u, x) || x == id
    ensures forall x: Uid :: Has(t[..|t| - 1], x) <==> (Has(u, x) || x == id) && Group(x) != t[|t| - 1].group
  {
    GoalIsPut(u, t, id);
    forall x: Uid ensures Has(t, x) <==> Has(u, x) || x == id {
      PutAdds(u, id, x);
    }
    forall x: Uid ensures Has(t[..|t| - 1], x) <==> Has(t, x) && Group(x) != t[|t| - 1].group {
      TruncatedHas(t, x);
    }
  }

  /** IDSet_set adds exactly the id. When no place is free and no chunk can be had it says so, and
      the entry pushed off the end takes the ids of its group with it. */
  method Set(head: IDSet, id: Uid, alloc: bool, ghost c: seq<IDSet>, ghost u: seq<Entry>)
    returns (ok: bool, ghost c': seq<IDSet>, ghost u': seq<Entry>)
    requires IsList(c, u) && head == c[0]
    modifies c
    ensures IsList(c', u') && c <= c' && |c'| <= |c| + 1 && (|c'| > |c| ==> fresh(c'[|c|]))
    ensures ok <==> alloc || Present(u, Group(id)) || |u| < 2 * |c|
    ensures |c'| > |c| <==> alloc && |u| == 2 * |c| && !Present(u, Group(id))
    ensures ok ==> u' == Put(u, id) && forall x: Uid :: Has(u', x) <==> Has(u, x) || x == id
    ensures !ok ==> c' == c && |Put(u, id)| == 2 * |c| + 1 && forall x: Uid ::
              Has(u', x) <==> (Has(u, x) || x == id) && Group(x) != Put(u, id)[2 * |c|].group
  {
    hide Has, Put, Rank, Present, Sorted, Chained, Shows, IsGoal;
    ghost var t;
    ok, c', t := TestOrSet(head, id, true, alloc, c, u);
    SetMeans(u, t, id);
    u' := if ok then t else t[..2 * |c|];
  }

  /** IDSet_test is membership, and changes nothing. */
  method Test(head: IDSet, id: Uid, ghost c: seq<IDSet>, ghost u: seq<Entry>) returns (b: bool)
    requires IsList(c, u) && head == c[0]
    ensures b <==> Has(u, id)
  {
    ghost var c', t;
    b, c', t := TestOrSet(head, id, false, false, c, u);
  }

  lemma FreshList(head: IDSet)
    requires head.entries == [FREE, FREE] && head.next == null
    ensures IsList([head], []) && forall x: Uid :: !Has([], x)
  {
  }

  /** IDSet_empty; the chunks behind the head are freed. */
  method Empty(head: IDSet)
    modifies head
    ensures IsList([head], [])
  {
    head.next := null;
    head.entries := [FREE, FREE];
  }

  lemma CutElsewhere(u: seq<Entry>, id: Uid)
    requires Sorted(u)
    ensures var t := Cut(u, id);
            Sorted(t) && |t| == |u| && forall k {:trigger At(t, k)} :: k != Rank(u, Group(id)) ==> At(t, k) == At(u, k)
  {
    CutRemoves(u, id, id);
  }

  /** Only chunk i changed, and only at place p. */
  lemma OneChunkShown(c: seq<IDSet>, u: seq<Entry>, t: seq<Entry>, i: nat, p: nat)
    requires Chained(c) && Sorted(t) && |t| == |u| <= 2 * |c| && i < |c| && 2 * i <= p <= 2 * i + 1
    requires forall k {:trigger At(t, k)} :: k != p ==> At(t, k) == At(u, k)
    requires Pair(c[i], t, 2 * i)
    requires forall j {:trigger c[j].entries} :: 0 <= j < |c| && j != i ==> Pair(c[j], u, 2 * j)
    ensures IsList(c, t)
  {
    forall j | 0 <= j < |c| ensures Pair(c[j], t, 2 * j) {
      assert |c[j].entries| == 2;
    }
  }

  /** The entries of one chunk, as IDSet_clear looks through them. */
  method ClearChunk(cur: IDSet, id: Uid, ghost u: seq<Entry>, ghost k: nat) returns (b: bool)
    requires Sorted(u) && Pair(cur, u, k) && (Present(u, Group(id)) ==> k <= Rank(u, Group(id)))
    modifies cur`entries
    ensures b <==> Present(u, Group(id)) && Rank(u, Group(id)) < k + 2
    ensures b ==> Pair(cur, Cut(u, id), k)
    ensures !b ==> cur.entries == old(cur.entries)
  {
    var group, ndx := Group(id), 0;
    while ndx < 2
      invariant 0 <= ndx <= 2 && cur.entries == old(cur.entries)
      invariant Present(u, group) ==> k + ndx <= Rank(u, group)
    {
      var pe := cur.entries[ndx];
      if pe.group == group {
        FoundAt(u, id, k + ndx);
        cur.entries := cur.entries[ndx := Entry(group, pe.mask - Mask(id))];
        CutElsewhere(u, id);
        assert At(Cut(u, id), k + 1 - ndx) == At(u, k + 1 - ndx);
        return true;
      }
      ndx := ndx + 1;
    }
    return false;
  }

  lemma FoundAt(u: seq<Entry>, id: Uid, k: nat)
    requires Sorted(u) && At(u, k).group == Group(id)
    ensures Present(u, Group(id)) && Rank(u, Group(id)) == k
    ensures At(Cut(u, id), k) == Entry(Group(id), At(u, k).mask - Mask(id))
  {
    var p := Rank(u, Group(id));
    assert k < |u|;
    assert p <= k;
  }

  /** IDSet_clear removes exactly the id; it tells whether the id's group was there at all. */
  method Clear(head: IDSet, id: Uid, ghost c: seq<IDSet>, ghost u: seq<Entry>) returns (b: bool)
    requires IsList(c, u) && head == c[0]
    modifies c
    ensures IsList(c, Cut(u, id)) && (b <==> Present(u, Group(id)))
    ensures forall x: Uid :: Has(Cut(u, id), x) <==> Has(u, x) && x != id
  {
    forall x: Uid ensures Has(Cut(u, id), x) <==> Has(u, x) && x != id {
      CutRemoves(u, id, x);
    }
    b := ClearWalk(head, id, c, u);
  }

  lemma Absent(u: seq<Entry>, id: Uid)
    ensures Present(u, Group(id)) ==> Rank(u, Group(id)) < |u|
    ensures !Present(u, Group(id)) ==> Cut(u, id) == u
  {
  }

  /** The walk of IDSet_clear over the chunks. */
  method ClearWalk(head: IDSet, id: Uid, ghost c: seq<IDSet>, ghost u: seq<Entry>) returns (b: bool)
    requires IsList(c, u) && head == c[0]
    modifies c
    ensures IsList(c, Cut(u, id)) && (b <==> Present(u, Group(id)))
  {
    Absent(u, id);
    hide Cut, Rank, Present, Sorted, At;
    var cur: IDSet? := head;
    ghost var i := 0;
    while cur != null
      invariant i <= |c| && cur == if i < |c| then c[i] else null
      invariant unchanged(c)
      invariant Present(u, Group(id)) ==> 2 * i <= Rank(u, Group(id))
      decreases |c| - i
    {
      assert |c[i].entries| == 2;
      b := ClearChunk(cur, id, u, 2 * i);
      if b {
        OnlyAt(c, i);
        forall j | 0 <= j < |c| && j != i ensures Pair(c[j], u, 2 * j) {
          assert |old(c[j].entries)| == 2;
        }
        CutElsewhere(u, id);
        OneChunkShown(c, u, Cut(u, id), i, Rank(u, Group(id)));
        return;
      }
      assert cur.next == c[i].next;
      cur := cur.next;
      i := i + 1;
    }
    return false;
  }
}
