// Duplicating an id set, chunk by chunk.
// Models IDSet_dup of libmink/Hub/MinkHub/inc/IDSet.h.

module IDSetCopies {
  import opened Seqs
  import opened IDSets

  /** The chunks of `d` show what the first chunks of `c` show. */
  ghost predicate Mirrors(d: seq<IDSet>, c: seq<IDSet>)
    reads d, c
  {
    |d| <= |c| && forall j {:trigger d[j].entries} :: 0 <= j < |d| ==> d[j].entries == c[j].entries
  }

  /** One round of the loop: another chunk behind the copy, filled from the next chunk of the set. */
  method CopyNext(tmp: IDSet, from: IDSet, ghost d: seq<IDSet>, ghost c: seq<IDSet>) returns (chunk: IDSet)
    requires Chained(d) && Mirrors(d, c) && |d| < |c| && tmp == d[|d| - 1] && from == c[|d|]
    requires forall x :: x in d ==> x !in c
    modifies tmp`next
    ensures fresh(chunk) && Chained(d + [chunk]) && Mirrors(d + [chunk], c)
  {
    OnlyAt(d, |d| - 1);
    chunk := new IDSet();
    tmp.next := chunk;
    chunk.entries := from.entries;
    DistinctAppend(d, chunk);
    ghost var e := d + [chunk];
    forall j | 0 <= j < |e| ensures e[j].entries == c[j].entries {
      assert j < |d| ==> e[j].entries == old(d[j].entries);
    }
  }

  /** The first chunk of a list may be moved to another place. */
  lemma MovedHead(head: IDSet, d: seq<IDSet>)
    requires Chained(d) && head !in d && head.next == d[0].next
    ensures Chained([head] + d[1..])
  {
    var e := [head] + d[1..];
    assert Distinct(d[1..]);
    assert e[1..] == d[1..];
    assert forall i {:trigger e[i]} :: 0 < i < |e| ==> e[i] == d[i];
  }

  lemma MirrorIsList(d: seq<IDSet>, c: seq<IDSet>, u: seq<Entry>)
    requires IsList(c, u) && Chained(d) && Mirrors(d, c) && |d| == |c|
    ensures IsList(d, u)
  {
    forall j | 0 <= j < |d| ensures Pair(d[j], u, 2 * j) {
      assert |c[j].entries| == 2;
      assert d[j].entries == c[j].entries;
    }
  }

  lemma MovedList(head: IDSet, d: seq<IDSet>, u: seq<Entry>)
    requires IsList(d, u) && head !in d && head.next == d[0].next && head.entries == d[0].entries
    ensures IsList([head] + d[1..], u)
  {
    MovedHead(head, d);
    var e := [head] + d[1..];
    forall j | 0 <= j < |e| ensures Pair(e[j], u, 2 * j) {
      assert |d[j].entries| == 2;
    }
  }

  /** IDSet_dup: the target gets the same ids in chunks of its own, even if it is itself a chunk of the
      set; else the set is left alone. When one of the `callocs` it takes fails, it says so and the
      target is left alone. */
  method Dup(me: IDSet, dup: IDSet, callocs: nat, ghost c: seq<IDSet>, ghost u: seq<Entry>)
    returns (ok: bool, ghost d: seq<IDSet>)
    requires IsList(c, u) && me == c[0]
    modifies dup
    ensures ok <==> |c| - 1 <= callocs
    ensures ok ==> IsList(d, u) && d[0] == dup && |d| == |c| && forall i :: 0 < i < |d| ==> fresh(d[i])
    ensures !ok ==> dup.entries == old(dup.entries) && dup.next == old(dup.next)
  {
    var id := new IDSet();
    id.entries := me.entries;
    var tmp, cur, left: nat := id, me, callocs;
    d := [id];
    while cur.next != null
      invariant 1 <= |d| <= |c| && tmp == d[|d| - 1] && cur == c[|d| - 1] && d[0] == id
      invariant left + |d| - 1 == callocs && Chained(d) && Mirrors(d, c)
      invariant forall i :: 0 <= i < |d| ==> fresh(d[i])
      invariant IsList(c, u) && unchanged(dup)
      decreases |c| - |d|
    {
      if left == 0 { return false, []; }
      cur := cur.next;
      tmp := CopyNext(tmp, cur, d, c);
      d, left := d + [tmp], left - 1;
    }
    assert |d| == |c|;
    MirrorIsList(d, c, u);
    dup.entries, dup.next := id.entries, id.next;
    MovedList(dup, d, u);
    return true, [dup] + d[1..];
  }
}
