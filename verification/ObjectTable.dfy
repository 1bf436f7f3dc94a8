// The table of local objects that a remote domain holds by handle.
// Models libmink/Transport/MinkSocket/sock/ObjectTable.c, each section under the mutex as one step.

module ObjectTables {
  import opened Mink

  /** What happened to a handle. */
  datatype Event = Added(h: nat, o: Object) | Closed(h: nat, o: Object)

  /** The object last added at `h` and not closed since. */
  function Last(history: seq<Event>, h: nat): Object {
    if history == [] then Null
    else
      var e := history[|history| - 1];
      if e.h != h then Last(history[..|history| - 1], h) else if e.Added? then e.o else Null
  }

  /** Handles are given out only while free, and closed only while taken. */
  predicate Coherent(history: seq<Event>) {
    history == [] ||
    var most, e := history[..|history| - 1], history[|history| - 1];
    && Coherent(most) && !e.o.Null?
    && Last(most, e.h) == if e.Added? then Null else e.o
  }

  lemma LastOf(history: seq<Event>, e: Event, h: nat)
    ensures Last(history + [e], h) == if e.h != h then Last(history, h) else if e.Added? then e.o else Null
    ensures Coherent(history + [e]) <==>
            Coherent(history) && !e.o.Null? && Last(history, e.h) == if e.Added? then Null else e.o
  {
    assert (history + [e])[..|history|] == history;
  }

  function Count(history: seq<Event>, h: nat): int {
    if history == [] then 0
    else
      var e := history[|history| - 1];
      Count(history[..|history| - 1], h) + if e.h != h then 0 else if e.Added? then 1 else -1
  }

  /** What closing the handles from lo up to hi records, in that order: an event for each taken one. */
  function Closings(s: seq<Object>, lo: nat, hi: nat): seq<Event>
    requires lo <= hi <= |s|
  {
    if lo == hi then []
    else Closings(s, lo, hi - 1) + if s[hi - 1].Null? then [] else [Closed(hi - 1, s[hi - 1])]
  }

  /** The slots from lo up to hi are free, the others as in `s`. */
  function Emptied(s: seq<Object>, lo: nat, hi: nat): (r: seq<Object>)
    requires lo <= hi <= |s|
    ensures |r| == |s| && forall k :: 0 <= k < |s| ==> r[k] == if lo <= k < hi then Null else s[k]
  {
    if lo == hi then s else Emptied(s, lo, hi - 1)[hi - 1 := Null]
  }

  lemma EmptiedStep(s: seq<Object>, past: seq<Event>, lo: nat, h: nat)
    requires lo <= h < |s|
    ensures Emptied(s, lo, h)[h] == s[h] && Emptied(s, lo, h + 1) == Emptied(s, lo, h)[h := Null]
    ensures past + Closings(s, lo, h + 1)
            == past + Closings(s, lo, h) + if s[h].Null? then [] else [Closed(h, s[h])]
  {
  }

  lemma EmptiedNone(s: seq<Object>, past: seq<Event>, lo: nat)
    requires lo <= |s|
    ensures Emptied(s, lo, lo) == s && past + Closings(s, lo, lo) == past
  {
  }

  /** Over any history a handle was added as often as it was closed, or once more if it is taken now. */
  lemma {:induction false} HandleBalance(history: seq<Event>, h: nat)
    requires Coherent(history)
    ensures Count(history, h) == if Last(history, h).Null? then 0 else 1
  {
    if history != [] {
      HandleBalance(history[..|history| - 1], h);
    }
  }

  /** One reference for each occupied slot. */
  function Owned(s: seq<Object>): multiset<Object> {
    multiset(s)[Null := 0]
  }

  lemma OwnedUpdate(s: seq<Object>, h: nat, o: Object)
    requires h < |s|
    ensures Owned(s[h := o]) + (if s[h].Null? then multiset{} else multiset{s[h]})
            == Owned(s) + (if o.Null? then multiset{} else multiset{o})
    ensures !s[h].Null? ==> s[h] in Owned(s)
  {
    assert s == s[..h] + [s[h]] + s[h + 1..];
    assert s[h := o] == s[..h] + [o] + s[h + 1..];
  }

  lemma NothingOwned(s: seq<Object>)
    ensures |Owned(s)| == 0 <==> forall h :: 0 <= h < |s| ==> s[h].Null?
  {
    assert |Owned(s)| == 0 <==> Owned(s) == multiset{};
    forall h | 0 <= h < |s| ensures s[h].Null? || s[h] in Owned(s) {
      assert s[h] in multiset(s);
    }
    assert forall o :: o in Owned(s) ==> o in multiset(s) && o in s;
  }

  /** A single reference means a single occupied slot. */
  lemma OnlyOne(s: seq<Object>, p: nat)
    requires p < |s| && !s[p].Null?
    ensures |Owned(s)| == 1 <==> forall h :: 0 <= h < |s| && h != p ==> s[h].Null?
  {
    var t := s[p := Null];
    OwnedUpdate(s, p, Null);
    assert |Owned(s)| == |Owned(t)| + 1;
    NothingOwned(t);
    assert forall h :: 0 <= h < |s| && h != p ==> t[h] == s[h];
  }

  lemma AllClosed(s: seq<Object>, p: nat)
    requires p < |s| && forall h :: 0 <= h < |s| && h != p ==> s[h].Null?
    ensures |Owned(s)| == if s[p].Null? then 0 else 1
  {
    if s[p].Null? { NothingOwned(s); } else { OnlyOne(s, p); }
  }

  /** The slots follow from the history, and so do the references taken for them. */
  ghost predicate Fits(s: seq<Object>, retains: multiset<Object>, gone: multiset<Object>, history: seq<Event>) {
    && retains == gone + Owned(s)
    && Coherent(history) && forall h :: 0 <= h < |s| ==> Last(history, h) == s[h]
  }

  lemma NothingLeft(s: seq<Object>, retains: multiset<Object>, gone: multiset<Object>, history: seq<Event>)
    requires Fits(s, retains, gone, history) && forall h :: 0 <= h < |s| ==> s[h].Null?
    ensures gone == retains
  {
    hide Last, Coherent;
    NothingOwned(s);
  }

  lemma AddFits(s: seq<Object>, retains: multiset<Object>, gone: multiset<Object>, history: seq<Event>, n: nat, obj: Object)
    requires Fits(s, retains, gone, history) && n < |s| && s[n].Null? && !obj.Null?
    ensures Fits(s[n := obj], retains + multiset{obj}, gone, history + [Added(n, obj)])
    ensures |Owned(s[n := obj])| == |Owned(s)| + 1
  {
    hide Owned, Coherent, Last;
    OwnedUpdate(s, n, obj);
    assert Owned(s[n := obj]) == Owned(s) + multiset{obj};
    forall h: nat ensures Last(history + [Added(n, obj)], h) == if h == n then obj else Last(history, h) {
      LastOf(history, Added(n, obj), h);
    }
    LastOf(history, Added(n, obj), n);
  }

  lemma CloseFits(s: seq<Object>, retains: multiset<Object>, gone: multiset<Object>, history: seq<Event>, n: nat)
    requires Fits(s, retains, gone, history) && n < |s| && !s[n].Null?
    ensures Fits(s[n := Null], retains, gone + multiset{s[n]}, history + [Closed(n, s[n])])
    ensures |Owned(s[n := Null])| == |Owned(s)| - 1
  {
    hide Owned, Coherent, Last;
    OwnedUpdate(s, n, Null);
    assert Owned(s[n := Null]) + multiset{s[n]} == Owned(s);
    forall h: nat ensures Last(history + [Closed(n, s[n])], h) == if h == n then Null else Last(history, h) {
      LastOf(history, Closed(n, s[n]), h);
    }
    LastOf(history, Closed(n, s[n]), n);
  }

  class ObjectTable {
    const generic: nat
    const primordial: nat
    const objects: array<Object>
    var objectsCount: nat

    // Calls made on objects, and references handed to callers of RecoverObject.
    var retains: multiset<Object>
    var releases: multiset<Object>
    var lent: multiset<Object>

    ghost var history: seq<Event>

    ghost predicate Valid()
      reads this, objects
    {
      && generic <= primordial < objects.Length
      && objectsCount == |Owned(objects[..])|
      && (forall h :: 0 <= h < objects.Length && !objects[h].Null? ==> generic <= h <= primordial)
      && Fits(objects[..], retains, releases + lent, history)
    }

    /** ObjectTable_construct, when the array can be allocated. */
    constructor (size: nat, generic: nat, primordial: nat)
      requires generic <= primordial < size
      ensures Valid() && fresh(objects) && objects.Length == size && history == []
      ensures this.generic == generic && this.primordial == primordial && objectsCount == 0
      ensures retains == releases == lent == multiset{}
    {
      this.generic, this.primordial := generic, primordial;
      objects := new Object[size](_ => Null);
      objectsCount, retains, releases, lent, history := 0, multiset{}, multiset{}, multiset{}, [];
      new;
      assert forall o :: o in multiset(objects[..]) ==> o in objects[..];
      assert Owned(objects[..]) == multiset{};
    }

    /** ObjectTable_isCleaned: exactly the primordial object is left. */
    method IsCleaned() returns (state: bool)
      requires Valid()
      ensures state <==> !objects[primordial].Null? && forall h | 0 <= h < objects.Length && h != primordial :: objects[h].Null?
    {
      if !objects[primordial].Null? {
        OnlyOne(objects[..], primordial);
      }
      state := objectsCount == 1 && !objects[primordial].Null?;
    }

    /** ObjectTable_add. Retaining the null object is a caller's error. */
    method Add(obj: Object, n: nat) returns (res: int)
      requires Valid() && !obj.Null? && generic <= n <= primordial
      modifies this, objects
      ensures Valid() && lent == old(lent) && releases == old(releases)
      ensures old(objects[n]).Null? ==>
                && res == OK && objects[..] == old(objects[..])[n := obj] && retains == old(retains) + multiset{obj}
                && objectsCount == old(objectsCount) + 1 && history == old(history) + [Added(n, obj)]
      ensures !old(objects[n]).Null? ==>
                && res == ERROR && objects[..] == old(objects[..]) && retains == old(retains)
                && objectsCount == old(objectsCount) && history == old(history)
    {
      if objects[n].Null? {
        AddFits(objects[..], retains, releases + lent, history, n, obj);
        objects[n] := obj;
        objectsCount := objectsCount + 1;
        retains := retains + multiset{obj};
        history := history + [Added(n, obj)];
        return OK;
      } else {
        return ERROR;
      }
    }

    /** ObjectTable_AddPrimordial */
    method AddPrimordial(obj: Object) returns (res: int)
      requires Valid() && !obj.Null?
      modifies this, objects
      ensures Valid()
      ensures res == OK <==> old(objects[primordial]).Null?
      ensures res == OK || res == ERROR
      ensures objects[..] == if res == OK then old(objects[..])[primordial := obj] else old(objects[..])
      ensures history == if res == OK then old(history) + [Added(primordial, obj)] else old(history)
      ensures retains == (if res == OK then old(retains) + multiset{obj} else old(retains)) && releases == old(releases)
    {
      res := Add(obj, primordial);
    }

    /** ObjectTable_addObject: the least free handle, never the primordial one; -1 if all are taken. */
    method AddObject(obj: Object) returns (n: int)
      requires Valid() && !obj.Null?
      modifies this, objects
      ensures Valid() && lent == old(lent) && releases == old(releases)
      ensures n == -1 || generic <= n < primordial
      ensures n == -1 ==> && objects[..] == old(objects[..]) && history == old(history) && retains == old(retains)
      ensures n >= 0 ==>
                && old(objects[..])[n].Null? && objects[..] == old(objects[..])[n := obj]
                && history == old(history) + [Added(n, obj)] && retains == old(retains) + multiset{obj}
      ensures forall h :: generic <= h < (if n == -1 then primordial else n) ==> !old(objects[..])[h].Null?
    {
      n := generic;
      while n < primordial
        invariant generic <= n <= primordial && Valid()
        invariant objects[..] == old(objects[..]) && history == old(history)
        invariant retains == old(retains) && releases == old(releases) && lent == old(lent)
        invariant forall h :: generic <= h < n ==> !objects[h].Null?
      {
        var res := Add(obj, n);
        if res == OK { return; }
        n := n + 1;
      }
      return -1;
    }

    /** ObjectTable_recoverObject: the caller gets a reference of its own. */
    method RecoverObject(h: int) returns (o: Object)
      requires Valid()
      modifies `retains, `lent
      ensures Valid()
      ensures o == if 0 <= h < objects.Length then Last(history, h) else Null
      ensures lent == old(lent) + if o.Null? then multiset{} else multiset{o}
    {
      if 0 <= h < objects.Length {
        o := objects[h];
        if !o.Null? {
          retains := retains + multiset{o};
          lent := lent + multiset{o};
          return;
        }
      }
      return Null;
    }

    /** ObjectTable_close */
    method Close(h: nat) returns (res: int)
      requires Valid() && h < objects.Length
      modifies this, objects
      ensures Valid() && lent == old(lent) && retains == old(retains)
      ensures objects[..] == old(objects[..])[h := Null]
      ensures old(objects[h]).Null? ==> res == ERROR && history == old(history) && releases == old(releases)
      ensures !old(objects[h]).Null? ==>
                && res == OK && releases == old(releases) + multiset{old(objects[h])}
                && history == old(history) + [Closed(h, old(objects[h]))]
    {
      if objects[h].Null? { return ERROR; }
      var o := objects[h];
      CloseFits(objects[..], retains, releases + lent, history, h);
      assert releases + lent + multiset{o} == releases + multiset{o} + lent;
      objects[h] := Null;
      objectsCount := objectsCount - 1;
      releases := releases + multiset{o};
      history := history + [Closed(h, o)];
      return OK;
    }

    /** ObjectTable_releasePrimordial */
    method ReleasePrimordial() returns (res: int)
      requires Valid()
      modifies this, objects
      ensures Valid() && lent == old(lent) && retains == old(retains)
      ensures objects[..] == old(objects[..])[primordial := Null]
      ensures res == OK <==> !old(objects[primordial]).Null?
      ensures releases == if res == OK then old(releases) + multiset{old(objects[primordial])} else old(releases)
      ensures history == old(history) + if res == OK then [Closed(primordial, old(objects[primordial]))] else []
    {
      res := Close(primordial);
    }

    /** ObjectTable_releaseHandle: any other handle than a generic one is refused. */
    method ReleaseHandle(h: int) returns (res: int)
      requires Valid()
      modifies this, objects
      ensures Valid() && lent == old(lent) && retains == old(retains)
      ensures res == OK <==> generic <= h < primordial && !old(objects[..])[h].Null?
      ensures objects[..] == if res == OK then old(objects[..])[h := Null] else old(objects[..])
      ensures releases == if res == OK then old(releases) + multiset{old(objects[..])[h]} else old(releases)
      ensures history == old(history) + if res == OK then [Closed(h, old(objects[..])[h])] else []
    {
      res := ERROR;
      if generic <= h < primordial {
        res := Close(h);
      }
    }

    /** The loop of ObjectTable_closeAllHandles and of ObjectTable_destruct. */
    method CloseFrom(lo: nat, hi: nat)
      requires Valid() && lo <= hi <= objects.Length
      modifies this, objects
      ensures Valid() && lent == old(lent) && retains == old(retains)
      ensures objects[..] == Emptied(old(objects[..]), lo, hi)
      ensures history == old(history) + Closings(old(objects[..]), lo, hi)
    {
      hide Valid, Emptied, Closings;
      ghost var was, past := objects[..], history;
      EmptiedNone(was, past, lo);
      for h := lo to hi
        invariant Valid() && lent == old(lent) && retains == old(retains)
        invariant objects[..] == Emptied(was, lo, h)
        invariant history == past + Closings(was, lo, h)
      {
        EmptiedStep(was, past, lo, h);
        var _ := Close(h);
      }
    }

    /** ObjectTable_closeAllHandles: afterwards the table is cleaned exactly if a primordial object is
        there. */
    method CloseAllHandles()
      requires Valid()
      modifies this, objects
      ensures Valid() && lent == old(lent) && retains == old(retains)
      ensures forall h :: 0 <= h < objects.Length && h != primordial ==> objects[h].Null?
      ensures objects[primordial] == old(objects[primordial])
      ensures objectsCount == if objects[primordial].Null? then 0 else 1
      ensures history == old(history) + Closings(old(objects[..]), generic, primordial)
    {
      hide Fits, Emptied, Closings, Owned;
      CloseFrom(generic, primordial);
      AllClosed(objects[..], primordial);
    }

    /** ObjectTable_destruct: nothing is left, and every retained reference was released or is lent. */
    method Destruct()
      requires Valid()
      modifies this, objects
      ensures forall h :: 0 <= h < objects.Length ==> objects[h].Null?
      ensures objectsCount == 0 && retains == old(retains) && lent == old(lent)
      ensures releases + lent == retains
      ensures history == old(history) + Closings(old(objects[..]), 0, objects.Length)
    {
      hide Fits, Emptied, Closings, Owned;
      CloseFrom(0, objects.Length);
      NothingLeft(objects[..], retains, releases + lent, history);
      objectsCount := 0;
    }
  }
}
