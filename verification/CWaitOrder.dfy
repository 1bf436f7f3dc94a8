// Who meets whom: a signal goes to the oldest waiter that can take it, a wait takes the oldest signal.
// Follows from libminkteec/src/CWait.c over whole runs: both lists are searched from the front, and
// grow at the end.

module CWaitOrders {
  import opened CWaits
  import opened CWaitRuns

  // ---------------------------------------------------------------- the list is in order of arrival

  /** Step i made the list item: the wait its waiter, or the signal. */
  ghost predicate Made(ops: seq<Op>, i: nat, it: Item) {
    && i < |ops| && Legal(Run(ops[..i]), ops[i])
    && match ops[i]
       case Wait(w, code, _) => it.Waiter? && it.id == w && it.code == code
       case Send(t, code, events, _) => it == Signal(t, code, events)
       case _ => false
  }

  /** `born` tells for each item the step that made it, and these are in order. */
  ghost predicate InOrder(ops: seq<Op>, list: seq<Item>, born: seq<nat>) {
    && |born| == |list|
    && (forall k :: 0 <= k < |list| ==> Made(ops, born[k], list[k]))
    && (forall k, l :: 0 <= k < l < |born| ==> born[k] < born[l])
  }

  lemma MadeBefore(ops: seq<Op>, op: Op, i: nat, it: Item)
    requires Made(ops, i, it)
    ensures Made(ops + [op], i, it)
  {
    assert (ops + [op])[..i] == ops[..i];
  }

  lemma StillInOrder(ops: seq<Op>, op: Op, list: seq<Item>, born: seq<nat>)
    requires InOrder(ops, list, born)
    ensures InOrder(ops + [op], list, born)
  {
    hide Made;
    forall k | 0 <= k < |list| ensures Made(ops + [op], born[k], list[k]) {
      MadeBefore(ops, op, born[k], list[k]);
    }
  }

  lemma MarkedInOrder(ops: seq<Op>, list: seq<Item>, born: seq<nat>, k: nat, events: Events)
    requires InOrder(ops, list, born) && k < |list| && list[k].Waiter?
    ensures InOrder(ops, list[k := Woken(list[k], events)], born)
  {
    assert Made(ops, born[k], list[k]);
    assert Made(ops, born[k], Woken(list[k], events));
    hide Made;
  }

  lemma CutInOrder(ops: seq<Op>, list: seq<Item>, born: seq<nat>, k: nat)
    requires InOrder(ops, list, born) && k < |list|
    ensures InOrder(ops, list[..k] + list[k + 1..], born[..k] + born[k + 1..])
  {
    hide Made;
    var list', born' := list[..k] + list[k + 1..], born[..k] + born[k + 1..];
    forall j | 0 <= j < |list'| ensures Made(ops, born'[j], list'[j]) {
      assert Made(ops, born[if j < k then j else j + 1], list[if j < k then j else j + 1]);
    }
  }

  lemma LongerInOrder(ops: seq<Op>, op: Op, list: seq<Item>, born: seq<nat>, it: Item)
    requires InOrder(ops, list, born) && Made(ops + [op], |ops|, it)
    ensures InOrder(ops + [op], list + [it], born + [|ops|])
  {
    forall k | 0 <= k < |list| ensures born[k] < |ops| {
      assert Made(ops, born[k], list[k]);
    }
    StillInOrder(ops, op, list, born);
    hide Made;
  }

  /** One step more. */
  lemma StepInOrder(ops: seq<Op>, op: Op, born: seq<nat>) returns (born': seq<nat>)
    requires InOrder(ops, Run(ops).list, born)
    ensures InOrder(ops + [op], Step(Run(ops), op).list, born')
  {
    hide InOrder, FirstWoken, FirstServing, Run;
    var st := Run(ops);
    assert (ops + [op])[..|ops|] == ops;
    StillInOrder(ops, op, st.list, born);
    OneEach(ops, st.list, born);
    born' := born;
    if Legal(st, op) {
      match op
      case Wait(w, code, events) =>
        var k := FirstServing(st.list, code, events);
        if k < |st.list| {
          born' := born[..k] + born[k + 1..];
          CutInOrder(ops + [op], st.list, born, k);
        } else {
          born' := born + [|ops|];
          LongerInOrder(ops, op, st.list, born, Waiter(w, code, events, false));
        }
      case Send(t, code, events, alloc) =>
        var k := FirstWoken(st.list, code, events);
        if k < |st.list| {
          MarkedInOrder(ops + [op], st.list, born, k, events);
        } else if code != 0 && alloc {
          born' := born + [|ops|];
          LongerInOrder(ops, op, st.list, born, Signal(t, code, events));
        }
      case Cross(t, code, events) =>
        MarkedInOrder(ops + [op], st.list, born, FirstWoken(st.list, code, events), events);
      case Leave(w) =>
      case Clear(w) =>
        var k := PlaceOf(st.list, w);
        born' := born[..k] + born[k + 1..];
        CutInOrder(ops + [op], st.list, born, k);
    }
  }

  lemma OneEach(ops: seq<Op>, list: seq<Item>, born: seq<nat>)
    requires InOrder(ops, list, born)
    ensures |born| == |list|
  {
  }

  /** After every run the list is in order of arrival. */
  lemma {:induction false} ListInOrder(ops: seq<Op>) returns (born: seq<nat>)
    ensures InOrder(ops, Run(ops).list, born)
  {
    born := [];
    if ops != [] {
      var before, op := ops[..|ops| - 1], ops[|ops| - 1];
      born := ListInOrder(before);
      assert before + [op] == ops;
      born := StepInOrder(before, op, born);
    }
  }

  // ---------------------------------------------------------------- a waiter waits once

  lemma KnownSince(ops: seq<Op>, i: nat, j: nat)
    requires i < j <= |ops|
    ensures Grows(Step(Run(ops[..i]), ops[i]), Run(ops[..j]))
  {
    var early, rest := ops[..i + 1], ops[i + 1..j];
    assert early == ops[..i] + [ops[i]] && early + rest == ops[..j];
    RunOne(ops[..i], ops[i]);
    FateIsFinal(early, rest);
  }

  predicate Waits(ops: seq<Op>, i: nat, w: nat) {
    i < |ops| && ops[i].Wait? && ops[i].w == w && Legal(Run(ops[..i]), ops[i])
  }

  predicate Sends(ops: seq<Op>, i: nat, t: nat) {
    i < |ops| && ops[i].Send? && ops[i].t == t && Legal(Run(ops[..i]), ops[i])
  }

  lemma WaitIsKnown(ops: seq<Op>, i: nat, j: nat, w: nat)
    requires Waits(ops, i, w) && i < j <= |ops|
    ensures w in Run(ops[..j]).waits
  {
    KnownSince(ops, i, j);
    hide Run, FirstServing, WaitList;
    assert w in Step(Run(ops[..i]), ops[i]).waits;
  }

  lemma WaitsOnce(ops: seq<Op>, i: nat, j: nat, w: nat)
    requires Waits(ops, i, w) && Waits(ops, j, w)
    ensures i == j
  {
    hide Run;
    if i < j {
      WaitIsKnown(ops, i, j, w);
    } else if j < i {
      WaitIsKnown(ops, j, i, w);
    }
  }

  lemma SendIsKnown(ops: seq<Op>, i: nat, j: nat, t: nat)
    requires Sends(ops, i, t) && i < j <= |ops|
    ensures t in Run(ops[..j]).signals
  {
    KnownSince(ops, i, j);
    hide Run, FirstWoken, SignalList;
    assert t in Step(Run(ops[..i]), ops[i]).signals;
  }

  lemma SendsOnce(ops: seq<Op>, i: nat, j: nat, t: nat)
    requires Sends(ops, i, t) && Sends(ops, j, t)
    ensures i == j
  {
    hide Run;
    if i < j {
      SendIsKnown(ops, i, j, t);
    } else if j < i {
      SendIsKnown(ops, j, i, t);
    }
  }

  // ---------------------------------------------------------------- which waiter a signal reaches

  /** The wait of step i is still listed, for this code or for any, and with one of the events left. */
  ghost predicate Hears(ops: seq<Op>, i: nat, code: Code, events: Events) {
    && i < |ops| && ops[i].Wait? && Legal(Run(ops[..i]), ops[i])
    && (ops[i].code == 0 || ops[i].code == code)
    && exists it :: it in Run(ops).list && IsWaiter(it, ops[i].w) && it.events * events != {}
  }

  ghost predicate FirstToHear(ops: seq<Op>, i: nat, code: Code, events: Events) {
    Hears(ops, i, code, events) && forall j: nat :: j < i ==> !Hears(ops, j, code, events)
  }

  /** Waiter w is marked and left with the events it shares with the signal; all else stays. */
  ghost predicate Marks(list: seq<Item>, list': seq<Item>, w: nat, events: Events) {
    && |list'| == |list|
    && forall k :: 0 <= k < |list| ==>
         list'[k] == if IsWaiter(list[k], w) then Waiter(w, list[k].code, list[k].events * events, true) else list[k]
  }

  /** The step of a listed waiter, and what it says of it. */
  lemma WaiterStep(ops: seq<Op>, born: seq<nat>, k: nat)
    requires InOrder(ops, Run(ops).list, born) && k < |Run(ops).list| && Run(ops).list[k].Waiter?
    ensures var it := Run(ops).list[k]; k < |born| && Waits(ops, born[k], it.id) && ops[born[k]].code == it.code
  {
    assert Made(ops, born[k], Run(ops).list[k]);
  }

  lemma HearsAt(ops: seq<Op>, born: seq<nat>, j: nat, code: Code, events: Events) returns (k: nat)
    requires InOrder(ops, Run(ops).list, born) && Hears(ops, j, code, events)
    ensures k < |Run(ops).list| == |born| && born[k] == j
    ensures var it := Run(ops).list[k]; it.Waiter? && it.events * events != {} && (it.code == 0 || it.code == code)
  {
    hide InOrder, Run, Legal;
    OneEach(ops, Run(ops).list, born);
    var it :| it in Run(ops).list && IsWaiter(it, ops[j].w) && it.events * events != {};
    k :| 0 <= k < |Run(ops).list| && Run(ops).list[k] == it;
    WaiterStep(ops, born, k);
    WaitsOnce(ops, born[k], j, it.id);
  }

  lemma HearsOf(ops: seq<Op>, born: seq<nat>, k: nat, code: Code, events: Events)
    requires InOrder(ops, Run(ops).list, born) && k < |Run(ops).list| == |born|
    requires var it := Run(ops).list[k]; it.Waiter? && it.events * events != {} && (it.code == 0 || it.code == code)
    ensures Hears(ops, born[k], code, events)
  {
    hide InOrder, Run, Legal;
    WaiterStep(ops, born, k);
    assert Run(ops).list[k] in Run(ops).list && IsWaiter(Run(ops).list[k], ops[born[k]].w);
  }

  lemma WokenBy(list: seq<Item>, l: nat, code: Code, events: Events)
    requires l < |list| && list[l].Waiter? && list[l].events * events != {} && (list[l].code == 0 || list[l].code == code)
    ensures FirstWoken(list, code, events) <= l
  {
    hide FirstWoken;
    assert Wakes(list[l], code, events);
  }

  /** The first waiter of the list that the signal wakes is the first to hear it. */
  lemma WokenHears(ops: seq<Op>, code: Code, events: Events) returns (i: nat)
    requires var list := Run(ops).list; FirstWoken(list, code, events) < |list|
    ensures FirstToHear(ops, i, code, events)
    ensures ops[i].w == Run(ops).list[FirstWoken(Run(ops).list, code, events)].id
  {
    hide InOrder, Run, FirstWoken, Hears;
    var list := Run(ops).list;
    var k := FirstWoken(list, code, events);
    var born := ListInOrder(ops);
    OneEach(ops, list, born);
    WaiterStep(ops, born, k);
    HearsOf(ops, born, k, code, events);
    i := born[k];
    forall j: nat | Hears(ops, j, code, events) ensures i <= j {
      var l := HearsAt(ops, born, j, code, events);
      WokenBy(list, l, code, events);
      Rises(ops, list, born, l, k);
    }
  }

  lemma Rises(ops: seq<Op>, list: seq<Item>, born: seq<nat>, k: nat, l: nat)
    requires InOrder(ops, list, born) && k < |born| && l < |born|
    ensures born[k] < born[l] <==> k < l
  {
  }

  lemma NobodyHears(ops: seq<Op>, code: Code, events: Events)
    requires var list := Run(ops).list; FirstWoken(list, code, events) == |list|
    ensures forall i: nat :: !Hears(ops, i, code, events)
  {
    hide InOrder, Run, FirstWoken, Hears, Wakes;
    var born := ListInOrder(ops);
    forall i: nat ensures !Hears(ops, i, code, events) {
      if Hears(ops, i, code, events) {
        var l := HearsAt(ops, born, i, code, events);
        WokenBy(Run(ops).list, l, code, events);
      }
    }
  }

  lemma FirstIsOne(ops: seq<Op>, i: nat, j: nat, code: Code, events: Events)
    requires FirstToHear(ops, i, code, events) && FirstToHear(ops, j, code, events)
    ensures i == j
  {
    hide Hears;
  }

  lemma WokenMarks(list: seq<Item>, k: nat, events: Events)
    requires Once(list) && k < |list| && list[k].Waiter?
    ensures Marks(list, list[k := Woken(list[k], events)], list[k].id, events)
  {
    forall j | 0 <= j < |list| && j != k ensures !IsWaiter(list[j], list[k].id) {
      if j < k { assert !SameItem(list[j], list[k]); } else { assert !SameItem(list[k], list[j]); }
    }
  }

  /** What a signal that reaches nobody comes to. */
  ghost predicate Unheard(st: State, st': State, op: Op)
    requires op.Send? && op.t in st'.signals
  {
    var fate := st'.signals[op.t].fate;
    if op.code == 0 then fate == Ignored && st'.list == st.list
    else if op.alloc then fate == Queued && st'.list == st.list + [Signal(op.t, op.code, op.events)]
    else fate == Dropped && st'.list == st.list
  }

  /** A signal is attached to the waiter whose wait came first among those that are listed, for its code
      or for any, with one of its events; that item is marked and narrowed. With no such waiter it is
      queued, or ignored for code zero, or dropped without memory. */
  lemma SignalReaches(ops: seq<Op>, op: Op)
    requires (op.Send? || op.Cross?) && Legal(Run(ops), op)
    ensures var st, st' := Run(ops), Step(Run(ops), op);
            && op.t in st'.signals
            && var fate := st'.signals[op.t].fate;
               && (fate.Attached? <==> exists i: nat :: FirstToHear(ops, i, op.code, op.events))
               && (forall i: nat :: FirstToHear(ops, i, op.code, op.events) ==>
                     fate.Attached? && fate.w == ops[i].w && Marks(st.list, st'.list, ops[i].w, op.events))
               && (!fate.Attached? ==> op.Send? && Unheard(st, st', op))
  {
    RunKeepsInv(ops);
    hide Run, FirstWoken, FirstToHear, Marks;
    var st := Run(ops);
    var k := FirstWoken(st.list, op.code, op.events);
    if k < |st.list| {
      var n := WokenHears(ops, op.code, op.events);
      WokenMarks(st.list, k, op.events);
      forall i: nat | FirstToHear(ops, i, op.code, op.events) ensures i == n {
        FirstIsOne(ops, i, n, op.code, op.events);
      }
    } else {
      NobodyHears(ops, op.code, op.events);
      NobodyFirst(ops, op.code, op.events);
    }
  }

  lemma NobodyFirst(ops: seq<Op>, code: Code, events: Events)
    requires forall i: nat :: !Hears(ops, i, code, events)
    ensures forall i: nat :: !FirstToHear(ops, i, code, events)
  {
  }

  // ---------------------------------------------------------------- which signal a wait takes

  /** The signal of step i is still queued, has this code and one of the events. */
  ghost predicate Offers(ops: seq<Op>, i: nat, code: Code, events: Events) {
    && i < |ops| && ops[i].Send? && Legal(Run(ops[..i]), ops[i])
    && ops[i].code == code && ops[i].events * events != {}
    && ops[i].t in Run(ops).signals && Run(ops).signals[ops[i].t].fate == Queued
  }

  ghost predicate FirstOffer(ops: seq<Op>, i: nat, code: Code, events: Events) {
    Offers(ops, i, code, events) && forall j: nat :: j < i ==> !Offers(ops, j, code, events)
  }

  lemma SignalStep(ops: seq<Op>, born: seq<nat>, k: nat)
    requires InOrder(ops, Run(ops).list, born) && k < |Run(ops).list| && Run(ops).list[k].Signal?
    ensures var it := Run(ops).list[k];
            k < |born| && Sends(ops, born[k], it.id) && ops[born[k]].code == it.code && ops[born[k]].events == it.events
  {
    assert Made(ops, born[k], Run(ops).list[k]);
  }

  /** What was recorded of a signal is what was sent. */
  lemma SentIsRecorded(ops: seq<Op>, j: nat, t: nat)
    requires Sends(ops, j, t)
    ensures var st := Run(ops); t in st.signals && st.signals[t].code == ops[j].code && st.signals[t].events == ops[j].events
  {
    assert ops[..|ops|] == ops;
    KnownSince(ops, j, |ops|);
    hide Run, Step, Grows;
    KeptRecord(ops, j, t);
  }

  lemma KeptRecord(ops: seq<Op>, j: nat, t: nat)
    requires Sends(ops, j, t) && Grows(Step(Run(ops[..j]), ops[j]), Run(ops))
    ensures var st := Run(ops); t in st.signals && st.signals[t].code == ops[j].code && st.signals[t].events == ops[j].events
  {
    hide Run, FirstWoken;
    var st := Run(ops[..j]);
    assert t in Step(st, ops[j]).signals && Step(st, ops[j]).signals[t].code == ops[j].code;
  }

  lemma OffersAt(ops: seq<Op>, born: seq<nat>, j: nat, code: Code, events: Events) returns (k: nat)
    requires InOrder(ops, Run(ops).list, born) && Inv(Run(ops)) && Offers(ops, j, code, events)
    ensures k < |Run(ops).list| == |born| && born[k] == j
    ensures var it := Run(ops).list[k]; it.Signal? && it.events * events != {} && it.code == code
  {
    hide InOrder, Run, Legal, Waiting, Reported, Single, Explained, Once, NoClash;
    OneEach(ops, Run(ops).list, born);
    var t := ops[j].t;
    SentIsRecorded(ops, j, t);
    assert Signal(t, ops[j].code, ops[j].events) in Run(ops).list;
    k :| 0 <= k < |Run(ops).list| && Run(ops).list[k] == Signal(t, ops[j].code, ops[j].events);
    SignalStep(ops, born, k);
    SendsOnce(ops, born[k], j, t);
  }

  lemma OffersOf(ops: seq<Op>, born: seq<nat>, k: nat, code: Code, events: Events)
    requires InOrder(ops, Run(ops).list, born) && Inv(Run(ops)) && k < |Run(ops).list| == |born|
    requires Serves(Run(ops).list[k], code, events)
    ensures Offers(ops, born[k], code, events) && ops[born[k]].t == Run(ops).list[k].id
    ensures ops[born[k]].events == Run(ops).list[k].events
  {
    hide InOrder, Run, Legal, Waiting, Reported, Single, Explained, Once, NoClash;
    assert Run(ops).list[k] in Run(ops).list;
    SignalStep(ops, born, k);
  }

  lemma ServedBy(list: seq<Item>, l: nat, code: Code, events: Events)
    requires l < |list| && list[l].Signal? && list[l].events * events != {} && list[l].code == code
    ensures FirstServing(list, code, events) <= l
  {
    hide FirstServing;
    assert Serves(list[l], code, events);
  }

  lemma ServedOffers(ops: seq<Op>, code: Code, events: Events) returns (i: nat)
    requires var list := Run(ops).list; FirstServing(list, code, events) < |list|
    ensures FirstOffer(ops, i, code, events) && i < |ops| && ops[i].Send?
    ensures var s := Run(ops).list[FirstServing(Run(ops).list, code, events)];
            ops[i].t == s.id && ops[i].events == s.events && ops[i].code == s.code
  {
    RunKeepsInv(ops);
    hide InOrder, Run, FirstServing, Offers, Inv;
    var list := Run(ops).list;
    var k := FirstServing(list, code, events);
    var born := ListInOrder(ops);
    OneEach(ops, list, born);
    SignalStep(ops, born, k);
    OffersOf(ops, born, k, code, events);
    i := born[k];
    forall j: nat | Offers(ops, j, code, events) ensures i <= j {
      var l := OffersAt(ops, born, j, code, events);
      ServedBy(list, l, code, events);
      Rises(ops, list, born, l, k);
    }
  }

  lemma NobodyOffers(ops: seq<Op>, code: Code, events: Events)
    requires var list := Run(ops).list; FirstServing(list, code, events) == |list|
    ensures forall i: nat :: !FirstOffer(ops, i, code, events)
  {
    RunKeepsInv(ops);
    hide InOrder, Run, FirstServing, Offers, Inv, Serves;
    var born := ListInOrder(ops);
    forall i: nat ensures !Offers(ops, i, code, events) {
      if Offers(ops, i, code, events) {
        var l := OffersAt(ops, born, i, code, events);
        ServedBy(Run(ops).list, l, code, events);
      }
    }
  }

  /** The wait returns at once with the events it shares with the signal, which is off the list. */
  ghost predicate Takes(st: State, st': State, op: Op, t: nat, sent: Events)
    requires op.Wait?
  {
    && op.w in st'.waits && st'.waits[op.w] == Asked(op.events, true, sent * op.events)
    && t in st.signals && t in st'.signals && st'.signals == st.signals[t := st.signals[t].(fate := Consumed(op.w))]
    && exists k :: 0 <= k < |st.list| && st.list[k] == Signal(t, op.code, sent) && st'.list == st.list[..k] + st.list[k + 1..]
  }

  /** A wait takes the signal that was sent first among those still queued with its code and one of its
      events. With no such signal it is listed, behind all others, for its code and all its events. */
  lemma WaitTakes(ops: seq<Op>, op: Op)
    requires op.Wait? && Legal(Run(ops), op)
    ensures var st, st' := Run(ops), Step(Run(ops), op);
            && op.w in st'.waits && (st'.waits[op.w].left <==> exists i: nat :: FirstOffer(ops, i, op.code, op.events))
            && (forall i: nat :: FirstOffer(ops, i, op.code, op.events) ==> Takes(st, st', op, ops[i].t, ops[i].events))
            && (!st'.waits[op.w].left ==>
                  && st'.waits == st.waits[op.w := Asked(op.events, false, {})] && st'.signals == st.signals
                  && st'.list == st.list + [Waiter(op.w, op.code, op.events, false)])
  {
    RunKeepsInv(ops);
    hide Run, FirstServing, Offers, Waiting, Reported, Single, Explained, Once, NoClash;
    var st := Run(ops);
    var k := FirstServing(st.list, op.code, op.events);
    if k < |st.list| {
      var n := ServedOffers(ops, op.code, op.events);
      assert st.list[k] in st.list;
      assert Takes(st, Step(st, op), op, ops[n].t, ops[n].events);
      forall i: nat | FirstOffer(ops, i, op.code, op.events) ensures i == n {
      }
    } else {
      NobodyOffers(ops, op.code, op.events);
    }
  }
}
