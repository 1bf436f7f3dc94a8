// What a wait reports, exactly: the events it asked for that every signal which reached it carries.
// Follows from libminkteec/src/CWait.c over whole runs.

module CWaitReports {
  import opened CWaits
  import opened CWaitRuns

  /** The signal reached the wait, and was whole when the wait read its item. */
  predicate Narrows(st: State, t: nat, w: nat) {
    && t in st.signals && var fate := st.signals[t].fate;
       (fate.Consumed? || (fate.Attached? && fate.time == InTime)) && fate.w == w
  }

  /** The wait asked for the event, and every signal that narrows its report carries it. */
  ghost predicate Shared(st: State, w: nat, e: nat)
    requires w in st.waits
  {
    e in st.waits[w].events && forall t :: Narrows(st, t, w) ==> e in st.signals[t].events
  }

  /** A listed waiter has exactly the events left that it asked for and all signals attached carry. */
  ghost predicate ItemExact(st: State, it: Item)
    requires it.id in st.waits
  {
    forall e :: e in it.events <==>
                e in st.waits[it.id].events && forall t :: AttachedTo(st, t, it.id) ==> e in st.signals[t].events
  }

  /** A returned wait reported nothing, if no signal reached it, and else exactly the shared events. */
  ghost predicate ReportExact(st: State, w: nat)
    requires w in st.waits
  {
    st.waits[w].left ==> forall e :: e in st.waits[w].out <==> (exists t :: Reaches(st, t, w)) && Shared(st, w, e)
  }

  ghost predicate Items(st: State) {
    forall it :: it in st.list && it.Waiter? ==> it.id in st.waits && ItemExact(st, it)
  }

  ghost predicate Reports(st: State) {
    forall w :: w in st.waits ==> ReportExact(st, w)
  }

  ghost predicate Exact(st: State) {
    Items(st) && Reports(st)
  }

  // ---------------------------------------------------------------- what does not concern a wait

  /** Nothing changes for an item whose wait and signals stay. */
  lemma ItemStays(st: State, st': State, it: Item)
    requires it.id in st.waits && ItemExact(st, it) && it.id in st'.waits && st'.waits[it.id].events == st.waits[it.id].events
    requires forall t :: AttachedTo(st', t, it.id) <==> AttachedTo(st, t, it.id)
    requires forall t :: AttachedTo(st, t, it.id) ==> t in st'.signals && st'.signals[t].events == st.signals[t].events
    ensures ItemExact(st', it)
  {
  }

  /** Nor for a report. */
  lemma ReportStays(st: State, st': State, w: nat)
    requires w in st.waits && ReportExact(st, w) && w in st'.waits && st'.waits[w] == st.waits[w]
    requires forall t :: Reaches(st', t, w) <==> Reaches(st, t, w)
    requires forall t :: Narrows(st', t, w) <==> Narrows(st, t, w)
    requires forall t :: Narrows(st, t, w) ==> t in st'.signals && st'.signals[t].events == st.signals[t].events
    ensures ReportExact(st', w)
  {
    forall e ensures Shared(st', w, e) <==> Shared(st, w, e) {
    }
  }

  /** A wait that is still out has no report. */
  lemma NoReport(st: State, w: nat)
    requires w in st.waits && !st.waits[w].left
    ensures ReportExact(st, w)
  {
  }

  // ---------------------------------------------------------------- CWait_wait, first section

  /** No signal was for a wait that is only coming. */
  lemma NobodyYet(st: State, w: nat)
    requires Inv(st) && w !in st.waits
    ensures forall t :: !Reaches(st, t, w) && !AttachedTo(st, t, w) && !Narrows(st, t, w)
  {
    forall t ensures !Reaches(st, t, w) && !AttachedTo(st, t, w) && !Narrows(st, t, w) {
      if t in st.signals { assert SignalFits(st, t); }
    }
  }

  lemma WaitOthers(st: State, op: Op, w: nat)
    requires op.Wait? && Legal(st, op) && Inv(st) && w != op.w
    ensures var st' := Step(st, op);
            && (w in st'.waits <==> w in st.waits) && (w in st.waits ==> st'.waits[w] == st.waits[w])
            && (forall t :: Reaches(st', t, w) <==> Reaches(st, t, w))
            && (forall t :: AttachedTo(st', t, w) <==> AttachedTo(st, t, w))
            && (forall t :: Narrows(st', t, w) <==> Narrows(st, t, w))
            && (forall t :: t in st.signals ==> t in st'.signals && st'.signals[t].events == st.signals[t].events)
  {
    hide FirstServing, Once, NoClash, Waiting, Reported, Single, Explained;
    var k := FirstServing(st.list, op.code, op.events);
    if k < |st.list| { assert st.list[k] in st.list; }
  }

  lemma WaitItems(st: State, op: Op)
    requires op.Wait? && Legal(st, op) && Inv(st) && Exact(st)
    ensures Items(Step(st, op))
  {
    var k, st' := FirstServing(st.list, op.code, op.events), Step(st, op);
    forall x | x in st.list && x.Waiter? ensures x.id != op.w && x.id in st'.waits && ItemExact(st', x) {
      FitsKnown(st, x);
      WaitOthers(st, op, x.id);
      ItemStays(st, st', x);
    }
    hide FirstServing, NoClash, Booked, Single, Explained, Once, Reported, Waiting, Reports, ItemExact;
    if k < |st.list| {
      RemovedItems(st.list, k);
    } else {
      NewItem(st, op);
    }
  }

  lemma NewItem(st: State, op: Op)
    requires op.Wait? && Legal(st, op) && Inv(st) && FirstServing(st.list, op.code, op.events) == |st.list|
    ensures op.w in Step(st, op).waits && ItemExact(Step(st, op), Waiter(op.w, op.code, op.events, false))
  {
    NobodyYet(st, op.w);
    hide FirstServing, Inv;
    assert forall t :: !AttachedTo(Step(st, op), t, op.w);
  }

  lemma WaitReports(st: State, op: Op)
    requires op.Wait? && Legal(st, op) && Inv(st) && Exact(st)
    ensures Reports(Step(st, op))
  {
    hide Items, ReportExact;
    forall w | w in Step(st, op).waits ensures ReportExact(Step(st, op), w) {
      if w == op.w {
        TakenReport(st, op);
      } else {
        WaitOthers(st, op, w);
        ReportStays(st, Step(st, op), w);
      }
    }
  }

  /** A signal taken off the list gives the common events. */
  lemma TakenReport(st: State, op: Op)
    requires op.Wait? && Legal(st, op) && Inv(st)
    ensures op.w in Step(st, op).waits && ReportExact(Step(st, op), op.w)
  {
    NobodyYet(st, op.w);
    hide FirstServing, Once, NoClash, Waiting, Reported, Single, Explained;
    var k, st' := FirstServing(st.list, op.code, op.events), Step(st, op);
    if k < |st.list| {
      var s := st.list[k];
      assert s in st.list;
      assert Reaches(st', s.id, op.w);
      assert forall t :: Narrows(st', t, op.w) <==> t == s.id;
      forall e ensures e in st'.waits[op.w].out <==> Shared(st', op.w, e) {
        assert Narrows(st', s.id, op.w);
      }
    }
  }

  // ---------------------------------------------------------------- CWait_signal

  /** What a signal means for the items and reports. */
  lemma SignalOthers(st: State, op: Op, w: nat)
    requires (op.Send? || op.Cross?) && Legal(st, op)
    requires var k := FirstWoken(st.list, op.code, op.events); k < |st.list| ==> w != st.list[k].id
    ensures var st' := Step(st, op);
            && (w in st'.waits <==> w in st.waits) && (w in st.waits ==> st'.waits[w] == st.waits[w])
            && (forall t :: Reaches(st', t, w) <==> Reaches(st, t, w))
            && (forall t :: AttachedTo(st', t, w) <==> AttachedTo(st, t, w))
            && (forall t :: Narrows(st', t, w) <==> Narrows(st, t, w))
            && (forall t :: t in st.signals ==> t in st'.signals && st'.signals[t] == st.signals[t])
  {
    hide FirstWoken;
  }

  /** The marked item keeps the events that the signal carries as well. */
  lemma MarkedItem(st: State, op: Op)
    requires (op.Send? || op.Cross?) && Legal(st, op) && Inv(st) && Exact(st)
    requires FirstWoken(st.list, op.code, op.events) < |st.list|
    ensures var it := st.list[FirstWoken(st.list, op.code, op.events)];
            it.id in Step(st, op).waits && ItemExact(Step(st, op), Woken(it, op.events))
  {
    hide FirstWoken, Once, NoClash, Booked, Reported, Single, Explained, Reports;
    var st' := Step(st, op);
    var it := st.list[FirstWoken(st.list, op.code, op.events)];
    assert it in st.list && ItemExact(st, it);
    assert AttachedTo(st', op.t, it.id) && st'.signals[op.t].events == op.events;
    assert forall t :: t != op.t ==> (AttachedTo(st', t, it.id) <==> AttachedTo(st, t, it.id));
    forall e ensures e in it.events * op.events <==>
                     e in st'.waits[it.id].events && forall t :: AttachedTo(st', t, it.id) ==> e in st'.signals[t].events {
    }
  }

  lemma SignalItems(st: State, op: Op)
    requires (op.Send? || op.Cross?) && Legal(st, op) && Inv(st) && Exact(st)
    ensures Items(Step(st, op))
  {
    hide FirstWoken, Once, NoClash, Booked, Reported, Single, Explained, Reports, ItemExact;
    var k, st' := FirstWoken(st.list, op.code, op.events), Step(st, op);
    if k < |st.list| {
      var it := Woken(st.list[k], op.events);
      MarkedItems(st.list, k, it);
      MarkedItem(st, op);
      assert st'.list == st.list[k := it];
      forall x | x in st'.list && x.Waiter? && x != it ensures x.id in st'.waits && ItemExact(st', x) {
        assert x in st.list && !SameItem(x, it);
        SignalOthers(st, op, x.id);
        ItemStays(st, st', x);
      }
    } else {
      forall x | x in st'.list && x.Waiter? ensures x.id in st'.waits && ItemExact(st', x) {
        assert x in st.list;
        SignalOthers(st, op, x.id);
        ItemStays(st, st', x);
      }
    }
  }

  /** A late signal changes no report. */
  lemma LateReport(st: State, op: Op, w: nat)
    requires op.Send? && Legal(st, op) && w in st.waits && st.waits[w].left && ReportExact(st, w)
    ensures w in Step(st, op).waits && ReportExact(Step(st, op), w)
  {
    hide FirstWoken, ReportExact;
    ReportStays(st, Step(st, op), w);
  }

  lemma SendReports(st: State, op: Op)
    requires op.Send? && Legal(st, op) && Inv(st) && Exact(st)
    ensures Reports(Step(st, op))
  {
    hide FirstWoken, Inv, Items, ReportExact;
    forall w | w in Step(st, op).waits ensures ReportExact(Step(st, op), w) {
      if st.waits[w].left {
        LateReport(st, op, w);
      } else {
        NoReport(Step(st, op), w);
      }
    }
  }

  /** A signal that crosses the return has marked an item nobody had marked, so all of it is reported. */
  lemma CrossedReport(st: State, op: Op)
    requires op.Cross? && Legal(st, op) && Inv(st)
    ensures var w := st.list[FirstWoken(st.list, op.code, op.events)].id;
            w in Step(st, op).waits && ReportExact(Step(st, op), w)
  {
    hide FirstWoken, Once, NoClash, Booked, Single, Explained;
    var st', it := Step(st, op), st.list[FirstWoken(st.list, op.code, op.events)];
    assert it in st.list && WaiterFits(st, it);
    forall t ensures !Narrows(st', t, it.id) {
      if t in st.signals { assert !AttachedTo(st, t, it.id); }
    }
    assert Reaches(st', op.t, it.id);
  }

  lemma CrossReports(st: State, op: Op)
    requires op.Cross? && Legal(st, op) && Inv(st) && Exact(st)
    ensures Reports(Step(st, op))
  {
    hide FirstWoken, Inv, Items, ReportExact;
    forall w | w in Step(st, op).waits ensures ReportExact(Step(st, op), w) {
      if w == st.list[FirstWoken(st.list, op.code, op.events)].id {
        CrossedReport(st, op);
      } else {
        SignalOthers(st, op, w);
        ReportStays(st, Step(st, op), w);
      }
    }
  }

  // ---------------------------------------------------------------- the end of CWait_wait

  lemma LeftReport(st: State, op: Op)
    requires op.Leave? && Legal(st, op) && Inv(st) && Exact(st)
    ensures op.w in Step(st, op).waits && ReportExact(Step(st, op), op.w)
  {
    hide Once, NoClash, Booked, Single, Explained, PlaceOf, Listed, Reports;
    var it, st' := ItemOf(st.list, op.w), Step(st, op);
    assert it in st.list && WaiterFits(st, it) && ItemExact(st, it);
    forall t
      ensures Narrows(st', t, op.w) <==> AttachedTo(st, t, op.w)
      ensures Reaches(st', t, op.w) <==> AttachedTo(st, t, op.w)
    {
      if t in st.signals { assert SignalFits(st, t); }
    }
  }

  lemma LeaveKeepsExact(st: State, op: Op)
    requires op.Leave? && Legal(st, op) && Inv(st) && Exact(st)
    ensures Exact(Step(st, op))
  {
    hide Inv, ItemExact, ReportExact, PlaceOf, Listed;
    var st' := Step(st, op);
    forall x | x in st'.list && x.Waiter? ensures ItemExact(st', x) {
      ItemStays(st, st', x);
    }
    forall w | w in st'.waits ensures ReportExact(st', w) {
      if w == op.w {
        LeftReport(st, op);
      } else {
        ReportStays(st, st', w);
      }
    }
  }

  lemma ClearKeepsExact(st: State, op: Op)
    requires op.Clear? && Legal(st, op) && Inv(st) && Exact(st)
    ensures Exact(Step(st, op))
  {
    RemovedItems(st.list, PlaceOf(st.list, op.w));
    hide Inv, ItemExact, ReportExact, PlaceOf, Listed, Once;
    var st' := Step(st, op);
    forall x | x in st'.list && x.Waiter? ensures x.id in st'.waits && ItemExact(st', x) {
      ItemStays(st, st', x);
    }
    forall w | w in st'.waits ensures ReportExact(st', w) {
      ReportStays(st, st', w);
    }
  }

  // ---------------------------------------------------------------- all runs

  lemma {:induction false} RunIsExact(ops: seq<Op>)
    ensures Exact(Run(ops))
  {
    if ops == [] { return; }
    hide Inv, Exact, Legal;
    var st, op := Run(ops[..|ops| - 1]), ops[|ops| - 1];
    RunIsExact(ops[..|ops| - 1]);
    RunKeepsInv(ops[..|ops| - 1]);
    StepIsExact(st, op);
  }

  lemma StepIsExact(st: State, op: Op)
    requires Inv(st) && Exact(st)
    ensures Exact(Step(st, op))
  {
    hide Inv, Items, Reports;
    if Legal(st, op) {
      match op
      case Wait(_, _, _) =>
        WaitItems(st, op);
        WaitReports(st, op);
      case Send(_, _, _, _) =>
        SignalItems(st, op);
        SendReports(st, op);
      case Cross(_, _, _) =>
        SignalItems(st, op);
        CrossReports(st, op);
      case Leave(_) => LeaveKeepsExact(st, op);
      case Clear(_) => ClearKeepsExact(st, op);
    }
  }

  /** After every run a returned wait has reported an event if and only if a signal reached it, it asked
      for the event, and every signal that reached it, other than one that crossed its return, carries
      the event. */
  lemma ReportIs(ops: seq<Op>, w: nat, e: nat)
    requires w in Run(ops).waits && Run(ops).waits[w].left
    ensures var st := Run(ops);
            e in st.waits[w].out <==>
            && (exists t :: Reaches(st, t, w)) && e in st.waits[w].events
            && forall t :: Narrows(st, t, w) ==> e in st.signals[t].events
  {
    RunIsExact(ops);
    hide Run;
    assert ReportExact(Run(ops), w);
  }
}
