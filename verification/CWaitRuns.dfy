// Every interleaving of waits, signals, timeouts and clears on one CWait object.
// States what libminkteec/src/CWait.c guarantees over whole runs.

module CWaitRuns {
  import opened CWaits

  /** How a signal found the waiter it marked: still looking at its item, just reading what to report
      from it, or already gone. */
  datatype Time = InTime | Crossing | Late

  /** What became of a signal. */
  datatype Fate = Queued | Ignored | Dropped | Attached(w: nat, time: Time) | Consumed(w: nat)

  datatype SignalRecord = Sent(code: Code, events: Events, fate: Fate)

  /** `left` once wait_for_signal has returned, with the events it reported: {} for a timeout. */
  datatype WaitRecord = Asked(events: Events, left: bool, out: Events)

  /** The list, and on the side a record of the run. */
  datatype State = State(list: seq<Item>, waits: map<nat, WaitRecord>, signals: map<nat, SignalRecord>)

  /** One atomic step: the first section of CWait_wait, CWait_signal, the return of wait_for_signal
      (signalled or timed out), the final section of CWait_wait. A waiter that has timed out reads its
      item under no lock. Cross is a signal it reads in the middle of: marked, but not yet narrowed. */
  datatype Op =
    | Wait(w: nat, code: Code, events: Events)
    | Send(t: nat, code: Code, events: Events, alloc: bool)
    | Cross(t: nat, code: Code, events: Events)
    | Leave(w: nat)
    | Clear(w: nat)

  function Init(): State { State([], map[], map[]) }

  function ItemOf(list: seq<Item>, w: nat): (it: Item)
    requires Listed(list, w)
    ensures it in list && IsWaiter(it, w)
  {
    list[PlaceOf(list, w)]
  }

  /** Items are new when they are made; a waiter leaves once, and is cleared after that. A wait for
      no event at all never reaches the list. */
  predicate Legal(st: State, op: Op) {
    match op
    case Wait(w, _, events) => w !in st.waits && events != {}
    case Send(t, _, _, _) => t !in st.signals
    case Cross(t, code, events) =>
      && t !in st.signals
      && var k := FirstWoken(st.list, code, events);
         k < |st.list| && !st.list[k].signaled && st.list[k].id in st.waits && !st.waits[st.list[k].id].left
    case Leave(w) => w in st.waits && !st.waits[w].left && Listed(st.list, w)
    case Clear(w) => w in st.waits && st.waits[w].left && Listed(st.list, w)
  }

  function AfterWait(st: State, w: nat, code: Code, events: Events): State {
    var k, list' := FirstServing(st.list, code, events), WaitList(st.list, w, code, events);
    if k == |st.list| then
      State(list', st.waits[w := Asked(events, false, {})], st.signals)
    else
      var s := st.list[k];
      State(list', st.waits[w := Asked(events, true, s.events * events)],
            st.signals[s.id := Sent(s.code, s.events, Consumed(w))])
  }

  function AfterSend(st: State, t: nat, code: Code, events: Events, alloc: bool): State {
    var k, list' := FirstWoken(st.list, code, events), SignalList(st.list, t, code, events, alloc);
    var fate := if k < |st.list| then
                  var w := st.list[k].id; Attached(w, if w in st.waits && !st.waits[w].left then InTime else Late)
                else if code == 0 then Ignored
                else if alloc then Queued else Dropped;
    State(list', st.waits, st.signals[t := Sent(code, events, fate)])
  }

  /** The waiter is marked and narrowed, and has reported what the item held before. */
  function AfterCross(st: State, t: nat, code: Code, events: Events): State
    requires Legal(st, Cross(t, code, events))
  {
    var it := st.list[FirstWoken(st.list, code, events)];
    State(SignalList(st.list, t, code, events, true),
          st.waits[it.id := Asked(st.waits[it.id].events, true, it.events)],
          st.signals[t := Sent(code, events, Attached(it.id, Crossing))])
  }

  /** A step that cannot happen in a state leaves it as it is. */
  function Step(st: State, op: Op): State {
    if !Legal(st, op) then st
    else match op
    case Wait(w, code, events) => AfterWait(st, w, code, events)
    case Send(t, code, events, alloc) => AfterSend(st, t, code, events, alloc)
    case Cross(t, code, events) => AfterCross(st, t, code, events)
    case Leave(w) =>
      var it := ItemOf(st.list, w);
      st.(waits := st.waits[w := Asked(st.waits[w].events, true, if it.signaled then it.events else {})])
    case Clear(w) =>
      var k := PlaceOf(st.list, w);
      st.(list := st.list[..k] + st.list[k + 1..])
  }

  function Run(ops: seq<Op>): State {
    if ops == [] then Init() else Step(Run(ops[..|ops| - 1]), ops[|ops| - 1])
  }

  lemma RunOne(ops: seq<Op>, op: Op)
    ensures Run(ops + [op]) == Step(Run(ops), op)
  {
    assert (ops + [op])[..|ops|] == ops;
  }

  // ---------------------------------------------------------------- what every step keeps

  /** No queued signal and listed waiter share both a code and an event. */
  ghost predicate NoClash(list: seq<Item>) {
    forall s, w :: s in list && w in list && s.Signal? && w.Waiter? && s.code == w.code ==> s.events * w.events == {}
  }

  /** The queued signals are those whose fate says so, and carry a code other than zero. */
  ghost predicate Booked(st: State) {
    && (forall s :: s in st.list && s.Signal? ==>
          s.code != 0 && s.id in st.signals && st.signals[s.id] == Sent(s.code, s.events, Queued))
    && (forall t :: t in st.signals && st.signals[t].fate == Queued ==>
          Signal(t, st.signals[t].code, st.signals[t].events) in st.list)
    && (forall t :: t in st.signals && st.signals[t].fate == Ignored ==> st.signals[t].code == 0)
  }

  ghost predicate AttachedTo(st: State, t: nat, w: nat) {
    t in st.signals && st.signals[t].fate.Attached? && st.signals[t].fate.w == w
  }

  /** A listed waiter's events are never empty, among those it asked for, and among those of every
      signal attached to it; it is marked exactly when there is such a signal. They stay among those
      it reported, if it reported any. */
  ghost predicate WaiterFits(st: State, it: Item)
    requires it.Waiter?
  {
    && it.id in st.waits && it.events != {} && it.events <= st.waits[it.id].events
    && (it.signaled <==> exists t :: AttachedTo(st, t, it.id))
    && (forall t :: AttachedTo(st, t, it.id) ==> it.events <= st.signals[t].events)
    && (!it.signaled ==> it.events == st.waits[it.id].events)
    && (st.waits[it.id].left && st.waits[it.id].out != {} ==> it.events <= st.waits[it.id].out)
    && (forall t :: t in st.signals && st.signals[t].fate.Consumed? ==> st.signals[t].fate.w != it.id)
  }

  ghost predicate Waiting(st: State) {
    forall it :: it in st.list && it.Waiter? ==> WaiterFits(st, it)
  }

  lemma FitsKnown(st: State, it: Item)
    requires Waiting(st) && it in st.list && it.Waiter?
    ensures WaiterFits(st, it) && it.id in st.waits
  {
  }

  /** A waiter that stopped looking has reported some of the events of every signal attached to it, and
      only events of those attached in time; or all it asked for, if the signal crossed its return; or
      nothing, and then every signal came too late. */
  ghost predicate SignalFits(st: State, t: nat)
    requires t in st.signals
  {
    match st.signals[t].fate
    case Attached(w, time) =>
      && w in st.waits && (time == InTime || st.waits[w].left)
      && (time == InTime && st.waits[w].left ==> st.waits[w].out != {} && st.waits[w].out <= st.signals[t].events)
      && (time == Crossing ==> st.waits[w].out == st.waits[w].events != {})
      && (st.waits[w].left && st.waits[w].out != {} ==> st.waits[w].out * st.signals[t].events != {})
    case Consumed(w) =>
      && w in st.waits && st.waits[w].left && st.signals[t].code != 0
      && st.waits[w].out != {} && st.waits[w].out <= st.signals[t].events
    case _ => true
  }

  ghost predicate Reported(st: State) {
    && (forall t :: t in st.signals ==> SignalFits(st, t))
    && (forall w :: w in st.waits ==> st.waits[w].out <= st.waits[w].events)
  }

  /** A wait takes at most one queued signal, and then no signal is attached to it. */
  ghost predicate Single(st: State) {
    forall t, u :: t in st.signals && u in st.signals && t != u && st.signals[t].fate.Consumed?
      && (st.signals[u].fate.Consumed? || st.signals[u].fate.Attached?)
      ==> st.signals[t].fate.w != st.signals[u].fate.w
  }

  /** The wait took the signal off the list, or was marked by it while it still looked. */
  predicate Reaches(st: State, t: nat, w: nat) {
    && t in st.signals && var fate := st.signals[t].fate;
       (fate.Consumed? || (fate.Attached? && fate.time != Late)) && fate.w == w
  }

  /** Whatever a wait reported came from a signal. */
  ghost predicate Explained(st: State) {
    forall w :: w in st.waits && st.waits[w].left && st.waits[w].out != {} ==> exists t :: Reaches(st, t, w)
  }

  ghost predicate Inv(st: State) {
    && Once(st.list) && NoClash(st.list) && Booked(st) && Waiting(st)
    && Reported(st) && Single(st) && Explained(st)
  }

  // A signal either marks one item, or ends up behind the list, or vanishes.

  lemma MarkedItems(list: seq<Item>, k: nat, it: Item)
    requires k < |list| && Once(list) && SameItem(list[k], it)
    ensures Once(list[k := it])
    ensures forall x :: x in list[k := it] ==> x == it || (x in list && !SameItem(x, it))
    ensures forall x :: x in list && x != list[k] ==> x in list[k := it]
    ensures it in list[k := it]
  {
    var list' := list[k := it];
    assert list'[k] == it;
    forall x | x in list' && x != it ensures x in list && !SameItem(x, it) {
      var j :| 0 <= j < |list| && list'[j] == x;
    }
    forall x | x in list && x != list[k] ensures x in list' {
      var j :| 0 <= j < |list| && list[j] == x;
      assert list'[j] == x;
    }
  }

  lemma AppendedItems(list: seq<Item>, it: Item)
    requires Once(list) && forall x :: x in list ==> !SameItem(x, it)
    ensures Once(list + [it])
    ensures forall x :: x in list + [it] <==> x in list || x == it
  {
  }

  lemma RemovedItems(list: seq<Item>, k: nat)
    requires k < |list| && Once(list)
    ensures Once(list[..k] + list[k + 1..])
    ensures forall x :: x in list[..k] + list[k + 1..] ==> x in list && !SameItem(x, list[k])
    ensures forall x :: x in list && x != list[k] ==> x in list[..k] + list[k + 1..]
  {
    var list' := list[..k] + list[k + 1..];
    forall x | x in list' ensures x in list && !SameItem(x, list[k]) {
      var j :| 0 <= j < |list'| && list'[j] == x;
      assert x == list[if j < k then j else j + 1];
    }
    forall x | x in list && x != list[k] ensures x in list' {
      var j :| 0 <= j < |list| && list[j] == x;
      assert list'[if j < k then j else j - 1] == x;
    }
  }

  // ---------------------------------------------------------------- what no step takes back

  /** A settled signal keeps its fate, a queued one is only ever taken by a wait, and nothing a
      returned wait reported is taken back. */
  ghost predicate Grows(st: State, st': State) {
    && (forall t :: t in st.signals ==> t in st'.signals && Follows(st.signals[t], st'.signals[t]))
    && (forall w :: w in st.waits ==> w in st'.waits && Keeps(st.waits[w], st'.waits[w]))
  }

  predicate Follows(s: SignalRecord, s': SignalRecord) {
    && s'.code == s.code && s'.events == s.events
    && (s'.fate == s.fate || (s.fate.Queued? && s'.fate.Consumed?))
  }

  predicate Keeps(r: WaitRecord, r': WaitRecord) {
    r'.events == r.events && (r.left ==> r' == r)
  }

  lemma WaitIsMonotone(st: State, op: Op)
    requires Inv(st) && op.Wait?
    ensures Grows(st, Step(st, op))
  {
    hide FirstServing, Once, NoClash, Waiting, Reported, Single, Explained;
    if Legal(st, op) {
      var k := FirstServing(st.list, op.code, op.events);
      if k < |st.list| { assert st.list[k] in st.list; }
    }
  }

  lemma StepIsMonotone(st: State, op: Op)
    requires Inv(st)
    ensures Grows(st, Step(st, op))
  {
    hide FirstWoken, PlaceOf, Inv, AfterWait;
    if op.Wait? { WaitIsMonotone(st, op); }
  }

  // ---------------------------------------------------------------- CWait_signal

  lemma SendKeepsList(st: State, op: Op)
    requires op.Send? && Legal(st, op) && Inv(st)
    ensures Once(Step(st, op).list) && NoClash(Step(st, op).list)
  {
    hide FirstWoken, Waiting, Reported, Single, Explained;
    var k := FirstWoken(st.list, op.code, op.events);
    if k < |st.list| {
      MarkedItems(st.list, k, Woken(st.list[k], op.events));
    } else if op.code != 0 && op.alloc {
      AppendedItems(st.list, Signal(op.t, op.code, op.events));
    }
  }

  lemma MarkKeepsBooked(st: State, op: Op)
    requires op.Send? && Legal(st, op) && Inv(st) && FirstWoken(st.list, op.code, op.events) < |st.list|
    ensures Booked(Step(st, op))
  {
    hide FirstWoken, Waiting, Reported, Single, Explained, NoClash, Once;
    var k := FirstWoken(st.list, op.code, op.events);
    MarkedItems(st.list, k, Woken(st.list[k], op.events));
  }

  lemma SendKeepsBooked(st: State, op: Op)
    requires op.Send? && Legal(st, op) && Inv(st)
    ensures Booked(Step(st, op))
  {
    hide FirstWoken, Waiting, Reported, Single, Explained, NoClash, Once;
    if FirstWoken(st.list, op.code, op.events) < |st.list| {
      MarkKeepsBooked(st, op);
    }
  }

  lemma MarkKeepsWaiting(st: State, op: Op)
    requires op.Send? && Legal(st, op) && Inv(st) && FirstWoken(st.list, op.code, op.events) < |st.list|
    ensures Waiting(Step(st, op))
  {
    hide FirstWoken, NoClash, Booked, Reported, Single, Explained, Once;
    var k, st' := FirstWoken(st.list, op.code, op.events), Step(st, op);
    var it := Woken(st.list[k], op.events);
    MarkedItems(st.list, k, it);
    assert st'.list == st.list[k := it];
    assert st.list[k] in st.list && WaiterFits(st, st.list[k]);
    assert AttachedTo(st', op.t, it.id);
    assert forall u :: u != op.t ==> (AttachedTo(st', u, it.id) <==> AttachedTo(st, u, it.id));
    assert WaiterFits(st', it);
    forall x | x in st'.list && x.Waiter? && x != it ensures WaiterFits(st', x) {
      assert x in st.list && !SameItem(x, it);
      assert WaiterFits(st, x);
      assert forall u :: AttachedTo(st', u, x.id) <==> AttachedTo(st, u, x.id);
    }
  }

  lemma SendKeepsWaiting(st: State, op: Op)
    requires op.Send? && Legal(st, op) && Inv(st)
    ensures Waiting(Step(st, op))
  {
    hide FirstWoken, NoClash, Booked, Reported, Single, Explained, Once;
    if FirstWoken(st.list, op.code, op.events) < |st.list| {
      MarkKeepsWaiting(st, op);
    } else {
      var st' := Step(st, op);
      forall x | x in st'.list && x.Waiter? ensures WaiterFits(st', x) {
        assert x in st.list && WaiterFits(st, x);
        assert forall u :: AttachedTo(st', u, x.id) <==> AttachedTo(st, u, x.id);
      }
    }
  }

  lemma SendKeepsReported(st: State, op: Op)
    requires op.Send? && Legal(st, op) && Inv(st)
    ensures Reported(Step(st, op)) && Single(Step(st, op))
  {
    hide FirstWoken, Once, NoClash, Explained;
    var k := FirstWoken(st.list, op.code, op.events);
    if k < |st.list| {
      assert st.list[k] in st.list && WaiterFits(st, st.list[k]);
    }
    assert Step(st, op).waits == st.waits;
    forall t | t in st.signals ensures SignalFits(Step(st, op), t) {
      assert SignalFits(st, t);
    }
  }

  // ---------------------------------------------------------------- a signal that crosses a return

  /** The list changes as by the whole signal. */
  lemma CrossKeepsList(st: State, op: Op)
    requires op.Cross? && Legal(st, op) && Inv(st)
    ensures Once(Step(st, op).list) && NoClash(Step(st, op).list)
  {
    hide FirstWoken, Waiting, Booked, Reported, Single, Explained, Once, NoClash;
    SendKeepsList(st, Send(op.t, op.code, op.events, true));
  }

  lemma CrossKeepsBooked(st: State, op: Op)
    requires op.Cross? && Legal(st, op) && Inv(st)
    ensures Booked(Step(st, op))
  {
    hide FirstWoken, Waiting, Reported, Single, Explained, Once, NoClash;
    var k := FirstWoken(st.list, op.code, op.events);
    MarkedItems(st.list, k, Woken(st.list[k], op.events));
  }

  lemma CrossKeepsWaiting(st: State, op: Op)
    requires op.Cross? && Legal(st, op) && Inv(st)
    ensures Waiting(Step(st, op))
  {
    hide FirstWoken, NoClash, Booked, Reported, Single, Explained, Once;
    var k, st' := FirstWoken(st.list, op.code, op.events), Step(st, op);
    var it := Woken(st.list[k], op.events);
    MarkedItems(st.list, k, it);
    assert st'.list == st.list[k := it];
    assert st.list[k] in st.list && WaiterFits(st, st.list[k]);
    assert AttachedTo(st', op.t, it.id);
    assert forall u :: u != op.t ==> (AttachedTo(st', u, it.id) <==> AttachedTo(st, u, it.id));
    assert WaiterFits(st', it);
    forall x | x in st'.list && x.Waiter? && x != it ensures WaiterFits(st', x) {
      assert x in st.list && !SameItem(x, it);
      assert WaiterFits(st, x);
      assert forall u :: AttachedTo(st', u, x.id) <==> AttachedTo(st, u, x.id);
    }
  }

  lemma CrossKeepsReported(st: State, op: Op)
    requires op.Cross? && Legal(st, op) && Inv(st)
    ensures Reported(Step(st, op)) && Single(Step(st, op))
  {
    hide FirstWoken, Once, NoClash, Booked, Explained;
    var k, st' := FirstWoken(st.list, op.code, op.events), Step(st, op);
    var it := st.list[k];
    assert it in st.list && WaiterFits(st, it);
    assert it.events * op.events != {};
    forall t | t in st.signals ensures SignalFits(st', t) {
      assert SignalFits(st, t) && !AttachedTo(st, t, it.id);
    }
  }

  // ---------------------------------------------------------------- CWait_wait, first section

  lemma WaitKeepsList(st: State, op: Op)
    requires op.Wait? && Legal(st, op) && Inv(st)
    ensures Once(Step(st, op).list) && NoClash(Step(st, op).list)
  {
    hide FirstServing, Reported, Single, Explained;
    var k := FirstServing(st.list, op.code, op.events);
    if k < |st.list| {
      RemovedItems(st.list, k);
    } else {
      var it := Waiter(op.w, op.code, op.events, false);
      forall x | x in st.list && x.Waiter? ensures x.id != op.w {
        assert WaiterFits(st, x);
      }
      AppendedItems(st.list, it);
      forall s | s in st.list && s.Signal? && s.code == it.code ensures s.events * it.events == {} {
        var i :| 0 <= i < |st.list| && st.list[i] == s;
        assert !Serves(st.list[i], op.code, op.events);
      }
    }
  }

  lemma WaitKeepsBooked(st: State, op: Op)
    requires op.Wait? && Legal(st, op) && Inv(st)
    ensures Booked(Step(st, op))
  {
    hide FirstServing, NoClash, Reported, Single, Explained;
    var k := FirstServing(st.list, op.code, op.events);
    if k < |st.list| {
      RemovedItems(st.list, k);
      assert st.list[k] in st.list;
    }
  }

  /** A listed waiter is none the worse for what happens to others. */
  lemma FitsStill(st: State, st': State, x: Item)
    requires x.Waiter? && WaiterFits(st, x) && x.id in st'.waits && st'.waits[x.id] == st.waits[x.id]
    requires forall t :: t in st.signals ==> t in st'.signals && Follows(st.signals[t], st'.signals[t])
    requires forall t :: t in st'.signals && st'.signals[t].fate.Consumed? ==>
               st'.signals[t].fate.w != x.id || (t in st.signals && st'.signals[t] == st.signals[t])
    requires forall t :: AttachedTo(st', t, x.id) ==> AttachedTo(st, t, x.id)
    ensures WaiterFits(st', x)
  {
    assert forall t :: AttachedTo(st, t, x.id) ==> AttachedTo(st', t, x.id);
  }

  /** A new waiter has no signal yet. */
  lemma NewFits(st: State, op: Op)
    requires op.Wait? && Legal(st, op) && Inv(st)
    requires FirstServing(st.list, op.code, op.events) == |st.list|
    ensures WaiterFits(Step(st, op), Waiter(op.w, op.code, op.events, false))
  {
    hide FirstServing, NoClash, Single, Explained, Once, Booked, Waiting;
    var st' := Step(st, op);
    forall u ensures !AttachedTo(st', u, op.w) {
      if u in st.signals { assert SignalFits(st, u); }
    }
    assert forall t :: t in st.signals && st.signals[t].fate.Consumed? ==> SignalFits(st, t);
  }

  lemma WaitKeepsFits(st: State, op: Op, x: Item)
    requires op.Wait? && Legal(st, op) && Inv(st) && x in st.list && x.Waiter?
    ensures x.id != op.w && WaiterFits(Step(st, op), x)
  {
    StepIsMonotone(st, op);
    hide FirstServing, NoClash, Single, Explained, Once, Reported, WaiterFits, Follows;
    FitsKnown(st, x);
    FitsStill(st, Step(st, op), x);
  }

  lemma WaitKeepsWaiting(st: State, op: Op)
    requires op.Wait? && Legal(st, op) && Inv(st)
    ensures Waiting(Step(st, op))
  {
    hide FirstServing, NoClash, Booked, Single, Explained, Once, Reported, WaiterFits;
    var k, st' := FirstServing(st.list, op.code, op.events), Step(st, op);
    forall x | x in st.list && x.Waiter? ensures WaiterFits(st', x) {
      WaitKeepsFits(st, op, x);
    }
    if k < |st.list| {
      RemovedItems(st.list, k);
    } else {
      NewFits(st, op);
    }
  }

  lemma WaitKeepsSingle(st: State, op: Op)
    requires op.Wait? && Legal(st, op) && Inv(st)
    ensures Single(Step(st, op))
  {
    hide FirstServing, Once, NoClash, Waiting, Explained;
    var k := FirstServing(st.list, op.code, op.events);
    if k < |st.list| { assert st.list[k] in st.list; }
    assert forall t :: t in st.signals ==> SignalFits(st, t);
  }

  lemma WaitKeepsReported(st: State, op: Op)
    requires op.Wait? && Legal(st, op) && Inv(st)
    ensures Reported(Step(st, op))
  {
    hide FirstServing, Once, NoClash, Waiting, Single, Explained;
    var k, st' := FirstServing(st.list, op.code, op.events), Step(st, op);
    if k < |st.list| { assert st.list[k] in st.list; }
    forall t | t in st.signals ensures SignalFits(st', t) {
      assert SignalFits(st, t);
    }
  }

  // ---------------------------------------------------------------- the end of CWait_wait

  lemma LeaveKeepsReported(st: State, op: Op)
    requires op.Leave? && Legal(st, op) && Inv(st)
    ensures Reported(Step(st, op)) && Single(Step(st, op))
  {
    hide Once, NoClash, Booked, Explained, PlaceOf, Listed;
    var it, st' := ItemOf(st.list, op.w), Step(st, op);
    assert WaiterFits(st, it);
    forall t | t in st.signals ensures SignalFits(st', t) {
      assert SignalFits(st, t);
      assert AttachedTo(st, t, it.id) ==> it.signaled;
    }
  }

  lemma LeaveKeepsWaiting(st: State, op: Op)
    requires op.Leave? && Legal(st, op) && Inv(st)
    ensures Waiting(Step(st, op))
  {
    hide NoClash, Booked, Explained, PlaceOf, Listed, Reported, Single;
    var it, st' := ItemOf(st.list, op.w), Step(st, op);
    assert WaiterFits(st, it);
    forall x | x in st'.list && x.Waiter? ensures WaiterFits(st', x) {
      assert WaiterFits(st, x);
      assert forall u :: AttachedTo(st', u, x.id) <==> AttachedTo(st, u, x.id);
    }
  }

  lemma LeaveKeepsInv(st: State, op: Op)
    requires op.Leave? && Legal(st, op) && Inv(st)
    ensures Inv(Step(st, op))
  {
    hide Once, NoClash, Explained, PlaceOf, Listed, Waiting, Reported, Single;
    StepIsExplained(st, op);
    LeaveKeepsReported(st, op);
    LeaveKeepsWaiting(st, op);
  }

  lemma ClearKeepsInv(st: State, op: Op)
    requires op.Clear? && Legal(st, op) && Inv(st)
    ensures Inv(Step(st, op))
  {
    StepIsExplained(st, op);
    var st' := Step(st, op);
    RemovedItems(st.list, PlaceOf(st.list, op.w));
    forall x | x in st'.list && x.Waiter? ensures WaiterFits(st', x) {
      assert WaiterFits(st, x);
      assert forall u :: AttachedTo(st', u, x.id) <==> AttachedTo(st, u, x.id);
    }
    forall t | t in st.signals ensures SignalFits(st', t) {
      assert SignalFits(st, t);
    }
  }

  // ---------------------------------------------------------------- all runs

  lemma ReturnIsExplained(st: State, op: Op, w: nat)
    requires Inv(st) && w in Step(st, op).waits && Step(st, op).waits[w].left && Step(st, op).waits[w].out != {}
    requires w in st.waits ==> !st.waits[w].left
    ensures exists t :: Reaches(Step(st, op), t, w)
  {
    hide FirstWoken, FirstServing, Once, NoClash, Single, Booked, Explained;
    var st' := Step(st, op);
    if op.Leave? {
      assert ItemOf(st.list, w) in st.list && WaiterFits(st, ItemOf(st.list, w));
      var t :| AttachedTo(st, t, w);
      assert SignalFits(st, t);
      assert Reaches(st', t, w);
    } else if op.Cross? {
      assert Reaches(st', op.t, w);
    } else {
      var k := FirstServing(st.list, op.code, op.events);
      assert Reaches(st', st.list[k].id, w);
    }
  }

  lemma StepIsExplained(st: State, op: Op)
    requires Inv(st)
    ensures Explained(Step(st, op))
  {
    hide Step, Once, NoClash, Single, Booked, Reported, Waiting;
    var st' := Step(st, op);
    StepIsMonotone(st, op);
    forall w | w in st'.waits && st'.waits[w].left && st'.waits[w].out != {} ensures exists t :: Reaches(st', t, w) {
      if w in st.waits && st.waits[w].left {
        var t :| Reaches(st, t, w);
        assert Reaches(st', t, w);
      } else {
        ReturnIsExplained(st, op, w);
      }
    }
  }

  /** What holds after any sequence of steps, in any interleaving. */
  lemma {:induction false} RunKeepsInv(ops: seq<Op>)
    ensures Inv(Run(ops))
  {
    if ops == [] { return; }
    var st, op := Run(ops[..|ops| - 1]), ops[|ops| - 1];
    RunKeepsInv(ops[..|ops| - 1]);
    if Legal(st, op) {
      StepIsExplained(st, op);
      match op
      case Wait(_, _, _) =>
        WaitKeepsList(st, op);
        WaitKeepsBooked(st, op);
        WaitKeepsWaiting(st, op);
        WaitKeepsReported(st, op);
        WaitKeepsSingle(st, op);
      case Send(_, _, _, _) =>
        SendKeepsList(st, op);
        SendKeepsBooked(st, op);
        SendKeepsWaiting(st, op);
        SendKeepsReported(st, op);
      case Cross(_, _, _) =>
        CrossKeepsList(st, op);
        CrossKeepsBooked(st, op);
        CrossKeepsWaiting(st, op);
        CrossKeepsReported(st, op);
      case Leave(_) => LeaveKeepsInv(st, op);
      case Clear(_) => ClearKeepsInv(st, op);
    }
  }

  lemma GrowsTransitive(a: State, b: State, c: State)
    requires Grows(a, b) && Grows(b, c)
    ensures Grows(a, c)
  {
  }

  lemma RunGrows(ops: seq<Op>, op: Op)
    ensures Grows(Run(ops), Step(Run(ops), op))
  {
    RunKeepsInv(ops);
    StepIsMonotone(Run(ops), op);
  }

  lemma {:induction false} FateIsFinal(ops: seq<Op>, more: seq<Op>)
    ensures Grows(Run(ops), Run(ops + more))
  {
    hide Step;
    if more == [] {
      assert ops + more == ops;
    } else {
      var most := more[..|more| - 1];
      FateIsFinal(ops, most);
      assert (ops + more)[..|ops + more| - 1] == ops + most;
      RunGrows(ops + most, more[|more| - 1]);
      GrowsTransitive(Run(ops), Run(ops + most), Run(ops + more));
    }
  }

  /** Nobody hears of the signal: the waiter that took it has returned without any of its events, or
      it was not even queued. */
  predicate Lost(st: State, t: nat) {
    && t in st.signals
    && match st.signals[t].fate
       case Attached(w, _) => w in st.waits && st.waits[w].left && st.waits[w].out * st.signals[t].events == {}
       case Dropped => true
       case _ => false
  }

  /** What can be told before the call: the first matching waiter has timed out and is not off the list
      yet; or nobody matches, the signal has a code, and there is no memory to queue it. */
  predicate Strays(st: State, op: Op) {
    && op.Send? && Legal(st, op)
    && var k := FirstWoken(st.list, op.code, op.events);
       if k < |st.list| then
         var w := st.list[k].id; w in st.waits && st.waits[w].left && st.waits[w].out == {}
       else op.code != 0 && !op.alloc
  }

  /** A signal in time is never lost, a late one only to a waiter that reported nothing. */
  lemma LostToTimeout(st: State, t: nat)
    requires Inv(st) && t in st.signals && st.signals[t].fate.Attached?
    ensures Lost(st, t) <==> var w := st.signals[t].fate.w; st.waits[w].left && st.waits[w].out == {}
  {
    assert SignalFits(st, t);
  }

  lemma SendLoses(st: State, op: Op)
    requires Inv(st) && op.Send? && Legal(st, op)
    ensures Lost(Step(st, op), op.t) <==> Strays(st, op)
  {
    var k := FirstWoken(st.list, op.code, op.events);
    if k < |st.list| {
      assert st.list[k] in st.list && WaiterFits(st, st.list[k]);
      assert st.list[k].events * op.events != {};
    }
  }

  lemma OthersKept(st: State, op: Op, t: nat)
    requires Inv(st) && Inv(Step(st, op)) && t in st.signals
    ensures Lost(Step(st, op), t) <==> Lost(st, t)
  {
    StepIsMonotone(st, op);
    assert SignalFits(st, t) && SignalFits(Step(st, op), t);
    if st.signals[t].fate.Attached? {
      LostToTimeout(st, t);
      LostToTimeout(Step(st, op), t);
      if Legal(st, op) && op.Cross? {
        assert WaiterFits(st, st.list[FirstWoken(st.list, op.code, op.events)]);
        assert !AttachedTo(st, t, st.list[FirstWoken(st.list, op.code, op.events)].id);
      } else if Legal(st, op) && op.Leave? {
        assert WaiterFits(st, ItemOf(st.list, op.w));
        assert op.w == st.signals[t].fate.w ==> AttachedTo(st, t, op.w);
      }
    }
  }

  lemma StepLoses(st: State, op: Op, t: nat)
    requires Inv(st) && Inv(Step(st, op))
    ensures Lost(Step(st, op), t) <==> Lost(st, t) || (Strays(st, op) && op.t == t)
  {
    if t in st.signals {
      OthersKept(st, op, t);
    } else if op.Send? && Legal(st, op) {
      SendLoses(st, op);
    } else if op.Cross? && Legal(st, op) {
      assert st.list[FirstWoken(st.list, op.code, op.events)].events * op.events != {};
    }
  }

  lemma RunLoses(ops: seq<Op>, op: Op, t: nat)
    ensures Lost(Step(Run(ops), op), t) <==> Lost(Run(ops), t) || (Strays(Run(ops), op) && op.t == t)
  {
    RunKeepsInv(ops);
    RunKeepsInv(ops + [op]);
    RunOne(ops, op);
    StepLoses(Run(ops), op, t);
  }

  predicate StraysAt(ops: seq<Op>, i: nat, t: nat) {
    i < |ops| && Strays(Run(ops[..i]), ops[i]) && ops[i].t == t
  }

  lemma StraysEarlier(ops: seq<Op>, n: nat, i: nat, t: nat)
    requires i < n <= |ops|
    ensures StraysAt(ops[..n], i, t) <==> StraysAt(ops, i, t)
  {
    assert ops[..n][..i] == ops[..i];
  }

  /** A signal of a run goes unreported for good exactly when it was sent in that window. */
  lemma {:induction false} LostExactly(ops: seq<Op>, t: nat)
    ensures Lost(Run(ops), t) <==> exists i :: StraysAt(ops, i, t)
  {
    if ops == [] { return; }
    var n := |ops| - 1;
    LostExactly(ops[..n], t);
    RunLoses(ops[..n], ops[n], t);
    assert StraysAt(ops, n, t) <==> Strays(Run(ops[..n]), ops[n]) && ops[n].t == t;
    forall i: nat | i < n ensures StraysAt(ops[..n], i, t) <==> StraysAt(ops, i, t) {
      StraysEarlier(ops, n, i, t);
    }
  }

  /** Every signal that was not lost and not ignored is either still queued or reported: its waiter,
      once it returned, reported a nonempty part of the events asked for and sent. */
  lemma Delivered(ops: seq<Op>, t: nat)
    requires var st := Run(ops); t in st.signals && !Lost(st, t)
    ensures var st := Run(ops); var s := st.signals[t];
            match s.fate
            case Queued => s.code != 0 && Signal(t, s.code, s.events) in st.list
            case Ignored => s.code == 0
            case Dropped => false
            case Attached(w, time) =>
              && w in st.waits && st.waits[w].out <= st.waits[w].events
              && (st.waits[w].left ==> st.waits[w].out * s.events != {} && (time == InTime ==> st.waits[w].out <= s.events))
            case Consumed(w) =>
              s.code != 0 && w in st.waits && {} != st.waits[w].out <= st.waits[w].events * s.events
  {
    RunKeepsInv(ops);
    assert SignalFits(Run(ops), t);
  }

  /** The wait that the signal reached reports an event the signal does not carry. */
  predicate Overstated(st: State, t: nat) {
    && t in st.signals && var s := st.signals[t];
       && (s.fate.Consumed? || (s.fate.Attached? && s.fate.time != Late))
       && s.fate.w in st.waits && st.waits[s.fate.w].left && !(st.waits[s.fate.w].out <= s.events)
  }

  /** The signal crosses the return of a wait that asked for more than it carries. */
  predicate Oversteps(st: State, op: Op) {
    && op.Cross? && Legal(st, op)
    && !(st.waits[st.list[FirstWoken(st.list, op.code, op.events)].id].events <= op.events)
  }

  lemma StepOverstates(st: State, op: Op, t: nat)
    requires Inv(st) && Inv(Step(st, op))
    ensures Overstated(Step(st, op), t) <==> Overstated(st, t) || (Oversteps(st, op) && op.t == t)
  {
    hide FirstWoken, FirstServing, Once, NoClash, Booked, Single, Explained;
    StepIsMonotone(st, op);
    if t in Step(st, op).signals { assert SignalFits(Step(st, op), t); }
    if t in st.signals { assert SignalFits(st, t); }
  }

  lemma RunOverstates(ops: seq<Op>, op: Op, t: nat)
    ensures Overstated(Step(Run(ops), op), t) <==> Overstated(Run(ops), t) || (Oversteps(Run(ops), op) && op.t == t)
  {
    RunKeepsInv(ops);
    RunKeepsInv(ops + [op]);
    RunOne(ops, op);
    StepOverstates(Run(ops), op, t);
  }

  predicate OverstepsAt(ops: seq<Op>, i: nat, t: nat) {
    i < |ops| && Oversteps(Run(ops[..i]), ops[i]) && ops[i].t == t
  }

  /** A report leaves the events of the signal it is for exactly when that signal crossed the return of
      a wait that had asked for more. */
  lemma {:induction false} OverstatedExactly(ops: seq<Op>, t: nat)
    ensures Overstated(Run(ops), t) <==> exists i :: OverstepsAt(ops, i, t)
  {
    if ops == [] { return; }
    var n := |ops| - 1;
    OverstatedExactly(ops[..n], t);
    RunOverstates(ops[..n], ops[n], t);
    assert OverstepsAt(ops, n, t) <==> Oversteps(Run(ops[..n]), ops[n]) && ops[n].t == t;
    forall i: nat | i < n ensures OverstepsAt(ops[..n], i, t) <==> OverstepsAt(ops, i, t) {
      assert ops[..n][..i] == ops[..i];
    }
  }

  /** A returned wait reports events exactly when a signal reached it, else a timeout. */
  lemma ReportsExactly(ops: seq<Op>, w: nat)
    requires var st := Run(ops); w in st.waits && st.waits[w].left
    ensures var st := Run(ops); st.waits[w].out != {} <==> exists t :: Reaches(st, t, w)
  {
    var st := Run(ops);
    RunKeepsInv(ops);
    forall t | Reaches(st, t, w) ensures st.waits[w].out != {} {
      assert SignalFits(st, t);
    }
  }

  lemma TwoSteps(p: Op, q: Op)
    ensures Run([p, q]) == Step(Step(Init(), p), q)
  {
    assert Run([]) == Init();
    hide Step, Run;
    RunOne([], p);
    assert [] + [p] == [p];
    RunOne([p], q);
    assert [p] + [q] == [p, q];
  }

  lemma FiveSteps(p: Op, q: Op, r: Op, s: Op, t: Op)
    ensures Run([p, q, r, s, t]) == Step(Step(Step(Step(Step(Init(), p), q), r), s), t)
  {
    hide Step, Run;
    TwoSteps(p, q);
    RunOne([p, q], r);
    assert [p, q] + [r] == [p, q, r];
    RunOne([p, q, r], s);
    assert [p, q, r] + [s] == [p, q, r, s];
    RunOne([p, q, r, s], t);
    assert [p, q, r, s] + [t] == [p, q, r, s, t];
  }

  /** A wait, its timeout, and a signal. */
  lemma SentLate()
    ensures Step(Step(Step(Init(), Wait(0, 7, {0})), Leave(0)), Send(1, 7, {0}, true))
            == State([Waiter(0, 7, {0}, true)], map[0 := Asked({0}, true, {})], map[1 := Sent(7, {0}, Attached(0, Late))])
  {
    var a := Step(Init(), Wait(0, 7, {0}));
    assert a == State([Waiter(0, 7, {0}, false)], map[0 := Asked({0}, false, {})], map[]);
    assert IsWaiter(a.list[0], 0);
    var b := Step(a, Leave(0));
    assert b == State(a.list, map[0 := Asked({0}, true, {})], map[]);
    assert {0} * {0} == {0};
  }

  /** The waiter is taken off the list, and the next one finds nothing. */
  lemma FoundNothing(c: State)
    requires c.list == [Waiter(0, 7, {0}, true)] && c.waits == map[0 := Asked({0}, true, {})]
    ensures Step(Step(c, Clear(0)), Wait(2, 7, {0}))
            == State([Waiter(2, 7, {0}, false)], c.waits[2 := Asked({0}, false, {})], c.signals)
  {
    assert IsWaiter(c.list[0], 0);
    assert Step(c, Clear(0)) == State([], c.waits, c.signals);
  }

  /** A signal sent to a waiter that has timed out is lost although a later wait asks for it. */
  lemma LostSignal()
    ensures var st := Run([Wait(0, 7, {0}), Leave(0), Send(1, 7, {0}, true), Clear(0), Wait(2, 7, {0})]);
            Lost(st, 1) && st.list == [Waiter(2, 7, {0}, false)]
  {
    hide Run, Step;
    FiveSteps(Wait(0, 7, {0}), Leave(0), Send(1, 7, {0}, true), Clear(0), Wait(2, 7, {0}));
    SentLate();
    FoundNothing(State([Waiter(0, 7, {0}, true)], map[0 := Asked({0}, true, {})],
                       map[1 := Sent(7, {0}, Attached(0, Late))]));
  }

  /** A wait for two events that reads its item in the middle of a signal with one of them reports both. */
  lemma OverstatedReport()
    ensures var st := Run([Wait(0, 7, {0, 1}), Cross(1, 7, {0})]);
            Overstated(st, 1) && st.waits[0].out == {0, 1}
  {
    var a := Step(Init(), Wait(0, 7, {0, 1}));
    assert a == State([Waiter(0, 7, {0, 1}, false)], map[0 := Asked({0, 1}, false, {})], map[]);
    assert 0 in {0, 1} * {0};
    var b := Step(a, Cross(1, 7, {0}));
    TwoSteps(Wait(0, 7, {0, 1}), Cross(1, 7, {0}));
    assert 1 in {0, 1} && 1 !in {0};
  }
}
