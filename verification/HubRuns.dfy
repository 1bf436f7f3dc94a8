// Whole runs of the service hub: which session a lookup reaches, and how long the hub lives.
// Models the state that libmink/Hub/MinkHub/src/MinkHub.c keeps, one API call a step.

module HubRuns {
  import opened Mink
  import opened Seqs
  import opened IDSets

  /** `frees` counts how often the memory of the hub was given back; `order` is the session list,
      `live` the sessions created and not destroyed, `uids` and `modules` what each one holds. */
  datatype Hub<S> = Hub(refs: int, isValid: bool, frees: nat, live: set<S>, order: seq<S>,
                        uids: map<S, seq<Uid>>, modules: map<S, Object>)

  /** RegisterFails is a registration that runs out of memory and leaves the uids `left` behind. */
  datatype Op<S> =
    | CreateSession(s: S)
    | RegisterServices(s: S, list: seq<Uid>, mod: Object)
    | RegisterFails(s: S, list: seq<Uid>, mod: Object, left: seq<Uid>)
    | DestroySession(s: S)
    | DestroyHub

  /** MinkHub_new */
  function New<S>(): Hub<S> { Hub(1, true, 0, {}, [], map[], map[]) }

  /** _MinkHub_release */
  function Release<S>(h: Hub<S>): Hub<S> {
    h.(refs := h.refs - 1, frees := h.frees + if h.refs - 1 == 0 then 1 else 0)
  }

  /** The list without the node of s, if that is queued (_deregisterSession). */
  function Drop<S(==)>(order: seq<S>, s: S): seq<S> {
    if order == [] then [] else if order[0] == s then order[1..] else [order[0]] + Drop(order[1..], s)
  }

  /** What the caller owes: pointers to live objects, and one destroy by the owner. */
  ghost predicate Legal<S>(h: Hub<S>, op: Op<S>) {
    match op
    case CreateSession(s) => s !in h.live && h.frees == 0
    case RegisterServices(s, _, _) => s in h.live
    case RegisterFails(s, _, _, _) => s in h.live
    case DestroySession(s) => s in h.live
    case DestroyHub => h.isValid
  }

  /** MinkHub_registerServices takes its arguments. */
  predicate Accepts<S>(h: Hub<S>, list: seq<Uid>, mod: Object) {
    h.isValid && list != [] && mod != Null
  }

  function Step<S(==)>(h: Hub<S>, op: Op<S>): Hub<S> {
    match op
    case CreateSession(s) =>
      if !h.isValid then h
      else h.(refs := h.refs + 1, live := h.live + {s}, uids := h.uids[s := []], modules := h.modules[s := Null])
    case RegisterServices(s, list, mod) =>
      if !Accepts(h, list, mod) then h
      else h.(order := Drop(h.order, s) + [s], uids := h.uids[s := list], modules := h.modules[s := mod])
    case RegisterFails(s, list, mod, left) =>
      if !Accepts(h, list, mod) then h else h.(order := Drop(h.order, s), uids := h.uids[s := left])
    case DestroySession(s) =>
      Release(h.(live := h.live - {s}, order := Drop(h.order, s), uids := h.uids - {s}, modules := h.modules - {s}))
    case DestroyHub => Release(h.(isValid := false))
  }

  /** MinkHub_localOpen: the session whose module is opened, if any. */
  datatype Found<S> = NotValid | NotFound | Opens(s: S)

  function LocalOpen<S>(h: Hub<S>, uid: Uid): Found<S> {
    if !h.isValid then NotValid else Scan(h.order, h.uids, uid)
  }

  function Scan<S>(order: seq<S>, uids: map<S, seq<Uid>>, uid: Uid): Found<S> {
    if order == [] then NotFound
    else if order[0] in uids && uid in uids[order[0]] then Opens(order[0])
    else Scan(order[1..], uids, uid)
  }

  // ---------------------------------------------------------------- runs

  /** The state after a history of calls. */
  function Run<S(==)>(hist: seq<Op<S>>): Hub<S> {
    if hist == [] then New() else Step(Run(hist[..|hist| - 1]), hist[|hist| - 1])
  }

  ghost predicate LegalRun<S>(hist: seq<Op<S>>) {
    hist == [] || (LegalRun(hist[..|hist| - 1]) && Legal(Run(hist[..|hist| - 1]), hist[|hist| - 1]))
  }

  lemma RunOne<S>(hist: seq<Op<S>>, op: Op<S>)
    ensures Run(hist + [op]) == Step(Run(hist), op)
    ensures LegalRun(hist + [op]) <==> LegalRun(hist) && Legal(Run(hist), op)
  {
    assert (hist + [op])[..|hist|] == hist;
  }

  ghost predicate WellFormed<S>(h: Hub<S>) {
    && h.refs == |h.live| + (if h.isValid then 1 else 0)
    && h.frees == (if h.refs == 0 then 1 else 0)
    && h.uids.Keys == h.live && h.modules.Keys == h.live
    && Distinct(h.order)
    && forall s :: s in h.order ==> s in h.live
  }

  lemma {:induction false} DropHas<S>(order: seq<S>, s: S)
    requires Distinct(order)
    ensures Distinct(Drop(order, s))
    ensures forall x :: x in Drop(order, s) ==> x in order && x != s
    ensures forall x :: x in order && x != s ==> x in Drop(order, s)
  {
    if order != [] {
      DropHas(order[1..], s);
    }
  }

  lemma EndKeepsWellFormed<S>(h: Hub<S>, s: S)
    requires WellFormed(h) && s in h.live
    ensures WellFormed(Step(h, DestroySession(s)))
  {
    hide Distinct, Drop;
    DropHas(h.order, s);
    assert |h.live - {s}| == |h.live| - 1;
  }

  lemma RegisterKeepsWellFormed<S>(h: Hub<S>, s: S, uids: seq<Uid>, mod: Object)
    requires WellFormed(h) && s in h.live
    ensures WellFormed(h.(order := Drop(h.order, s), uids := h.uids[s := uids]))
    ensures WellFormed(h.(order := Drop(h.order, s) + [s], uids := h.uids[s := uids], modules := h.modules[s := mod]))
  {
    hide Distinct, Drop;
    DropHas(h.order, s);
    DistinctAppend(Drop(h.order, s), s);
  }

  lemma StepKeepsWellFormed<S>(h: Hub<S>, op: Op<S>)
    requires WellFormed(h) && Legal(h, op)
    ensures WellFormed(Step(h, op))
  {
    hide Distinct, Drop;
    match op
    case CreateSession(s) =>
    case RegisterServices(s, list, mod) => RegisterKeepsWellFormed(h, s, list, mod);
    case RegisterFails(s, list, mod, left) => RegisterKeepsWellFormed(h, s, left, mod);
    case DestroySession(s) => EndKeepsWellFormed(h, s);
    case DestroyHub =>
  }

  /** In every run: one reference per live session and one of the owner's; the hub is freed once,
      when the sum reaches zero. */
  lemma {:induction false} RunIsWellFormed<S>(hist: seq<Op<S>>)
    requires LegalRun(hist)
    ensures WellFormed(Run(hist))
  {
    if hist != [] {
      RunIsWellFormed(hist[..|hist| - 1]);
      StepKeepsWellFormed(Run(hist[..|hist| - 1]), hist[|hist| - 1]);
    }
  }

  /** The sessions and registrations of `h` are among those of `g`. */
  ghost predicate Shrinks<S>(g: Hub<S>, h: Hub<S>) {
    && h.live <= g.live
    && (forall s :: s in h.order ==> s in g.order)
    && (forall s :: s in h.uids ==> s in g.uids && h.uids[s] == g.uids[s])
    && (forall s :: s in h.modules ==> s in g.modules && h.modules[s] == g.modules[s])
  }

  lemma StepAfterDestroy<S>(h: Hub<S>, op: Op<S>)
    requires WellFormed(h) && Legal(h, op) && (h.isValid ==> op == DestroyHub)
    ensures !Step(h, op).isValid && Shrinks(h, Step(h, op))
  {
    if op.DestroySession? {
      DropHas(h.order, op.s);
    }
  }

  /** Nothing succeeds after the owner's destroy: no call brings a session, a registration or an
      opened service, whatever is called in between. */
  lemma {:induction false} DestroyIsFinal<S>(hist: seq<Op<S>>, more: seq<Op<S>>)
    requires LegalRun(hist + [DestroyHub] + more)
    ensures var h := Run(hist + [DestroyHub] + more);
            && !h.isValid && Shrinks(Run(hist), h)
            && forall uid :: LocalOpen(h, uid) == NotValid
  {
    var all := hist + [DestroyHub] + more;
    var before := all[..|all| - 1];
    assert before == if more == [] then hist else hist + [DestroyHub] + more[..|more| - 1];
    if more != [] {
      DestroyIsFinal(hist, more[..|more| - 1]);
    }
    assert more == [] ==> all[|all| - 1] == DestroyHub;
    RunIsWellFormed(before);
    StepAfterDestroy(Run(before), all[|all| - 1]);
  }

  // ---------------------------------------------------------------- latest registrations

  /** The arguments of call i are taken. */
  ghost predicate Taken<S>(hist: seq<Op<S>>, i: nat)
    requires i < |hist|
  {
    && (hist[i].RegisterServices? || hist[i].RegisterFails?) && hist[i].list != [] && hist[i].mod != Null
    && forall j :: 0 <= j < i ==> hist[j] != DestroyHub
  }

  ghost predicate Registers<S>(hist: seq<Op<S>>, i: nat)
    requires i < |hist|
  {
    hist[i].RegisterServices? && Taken(hist, i)
  }

  /** Call i takes the session off the list, if only to put it back at the end. */
  ghost predicate Ends<S>(hist: seq<Op<S>>, i: nat, s: S)
    requires i < |hist|
  {
    hist[i] == DestroySession(s) || (Taken(hist, i) && hist[i].s == s)
  }

  /** Call i is a registration that went through, and that no later registration, failed or not, and
      no end of its session has replaced. */
  ghost predicate Current<S>(hist: seq<Op<S>>, i: nat) {
    && i < |hist| && Registers(hist, i)
    && forall j :: i < j < |hist| ==> !Ends(hist, j, hist[i].s)
  }

  lemma {:induction false} ValidUntilDestroy<S>(hist: seq<Op<S>>)
    ensures Run(hist).isValid <==> DestroyHub !in hist
  {
    if hist != [] {
      ValidUntilDestroy(hist[..|hist| - 1]);
      assert hist == hist[..|hist| - 1] + [hist[|hist| - 1]];
    }
  }

  /** One more call: it may end a registration, and it may be one. */
  lemma CurrentAfter<S>(hist: seq<Op<S>>, op: Op<S>, i: nat)
    requires i < |hist|
    ensures var all := hist + [op]; Current(all, i) <==> Current(hist, i) && !Ends(all, |hist|, hist[i].s)
  {
    var all := hist + [op];
    assert forall j :: 0 <= j < |hist| ==> all[j] == hist[j];
    assert forall j :: 0 <= j < |hist| ==> (Taken(all, j) <==> Taken(hist, j));
    if hist[i].RegisterServices? {
      assert forall j :: 0 <= j < |hist| ==> (Ends(all, j, hist[i].s) <==> Ends(hist, j, hist[i].s));
    }
    if Current(all, i) {
      assert !Ends(all, |hist|, all[i].s);
      forall j | i < j < |hist| ensures !Ends(hist, j, hist[i].s) {
        assert !Ends(all, j, all[i].s);
      }
    }
  }

  lemma {:induction false} DropAt<S>(order: seq<S>, s: S) returns (k: nat)
    ensures k <= |order|
    ensures if k < |order| then order[k] == s && Drop(order, s) == order[..k] + order[k + 1..]
            else s !in order && Drop(order, s) == order
  {
    if order == [] || order[0] == s {
      k := 0;
    } else {
      var m := DropAt(order[1..], s);
      k := m + 1;
      assert order == [order[0]] + order[1..];
    }
  }

  ghost predicate Ascending<S>(order: seq<S>, at: map<S, nat>) {
    && (forall s :: s in order ==> s in at)
    && (forall k, l :: 0 <= k < l < |order| ==> at[order[k]] < at[order[l]])
  }

  lemma DropAscends<S>(order: seq<S>, at: map<S, nat>, s: S)
    requires Ascending(order, at)
    ensures Ascending(Drop(order, s), at)
    ensures forall x :: x in Drop(order, s) ==> x in order
  {
    hide Drop;
    var rest := Drop(order, s);
    var n := DropAt(order, s);
    if n < |order| {
      assert forall k :: 0 <= k < |rest| ==> rest[k] == order[if k < n then k else k + 1];
    }
  }

  /** The list at any time is made of the current registrations, oldest first, each with the uids
      and the module it named: `at` tells the call that made each of them. */
  ghost predicate Matches<S>(hist: seq<Op<S>>, h: Hub<S>, at: map<S, nat>) {
    && Ascending(h.order, at)
    && (forall s :: s in h.order ==> Current(hist, at[s]) && hist[at[s]].s == s && Names(h, s, hist[at[s]]))
    && (forall i: nat :: Current(hist, i) ==> hist[i].s in h.order && at[hist[i].s] == i)
  }

  ghost predicate Names<S>(h: Hub<S>, s: S, op: Op<S>)
    requires op.RegisterServices?
  {
    s in h.uids && h.uids[s] == op.list && s in h.modules && h.modules[s] == op.mod
  }

  /** A call that makes no registration and leaves in the list exactly the sessions it does not end. */
  lemma MatchesLess<S>(hist: seq<Op<S>>, op: Op<S>, h: Hub<S>, h': Hub<S>, at: map<S, nat>)
    requires Matches(hist, h, at) && !Registers(hist + [op], |hist|) && Ascending(h'.order, at)
    requires forall s :: s in h'.order ==>
               && s in h.order && !Ends(hist + [op], |hist|, s)
               && s in h'.uids && s in h.uids && h'.uids[s] == h.uids[s]
               && s in h'.modules && s in h.modules && h'.modules[s] == h.modules[s]
    requires forall s :: s in h.order && !Ends(hist + [op], |hist|, s) ==> s in h'.order
    ensures Matches(hist + [op], h', at)
  {
    var all := hist + [op];
    forall i: nat | Current(all, i) ensures i < |hist| && Current(hist, i) && !Ends(all, |hist|, hist[i].s) {
      if i < |hist| { CurrentAfter(hist, op, i); }
    }
    forall s | s in h'.order ensures Current(all, at[s]) && all[at[s]] == hist[at[s]] {
      CurrentAfter(hist, op, at[s]);
    }
  }

  lemma AppendAscends<S>(order: seq<S>, at: map<S, nat>, s: S, n: nat)
    requires Ascending(order, at) && s !in order && forall x :: x in order ==> at[x] < n
    ensures Ascending(order + [s], at[s := n])
  {
    var more, at' := order + [s], at[s := n];
    assert forall k :: 0 <= k < |order| ==> more[k] == order[k] && at'[more[k]] == at[order[k]];
  }

  /** A registration that goes through. */
  lemma MatchesMore<S>(hist: seq<Op<S>>, op: Op<S>, h: Hub<S>, at: map<S, nat>)
    requires Matches(hist, h, at) && Distinct(h.order) && Registers(hist + [op], |hist|) && h.isValid
    ensures Matches(hist + [op], Step(h, op), at[op.s := |hist|])
  {
    hide Drop, Distinct;
    var all, s, rest := hist + [op], op.s, Drop(h.order, op.s);
    DropHas(h.order, s);
    DropAscends(h.order, at, s);
    AppendAscends(rest, at, s, |hist|);
    assert Current(all, |hist|);
    OthersStay(hist, op, h, at);
    var h', at' := Step(h, op), at[s := |hist|];
    forall x | x in h'.order ensures Current(all, at'[x]) && all[at'[x]].s == x && Names(h', x, all[at'[x]]) {
      if x != s { assert x in rest && Names(h, x, hist[at[x]]); }
    }
    forall i: nat | Current(all, i) ensures all[i].s in h'.order && at'[all[i].s] == i {
      if i != |hist| { assert hist[i].s in rest; }
    }
  }

  /** Registrations of other sessions are not touched. */
  lemma OthersStay<S>(hist: seq<Op<S>>, op: Op<S>, h: Hub<S>, at: map<S, nat>)
    requires Matches(hist, h, at) && Registers(hist + [op], |hist|)
    ensures forall i: nat :: Current(hist + [op], i) && i != |hist| ==> Current(hist, i) && hist[i].s != op.s
    ensures forall x :: x in h.order && x != op.s ==> Current(hist + [op], at[x]) && (hist + [op])[at[x]] == hist[at[x]]
  {
    forall i: nat | Current(hist + [op], i) && i != |hist| ensures Current(hist, i) && hist[i].s != op.s {
      CurrentAfter(hist, op, i);
    }
    forall x | x in h.order && x != op.s ensures Current(hist + [op], at[x]) && (hist + [op])[at[x]] == hist[at[x]] {
      CurrentAfter(hist, op, at[x]);
    }
  }

  lemma {:induction false} RunMatches<S>(hist: seq<Op<S>>) returns (at: map<S, nat>)
    requires LegalRun(hist)
    ensures Matches(hist, Run(hist), at)
  {
    at := map[];
    if hist != [] {
      var before, op := hist[..|hist| - 1], hist[|hist| - 1];
      assert hist == before + [op];
      at := RunMatches(before);
      RunIsWellFormed(before);
      ValidUntilDestroy(before);
      StepMatches(before, op, Run(before), at);
      if op.RegisterServices? && Accepts(Run(before), op.list, op.mod) {
        at := at[op.s := |before|];
      }
    }
  }

  lemma StepMatches<S>(hist: seq<Op<S>>, op: Op<S>, h: Hub<S>, at: map<S, nat>)
    requires Matches(hist, h, at) && WellFormed(h) && Legal(h, op) && (h.isValid <==> DestroyHub !in hist)
    ensures var more := op.RegisterServices? && Accepts(h, op.list, op.mod);
            Matches(hist + [op], Step(h, op), if more then at[op.s := |hist|] else at)
  {
    hide Drop, Ascending, Distinct, Current;
    var all := hist + [op];
    assert forall j :: 0 <= j < |hist| ==> all[j] == hist[j];
    if op.RegisterServices? && Accepts(h, op.list, op.mod) {
      MatchesMore(hist, op, h, at);
    } else {
      if op.DestroySession? || op.RegisterFails? {
        DropHas(h.order, op.s);
        DropAscends(h.order, at, op.s);
      }
      MatchesLess(hist, op, h, Step(h, op), at);
    }
  }

  lemma {:induction false} ScanFindsFirst<S>(order: seq<S>, uids: map<S, seq<Uid>>, uid: Uid, at: map<S, nat>)
    requires Ascending(order, at) && forall s :: s in order ==> s in uids
    ensures match Scan(order, uids, uid)
            case NotFound => forall s :: s in order ==> uid !in uids[s]
            case Opens(s) =>
              s in order && uid in uids[s] && forall t :: t in order && uid in uids[t] ==> at[s] <= at[t]
            case NotValid => false
  {
    if order != [] {
      ScanFindsFirst(order[1..], uids, uid, at);
      assert forall t :: t in order[1..] ==> at[order[0]] < at[t];
      assert forall t :: t in order ==> t == order[0] || t in order[1..];
    }
  }

  /** After any run of registrations, re-registrations, failed ones and session ends, a lookup opens the
      module of the oldest current registration whose uid list has the uid, and finds nothing exactly
      when none has. */
  lemma LocalOpenReaches<S>(hist: seq<Op<S>>, uid: Uid)
    requires LegalRun(hist)
    ensures match LocalOpen(Run(hist), uid)
            case NotValid => DestroyHub in hist
            case NotFound => DestroyHub !in hist && forall i: nat :: Current(hist, i) ==> uid !in hist[i].list
            case Opens(s) => DestroyHub !in hist && exists i: nat :: OldestWith(hist, i, uid) && Answers(Run(hist), s, hist[i])
  {
    var h := Run(hist);
    ValidUntilDestroy(hist);
    var at := RunMatches(hist);
    ScanFindsFirst(h.order, h.uids, uid, at);
    if h.isValid && LocalOpen(h, uid).Opens? {
      var i := at[LocalOpen(h, uid).s];
      forall j: nat | Current(hist, j) && uid in hist[j].list ensures i <= j {
        assert hist[j].s in h.order && at[hist[j].s] == j && h.uids[hist[j].s] == hist[j].list;
      }
      assert OldestWith(hist, i, uid);
    }
  }

  /** Call i is the oldest current registration that names the uid. */
  ghost predicate OldestWith<S>(hist: seq<Op<S>>, i: nat, uid: Uid) {
    && Current(hist, i) && uid in hist[i].list
    && forall j: nat :: Current(hist, j) && uid in hist[j].list ==> i <= j
  }

  /** The session is that of the call, and has its module. */
  ghost predicate Answers<S>(h: Hub<S>, s: S, op: Op<S>)
    requires op.RegisterServices?
  {
    op.s == s && s in h.modules && h.modules[s] == op.mod
  }
}
