// The service hub: sessions in a QList, each with an IDSet of the uids it serves.
// Models libmink/Hub/MinkHub/src/MinkHub.c.

module MinkHubs {
  import opened Mink
  import opened Seqs
  import opened QLists
  import opened IDSets
  import opened HubRuns
  import opened ConnectionManagers

  class MinkHubSession {
    const hub: MinkHub
    const node: QNode
    const services: IDSet
    var clientEnv: Option<Object>
    var modObj: Object

    constructor (hub: MinkHub)
      ensures this.hub == hub && fresh(node) && fresh(services)
      ensures node.container == this && node.pNext == null && IsList([services], [])
      ensures modObj == Null && clientEnv == None
    {
      this.hub := hub;
      node := new QNode();
      services := new IDSet();
      modObj, clientEnv := Null, None;
      new;
      node.container := this;
      FreshList(services);
    }
  }

  // ---------------------------------------------------------------- the session list

  ghost function Nodes(order: seq<MinkHubSession>): (r: seq<QNode>)
    ensures |r| == |order| && forall i :: 0 <= i < |r| ==> r[i] == order[i].node
  {
    if order == [] then [] else [order[0].node] + Nodes(order[1..])
  }

  lemma NodesOf(order: seq<MinkHubSession>, s: MinkHubSession)
    requires s.node.container == s && forall t :: t in order ==> t.node.container == t
    ensures s.node in Nodes(order) <==> s in order
  {
    if s in order {
      var i :| 0 <= i < |order| && order[i] == s;
      assert Nodes(order)[i] == s.node;
    }
  }

  lemma NodesDrop(order: seq<MinkHubSession>, s: MinkHubSession) returns (k: nat)
    requires s in order
    ensures k < |order| && order[k] == s && Nodes(Drop(order, s)) == Without(Nodes(order), k)
  {
    hide Drop, Nodes;
    k := DropAt(order, s);
    var d, r := Drop(order, s), Nodes(order);
    assert d == order[..k] + order[k + 1..];
    forall i | 0 <= i < |d| ensures Nodes(d)[i] == Without(r, k)[i] {
      assert d[i] == order[if i < k then i else i + 1];
      assert Without(r, k)[i] == r[if i < k then i else i + 1];
    }
  }

  /** QNode_dequeue on a queued session. */
  method Take(s: MinkHubSession, head: QNode, ghost order: seq<MinkHubSession>)
    requires IsQueue(head, Nodes(order)) && s in order
    modifies ([head] + Nodes(order))`pNext, ([head] + Nodes(order))`pPrev
    ensures IsQueue(head, Nodes(Drop(order, s))) && s.node.pNext == null
  {
    ghost var k := NodesDrop(order, s);
    Remove(s.node, head, Nodes(order), k);
  }

  /** _deregisterSession */
  method Deregister(s: MinkHubSession, head: QNode, ghost order: seq<MinkHubSession>)
    requires IsQueue(head, Nodes(order)) && (s in order || s.node.pNext == null)
    requires s.node.container == s && forall t :: t in order ==> t.node.container == t
    modifies ([head] + Nodes(order))`pNext, ([head] + Nodes(order))`pPrev
    ensures IsQueue(head, Nodes(Drop(order, s))) && s.node.pNext == null
  {
    NodesOf(order, s);
    var queued := IsQueued(s.node, head, Nodes(order));
    if queued {
      Take(s, head, order);
    } else {
      ghost var k := DropAt(order, s);
    }
  }

  ghost function Cells(head: QNode, live: set<MinkHubSession>): set<QNode> {
    {head} + set s | s in live :: s.node
  }

  /** The nodes of `order` are queued, in that order, and one pointer tells who is not. */
  ghost predicate Queue(head: QNode, order: seq<MinkHubSession>, live: set<MinkHubSession>)
    reads Cells(head, live)
  {
    && Distinct(order)
    && (forall s :: s in order ==> s in live)
    && IsQueue(head, Nodes(order))
    && (forall s :: s in live ==> s.node.container == s && s.node != head && (s !in order ==> s.node.pNext == null))
  }

  /** _deregisterSession: s is off the list afterwards. */
  method Unqueue(s: MinkHubSession, head: QNode, ghost order: seq<MinkHubSession>, ghost live: set<MinkHubSession>)
    requires Queue(head, order, live) && s in live
    modifies Cells(head, live)`pNext, Cells(head, live)`pPrev
    ensures Queue(head, Drop(order, s), live) && s !in Drop(order, s)
  {
    hide IsQueue, Distinct, Drop, Nodes;
    DropHas(order, s);
    forall t | t in live ensures t.node in Nodes(order) <==> t in order {
      NodesOf(order, t);
    }
    assert forall x :: x in Nodes(order) ==> x in Cells(head, live);
    ghost var others := set t | t in live && t !in order;
    assert forall t :: t in others ==> t.node !in [head] + Nodes(order) && t.node.pNext == null;
    Deregister(s, head, order);
    forall t | t in live && t !in Drop(order, s) ensures t.node.pNext == null {
      assert t == s || t in others;
    }
  }

  /** QList_appendNode on the session list. */
  method Enqueue(s: MinkHubSession, head: QNode, ghost order: seq<MinkHubSession>, ghost live: set<MinkHubSession>)
    requires Queue(head, order, live) && s in live && s !in order
    modifies Cells(head, live)`pNext, Cells(head, live)`pPrev
    ensures Queue(head, order + [s], live)
  {
    hide IsQueue, Distinct, Drop, Nodes;
    forall t | t in live ensures t.node in Nodes(order) <==> t in order {
      NodesOf(order, t);
    }
    assert forall x :: x in Nodes(order) ==> x in Cells(head, live);
    AppendNode(head, s.node, Nodes(order));
    assert Nodes(order + [s]) == Nodes(order) + [s.node];
    DistinctAppend(order, s);
    forall t | t in live && t !in order + [s] ensures t.node.pNext == null {
      assert t.node !in [head] + Nodes(order) && t.node != s.node;
    }
  }

  /** One step of QLIST_FOR_ALL over the session list. */
  lemma WalkStep(head: QNode, order: seq<MinkHubSession>, live: set<MinkHubSession>, i: nat)
    requires Queue(head, order, live) && i <= |order|
    ensures head.pNext == if order == [] then head else order[0].node
    ensures i < |order| ==>
              && order[i] in live && order[i].node != head && order[i].node.container == order[i]
              && order[i].node.pNext == if i + 1 < |order| then order[i + 1].node else head
  {
    Unfold(head, Nodes(order));
    if i < |order| {
      assert Nodes(order)[i] == order[i].node;
    }
  }

  lemma QueueGrow(head: QNode, order: seq<MinkHubSession>, live: set<MinkHubSession>, s: MinkHubSession)
    requires Queue(head, order, live) && s !in live
    requires s.node.container == s && s.node != head && s.node.pNext == null
    ensures Queue(head, order, live + {s})
  {
  }

  lemma QueueShrink(head: QNode, order: seq<MinkHubSession>, live: set<MinkHubSession>, s: MinkHubSession)
    requires Queue(head, order, live) && s !in order
    ensures Queue(head, order, live - {s})
  {
  }

  // ---------------------------------------------------------------- the uid sets

  /** The entries are those of the uids of `list`. */
  ghost predicate Same(used: seq<Entry>, list: seq<Uid>) {
    forall x: Uid :: Has(used, x) <==> x in list
  }

  /** The chunks `chain` from `services` on hold exactly the uids of `list`. */
  ghost predicate Holds(services: IDSet, chain: seq<IDSet>, used: seq<Entry>, list: seq<Uid>)
    reads chain
  {
    IsList(chain, used) && chain[0] == services && Same(used, list)
  }

  lemma HoldsHead(services: IDSet, chain: seq<IDSet>, used: seq<Entry>, list: seq<Uid>)
    requires Holds(services, chain, used, list)
    ensures services in chain
  {
  }

  ghost function GroupsOf(list: seq<Uid>): set<int> {
    set x | x in list :: Group(x)
  }

  /** Uid i is of a new group, and the chunks of those before it are full. */
  ghost predicate NeedsChunk(list: seq<Uid>, i: nat)
    requires i < |list|
  {
    var before := GroupsOf(list[..i]);
    Group(list[i]) !in before && |before| > 0 && |before| % 2 == 0
  }

  /** The first uid from i on for which a chunk is needed and cannot be had. */
  ghost function FirstFault(list: seq<Uid>, allocs: nat -> bool, i: nat): (n: nat)
    requires i <= |list|
    ensures i <= n <= |list| && (n < |list| ==> NeedsChunk(list, n) && !allocs(n))
    ensures forall j :: i <= j < n ==> NeedsChunk(list, j) ==> allocs(j)
    decreases |list| - i
  {
    if i == |list| || (NeedsChunk(list, i) && !allocs(i)) then i else FirstFault(list, allocs, i + 1)
  }

  /** What a fault at uid n leaves: the uids up to there, but for those of the largest group. */
  ghost predicate Torso(left: seq<Uid>, list: seq<Uid>, n: nat) {
    && n < |list|
    && forall x: Uid :: x in left <==> x in list[..n + 1] && exists y :: y in list[..n + 1] && Group(x) < Group(y)
  }

  ghost function Below(list: seq<Uid>, g: int): (r: seq<Uid>)
    ensures forall x :: x in r <==> x in list && Group(x) != g
  {
    if list == [] then [] else (if Group(list[0]) == g then [] else [list[0]]) + Below(list[1..], g)
  }

  /** The entries are those of the uids of `list`, in n chunks of two groups each. */
  ghost predicate Packed(n: nat, used: seq<Entry>, list: seq<Uid>) {
    && Sorted(used) && Same(used, list) && Groups(used) == GroupsOf(list)
    && n == if |used| <= 2 then 1 else (|used| + 1) / 2
  }

  lemma GroupsOfSnoc(list: seq<Uid>, i: nat)
    requires i < |list|
    ensures list[..i + 1] == list[..i] + [list[i]]
    ensures GroupsOf(list[..i + 1]) == GroupsOf(list[..i]) + {Group(list[i])}
  {
    assert list[..i + 1] == list[..i] + [list[i]];
  }

  lemma PackedNothing()
    ensures Packed(1, [], [])
  {
    NoGroups();
  }

  lemma PackedSame(n: nat, used: seq<Entry>, list: seq<Uid>)
    requires Packed(n, used, list)
    ensures Same(used, list)
  {
  }

  /** The condition of IDSet_set for another chunk, told from the list. */
  lemma NeedsRoom(n: nat, used: seq<Entry>, list: seq<Uid>, i: nat)
    requires i < |list| && Packed(n, used, list[..i])
    ensures NeedsChunk(list, i) <==> !Present(used, Group(list[i])) && |used| == 2 * n
  {
    hide Present, Same, Groups, GroupsOf;
    PresentIsGroup(used, Group(list[i]));
    GroupsCount(used);
  }

  /** The set with uid i of the list. */
  lemma PackedNext(n: nat, used: seq<Entry>, list: seq<Uid>, i: nat, n': nat)
    requires i < |list| && Packed(n, used, list[..i])
    requires n' == n + if |used| == 2 * n && !Present(used, Group(list[i])) then 1 else 0
    ensures Packed(n', Put(used, list[i]), list[..i + 1])
  {
    hide Has, Groups, GroupsOf;
    GroupsOfSnoc(list, i);
    PutGroups(used, list[i]);
    forall x: Uid ensures Has(Put(used, list[i]), x) <==> x in list[..i + 1] {
      PutAdds(used, list[i], x);
    }
  }

  lemma BelowLargest(list: seq<Uid>, i: nat, more: seq<Uid>, g: int)
    requires i < |list| && more == list[..i + 1]
    requires g in GroupsOf(more) && forall h :: h in GroupsOf(more) ==> h <= g
    ensures Torso(Below(more, g), list, i)
  {
    hide Group;
    var y :| y in more && Group(y) == g;
    forall x: Uid | x in more ensures Group(x) <= g {
      assert Group(x) in GroupsOf(more);
    }
  }

  lemma TorsoLeft(used: seq<Entry>, list: seq<Uid>, i: nat, g: int)
    requires i < |list| && Sorted(used) && Groups(used) == GroupsOf(list[..i]) && Put(used, list[i]) != []
    requires g == Put(used, list[i])[|Put(used, list[i])| - 1].group
    ensures Torso(Below(list[..i + 1], g), list, i)
  {
    hide Put, Present, Rank, Has, Sorted, GroupsOf, Torso;
    var t := Put(used, list[i]);
    GroupsOfSnoc(list, i);
    PutGroups(used, list[i]);
    PutAdds(used, list[i], list[i]);
    assert t[|t| - 1] in t;
    forall h | h in Groups(t) ensures h <= g {
      LastIsLargest(t, h);
    }
    BelowLargest(list, i, list[..i + 1], g);
  }

  /** What uid i leaves if there is no chunk for it. */
  lemma HoldsLeft(n: nat, used: seq<Entry>, list: seq<Uid>, i: nat, g: int, used': seq<Entry>) returns (left: seq<Uid>)
    requires i < |list| && Packed(n, used, list[..i]) && Put(used, list[i]) != []
    requires g == Put(used, list[i])[|Put(used, list[i])| - 1].group
    requires forall x: Uid :: Has(used', x) <==> (Has(used, x) || x == list[i]) && Group(x) != g
    ensures Torso(left, list, i) && Same(used', left)
  {
    hide Has, Put, Groups, GroupsOf, Torso, Sorted, Group, Below;
    left := Below(list[..i + 1], g);
    TorsoLeft(used, list, i, g);
    GroupsOfSnoc(list, i);
  }

  /** One IDSet_set of the loop of MinkHub_registerServices. */
  method FillNext(services: IDSet, list: seq<Uid>, index: nat, alloc: bool, ghost chain: seq<IDSet>, ghost used: seq<Entry>)
    returns (ok: bool, ghost chain': seq<IDSet>, ghost used': seq<Entry>, ghost left: seq<Uid>)
    requires index < |list| && IsList(chain, used) && chain[0] == services && Packed(|chain|, used, list[..index])
    modifies chain
    ensures forall i :: 0 <= i < |chain'| ==> chain'[i] in chain || fresh(chain'[i])
    ensures ok <==> NeedsChunk(list, index) ==> alloc
    ensures IsList(chain', used') && chain' != [] && chain'[0] == services
    ensures if ok then left == list[..index + 1] && Packed(|chain'|, used', left)
            else Torso(left, list, index) && Same(used', left)
  {
    hide IsList, Sorted, Has, Same, Put, Present, Group, Packed, NeedsChunk, Torso;
    IsSorted(chain, used);
    NeedsRoom(|chain|, used, list, index);
    ok, chain', used' := Set(services, list[index], alloc, chain, used);
    if ok {
      left := list[..index + 1];
      PackedNext(|chain|, used, list, index, |chain'|);
    } else {
      left := HoldsLeft(|chain|, used, list, index, Put(used, list[index])[2 * |chain|].group, used');
    }
  }

  /** All uids of the list are in exactly if no chunk is missing, else what the first fault leaves. */
  ghost predicate Filled(ok: bool, left: seq<Uid>, list: seq<Uid>, allocs: nat -> bool) {
    var n := FirstFault(list, allocs, 0);
    (ok <==> n == |list|) && if ok then left == list else Torso(left, list, n)
  }

  /** Empties the session's set and sets the uids of the list one by one, until an allocation fails:
      `allocs(i)` says whether a chunk can be had for uid i, should it need one. */
  method Fill(services: IDSet, list: seq<Uid>, allocs: nat -> bool,
              ghost chain: seq<IDSet>, ghost used: seq<Entry>, ghost was: seq<Uid>)
    returns (ok: bool, ghost chain': seq<IDSet>, ghost used': seq<Entry>, ghost left: seq<Uid>)
    requires Holds(services, chain, used, was)
    modifies chain
    ensures Holds(services, chain', used', left)
    ensures forall i :: 0 <= i < |chain'| ==> chain'[i] in chain || fresh(chain'[i])
    ensures Filled(ok, left, list, allocs)
  {
    hide IsList, Packed, Same, Torso;
    HoldsHead(services, chain, used, was);
    Empty(services);
    chain', used', left := [services], [], [];
    PackedNothing();
    ok := true;
    for index := 0 to |list|
      invariant ok && left == list[..index] && Packed(|chain'|, used', left)
      invariant IsList(chain', used') && chain' != [] && chain'[0] == services
      invariant forall i :: 0 <= i < |chain'| ==> chain'[i] in chain || fresh(chain'[i])
      invariant FirstFault(list, allocs, 0) == FirstFault(list, allocs, index)
    {
      ok, chain', used', left := FillNext(services, list, index, allocs(index), chain', used');
      if !ok { return; }
    }
    assert list[..|list|] == list;
    PackedSame(|chain'|, used', list);
  }

  type Chains = map<MinkHubSession, seq<IDSet>>
  type Useds = map<MinkHubSession, seq<Entry>>
  type Lists = map<MinkHubSession, seq<Uid>>

  ghost function Chunks(live: set<MinkHubSession>, chain: Chains): set<IDSet> {
    set s, x | s in live && s in chain && x in chain[s] :: x
  }

  /** Every session has chunks of its own, holding the uids it registered last. */
  ghost predicate Sets(live: set<MinkHubSession>, chain: Chains, used: Useds, uids: Lists)
    reads Chunks(live, chain)
  {
    && chain.Keys == live && used.Keys == live && uids.Keys == live
    && (forall s, x :: s in live && x in chain[s] ==> x in Chunks(live, chain))
    && (forall s :: s in live ==> Holds(s.services, chain[s], used[s], uids[s]))
    && (forall s, t, x :: s in live && t in live && s != t && x in chain[s] ==> x !in chain[t])
  }

  lemma SetsOf(live: set<MinkHubSession>, chain: Chains, used: Useds, uids: Lists, s: MinkHubSession)
    requires Sets(live, chain, used, uids) && s in live
    ensures s in chain && s in used && s in uids && uids.Keys == live
    ensures Holds(s.services, chain[s], used[s], uids[s])
    ensures forall i :: 0 <= i < |chain[s]| ==> chain[s][i] in Chunks(live, chain)
  {
  }

  lemma SetsReplace(live: set<MinkHubSession>, chain: Chains, used: Useds, uids: Lists,
                    s: MinkHubSession, c: seq<IDSet>, u: seq<Entry>, list: seq<Uid>)
    requires s in live && chain.Keys == live && used.Keys == live && uids.Keys == live
    requires forall t :: t in live && t != s ==> Holds(t.services, chain[t], used[t], uids[t])
    requires Holds(s.services, c, u, list)
    requires forall t, r, x :: t in live && r in live && t != r && x in chain[t] ==> x !in chain[r]
    requires forall t, x :: t in live && t != s && x in c ==> x !in chain[t]
    ensures Sets(live, chain[s := c], used[s := u], uids[s := list])
  {
  }

  /** Filling one session's set leaves all others alone. */
  method Refill(s: MinkHubSession, list: seq<Uid>, allocs: nat -> bool,
                ghost live: set<MinkHubSession>, ghost chain: Chains, ghost used: Useds, ghost uids: Lists)
    returns (ok: bool, ghost chain': Chains, ghost used': Useds, ghost left: seq<Uid>)
    requires Sets(live, chain, used, uids) && s in live && s in chain
    modifies chain[s]
    ensures Sets(live, chain', used', uids[s := left]) && Filled(ok, left, list, allocs)
    ensures forall x :: x in Chunks(live, chain') ==> x in Chunks(live, chain) || fresh(x)
  {
    hide IsList, Same, Filled;
    ghost var c, u;
    ok, c, u, left := Fill(s.services, list, allocs, chain[s], used[s], uids[s]);
    forall t | t in live && t != s ensures Holds(t.services, chain[t], used[t], uids[t]) {
      assert old(Holds(t.services, chain[t], used[t], uids[t]));
      assert forall i :: 0 <= i < |chain[t]| ==> chain[t][i] !in chain[s] && old(allocated(chain[t][i]));
      assert unchanged(chain[t]);
    }
    chain', used' := chain[s := c], used[s := u];
    SetsReplace(live, chain, used, uids, s, c, u, left);
  }

  lemma SetsAdd(live: set<MinkHubSession>, chain: Chains, used: Useds, uids: Lists, s: MinkHubSession)
    requires Sets(live, chain, used, uids) && s !in live
    requires IsList([s.services], []) && s.services !in Chunks(live, chain)
    ensures Sets(live + {s}, chain[s := [s.services]], used[s := []], uids[s := []])
  {
  }

  lemma SetsRemove(live: set<MinkHubSession>, chain: Chains, used: Useds, uids: Lists, s: MinkHubSession)
    requires Sets(live, chain, used, uids)
    ensures Sets(live - {s}, chain - {s}, used - {s}, uids - {s})
  {
  }

  // ---------------------------------------------------------------- the books

  /** Each session has the module that was recorded for it. */
  ghost predicate Modules(live: set<MinkHubSession>, modules: map<MinkHubSession, Object>)
    reads live`modObj
  {
    forall s :: s in live ==> s in modules && s.modObj == modules[s]
  }

  /** What a hub keeps book of: HubRuns' view of it, and the chunks and entries of every session. */
  datatype Books = Books(frees: nat, live: set<MinkHubSession>, order: seq<MinkHubSession>, uids: Lists,
                         modules: map<MinkHubSession, Object>, chain: Chains, used: Useds)

  /** The cells and chunks of a hub. */
  ghost function Parts(head: QNode, b: Books): set<object> {
    Cells(head, b.live) + Chunks(b.live, b.chain)
  }

  /** The heap is as the books say. */
  ghost predicate Fits(head: QNode, b: Books)
    reads Parts(head, b), b.live`modObj
  {
    Queue(head, b.order, b.live) && Sets(b.live, b.chain, b.used, b.uids) && Modules(b.live, b.modules)
  }

  /** The hub as HubRuns has it. */
  ghost function View(refs: int, isValid: bool, b: Books): Hub<MinkHubSession> {
    Hub(refs, isValid, b.frees, b.live, b.order, b.uids, b.modules)
  }

  const NOTHING := Books(0, {}, [], map[], map[], map[], map[])

  lemma NothingFits(head: QNode)
    requires IsQueue(head, [])
    ensures Fits(head, NOTHING) && WellFormed(View(1, true, NOTHING)) && Parts(head, NOTHING) == {head}
  {
  }

  lemma FitsFrees(head: QNode, b: Books, frees: nat)
    requires Fits(head, b)
    ensures Fits(head, b.(frees := frees))
  {
  }

  /** What the books name existed before. */
  lemma InHeap(head: QNode, b: Books)
    ensures forall x :: x in Parts(head, b) ==> allocated(x)
    ensures forall x :: x in Cells(head, b.live) ==> allocated(x)
    ensures forall x :: x in Chunks(b.live, b.chain) ==> allocated(x)
  {
    assert forall t, i :: t in b.live && t in b.chain && 0 <= i < |b.chain[t]| ==> allocated(b.chain[t][i]);
  }

  /** The books with a new session. */
  ghost function Admitted(b: Books, s: MinkHubSession): Books {
    b.(live := b.live + {s}, chain := b.chain[s := [s.services]], used := b.used[s := []],
       uids := b.uids[s := []], modules := b.modules[s := Null])
  }

  lemma AdmitFits(head: QNode, b: Books, s: MinkHubSession)
    requires Fits(head, b) && s !in b.live
    requires s.node.container == s && s.node != head && s.node.pNext == null
    requires IsList([s.services], []) && s.services !in Chunks(b.live, b.chain) && s.modObj == Null
    ensures Fits(head, Admitted(b, s)) && Parts(head, Admitted(b, s)) == Parts(head, b) + {s.node, s.services}
  {
    hide Queue, Sets, Cells, Chunks, IsList;
    QueueGrow(head, b.order, b.live, s);
    SetsAdd(b.live, b.chain, b.used, b.uids, s);
    PartsGrow(head, b.live, b.chain, s);
  }

  lemma AdmitCounts(refs: int, b: Books, s: MinkHubSession)
    requires WellFormed(View(refs, true, b)) && b.frees == 0 && s !in b.live
    ensures WellFormed(View(refs + 1, true, Admitted(b, s))) && Admitted(b, s).live == b.live + {s}
    ensures View(refs + 1, true, Admitted(b, s)) == Step(View(refs, true, b), HubRuns.CreateSession(s))
  {
    hide WellFormed;
    StepKeepsWellFormed(View(refs, true, b), HubRuns.CreateSession(s));
  }

  lemma PartsGrow(head: QNode, live: set<MinkHubSession>, chain: Chains, s: MinkHubSession)
    requires s !in live
    ensures Cells(head, live + {s}) == Cells(head, live) + {s.node}
    ensures Chunks(live + {s}, chain[s := [s.services]]) == Chunks(live, chain) + {s.services}
  {
    var more := chain[s := [s.services]];
    assert forall t :: t in live && t in chain ==> t in more && more[t] == chain[t];
    assert s in live + {s} && s in more && s.services in more[s];
  }

  /** The books without a session that is off the list. */
  ghost function Dismissed(b: Books, s: MinkHubSession): Books {
    b.(live := b.live - {s}, chain := b.chain - {s}, used := b.used - {s}, uids := b.uids - {s},
       modules := b.modules - {s})
  }

  lemma DismissFits(head: QNode, b: Books, s: MinkHubSession)
    requires Fits(head, b) && s !in b.order
    ensures Fits(head, Dismissed(b, s)) && Parts(head, Dismissed(b, s)) <= Parts(head, b)
  {
    QueueShrink(head, b.order, b.live, s);
    SetsRemove(b.live, b.chain, b.used, b.uids, s);
  }

  // The methods below change the cells, the chunks and the modules, and say what the books are then.

  /** _deregisterSession */
  method Unlist(s: MinkHubSession, head: QNode, ghost b: Books) returns (ghost b': Books)
    requires Fits(head, b) && s in b.live
    modifies Cells(head, b.live)`pNext, Cells(head, b.live)`pPrev
    ensures Fits(head, b') && b' == b.(order := Drop(b.order, s)) && s !in b'.order
  {
    hide Queue, Sets, Modules, Cells, Chunks;
    InHeap(head, b);
    Unqueue(s, head, b.order, b.live);
    assert unchanged(Chunks(b.live, b.chain));
    b' := b.(order := Drop(b.order, s));
  }

  /** QList_appendNode on the session list. */
  method Enlist(s: MinkHubSession, head: QNode, ghost b: Books) returns (ghost b': Books)
    requires Fits(head, b) && s in b.live && s !in b.order
    modifies Cells(head, b.live)`pNext, Cells(head, b.live)`pPrev
    ensures Fits(head, b') && b' == b.(order := b.order + [s])
  {
    hide Queue, Sets, Modules, Cells, Chunks;
    InHeap(head, b);
    Enqueue(s, head, b.order, b.live);
    assert unchanged(Chunks(b.live, b.chain));
    b' := b.(order := b.order + [s]);
  }

  /** The session's set gets the uids of the list and no others, or what a failure leaves of them. */
  method Reload(s: MinkHubSession, list: seq<Uid>, allocs: nat -> bool, head: QNode, ghost b: Books)
    returns (ok: bool, ghost b': Books)
    requires Fits(head, b) && s in b.live
    modifies Chunks(b.live, b.chain)
    ensures Fits(head, b') && s in b'.uids && Filled(ok, b'.uids[s], list, allocs)
    ensures b' == b.(uids := b.uids[s := b'.uids[s]], chain := b'.chain, used := b'.used)
    ensures forall x :: x in Chunks(b'.live, b'.chain) ==> x in Chunks(b.live, b.chain) || fresh(x)
  {
    hide Queue, Sets, Modules, Cells, Chunks;
    InHeap(head, b);
    SetsOf(b.live, b.chain, b.used, b.uids, s);
    ghost var chain, used, left;
    ok, chain, used, left := Refill(s, list, allocs, b.live, b.chain, b.used, b.uids);
    assert unchanged(Cells(head, b.live));
    b' := b.(uids := b.uids[s := left], chain := chain, used := used);
  }

  /** Object_ASSIGN of the session's module. */
  method Assign(s: MinkHubSession, modObj: Object, head: QNode, ghost b: Books) returns (ghost b': Books)
    requires Fits(head, b) && s in b.live
    modifies s`modObj
    ensures Fits(head, b') && b' == b.(modules := b.modules[s := modObj])
  {
    hide Queue, Sets, Cells, Chunks;
    InHeap(head, b);
    s.modObj := modObj;
    assert unchanged(Cells(head, b.live)) && unchanged(Chunks(b.live, b.chain));
    b' := b.(modules := b.modules[s := modObj]);
  }

  /** The session, off the list, lets go of what it holds. */
  method Forget(s: MinkHubSession, head: QNode, ghost b: Books)
    requires Fits(head, b) && s in b.live && s !in b.order
    modifies s`modObj, s`clientEnv
    ensures Fits(head, Dismissed(b, s)) && Parts(head, Dismissed(b, s)) <= Parts(head, b)
    ensures s.modObj == Null && s.clientEnv == None
  {
    hide Queue, Sets, Modules, Cells, Chunks;
    ghost var d := Dismissed(b, s);
    DismissFits(head, b, s);
    InHeap(head, d);
    s.modObj, s.clientEnv := Null, None;
    assert unchanged(Cells(head, d.live)) && unchanged(Chunks(d.live, d.chain)) && unchanged(d.live`modObj);
  }

  /** The books after a registration, given what is left if memory ran out. */
  ghost function Registered(b: Books, s: MinkHubSession, list: seq<Uid>, modObj: Object, ok: bool, b': Books): Books {
    var d := b.(order := Drop(b.order, s), uids := b.uids[s := list], chain := b'.chain, used := b'.used);
    if ok then d.(order := Drop(b.order, s) + [s], modules := b.modules[s := modObj]) else d
  }

  /** Off the list, the new uids in, and back on the list with the module, if there was memory. */
  method Exchange(s: MinkHubSession, list: seq<Uid>, modObj: Object, allocs: nat -> bool, head: QNode, ghost b: Books)
    returns (ok: bool, ghost b': Books)
    requires Fits(head, b) && s in b.live
    modifies s`modObj, Chunks(b.live, b.chain), Cells(head, b.live)`pNext, Cells(head, b.live)`pPrev
    ensures Fits(head, b') && forall x :: x in Chunks(b'.live, b'.chain) ==> x in Chunks(b.live, b.chain) || fresh(x)
    ensures s in b'.uids && Filled(ok, b'.uids[s], list, allocs) && b' == Registered(b, s, b'.uids[s], modObj, ok, b')
  {
    hide Fits, Filled, Cells, Chunks;
    b' := Unlist(s, head, b);
    ok, b' := Reload(s, list, allocs, head, b');
    if ok {
      b' := Assign(s, modObj, head, b');
      b' := Enlist(s, head, b');
    }
  }

  // ---------------------------------------------------------------- the hub

  class MinkHub {
    var refs: int
    var isValid: bool
    const remoteServer: seq<RemoteConnection>
    const sessionList: QNode
    ghost var books: Books

    ghost function State(): Hub<MinkHubSession>
      reads this
    {
      View(refs, isValid, books)
    }

    ghost predicate Valid()
      reads this, Parts(sessionList, books), books.live`modObj
    {
      && WellFormed(State()) && Fits(sessionList, books)
      && (forall s :: s in books.live ==> s.hub == this)
    }

    /** MinkHub_new */
    constructor (servers: seq<RemoteConnection>)
      ensures Valid() && State() == New() && fresh(Parts(sessionList, books)) && remoteServer == servers
    {
      remoteServer := servers;
      sessionList := new QNode();
      refs, isValid := 1, true;
      books := NOTHING;
      new;
      Construct(sessionList);
      NothingFits(sessionList);
    }

    /** The books are brought up to date. */
    ghost method Rebook(b: Books)
      requires Fits(sessionList, b) && WellFormed(View(refs, isValid, b)) && forall s :: s in b.live ==> s.hub == this
      modifies this`books
      ensures Valid() && books == b
    {
      hide Fits, WellFormed, Cells, Chunks;
      InHeap(sessionList, b);
      books := b;
      assert unchanged(Parts(sessionList, b)) && unchanged(b.live`modObj);
    }

    /** One reference more; the books afterwards are given. */
    method TakeRef(ghost b: Books)
      requires Fits(sessionList, b) && forall s :: s in b.live ==> s.hub == this
      requires WellFormed(View(refs + 1, isValid, b))
      modifies this`refs, this`books
      ensures Valid() && books == b && refs == old(refs) + 1
    {
      hide Fits, WellFormed, Cells, Chunks;
      InHeap(sessionList, b);
      refs := refs + 1;
      assert unchanged(Parts(sessionList, b)) && unchanged(b.live`modObj);
      Rebook(b);
    }

    /** A session more, on the heap. */
    method AddSession() returns (s: MinkHubSession)
      requires Valid() && books.frees == 0 && isValid
      modifies this
      ensures Valid() && fresh(Parts(sessionList, books) - old(Parts(sessionList, books))) && fresh(s)
      ensures State() == Step(old(State()), HubRuns.CreateSession(s))
    {
      hide Fits, WellFormed, Cells, Chunks, IsList, Admitted, Step;
      InHeap(sessionList, books);
      s := new MinkHubSession(this);
      assert unchanged(Parts(sessionList, books)) && unchanged(books.live`modObj);
      AdmitCounts(refs, books, s);
      AdmitFits(sessionList, books, s);
      TakeRef(Admitted(books, s));
    }

    /** MinkHub_createSession; `alloc` is the result of calloc. */
    method CreateSession(alloc: bool) returns (ret: int, session: MinkHubSession?)
      requires Valid() && books.frees == 0
      modifies this
      ensures Valid() && fresh(Parts(sessionList, books) - old(Parts(sessionList, books)))
      ensures ret == if !old(isValid) then -90 else if !alloc then 5 else 0
      ensures ret == OK ==>
                session != null && fresh(session) && State() == Step(old(State()), HubRuns.CreateSession(session))
      ensures ret != OK ==> session == null && State() == old(State())
    {
      hide Valid, Step, Cells, Chunks;
      if !isValid {
        return ERROR_NOT_VALID, null;
      }
      if !alloc {
        return ERROR_MEM, null;
      }
      session := AddSession();
      return OK, session;
    }

    /** _MinkHub_release; the books afterwards are given, but for the count of frees. */
    method ReleaseRef(ghost rest: Books)
      requires Fits(sessionList, rest) && forall s :: s in rest.live ==> s.hub == this
      requires WellFormed(HubRuns.Release(View(refs, isValid, rest)))
      modifies this`refs, this`books
      ensures Valid() && books == rest.(frees := books.frees)
      ensures State() == HubRuns.Release(View(old(refs), isValid, rest))
    {
      hide Fits, WellFormed, Cells, Chunks;
      InHeap(sessionList, rest);
      refs := refs - 1;
      ghost var b := rest.(frees := rest.frees + if refs == 0 then 1 else 0);
      assert unchanged(Parts(sessionList, rest)) && unchanged(rest.live`modObj);
      FitsFrees(sessionList, rest, b.frees);
      Rebook(b);
    }

    /** MinkHub_destroy */
    method Destroy()
      requires Valid() && isValid
      modifies this
      ensures Valid() && State() == Step(old(State()), DestroyHub)
      ensures Parts(sessionList, books) == old(Parts(sessionList, books))
    {
      hide Fits, WellFormed, Cells, Chunks;
      StepKeepsWellFormed(State(), DestroyHub);
      InHeap(sessionList, books);
      isValid := false;
      assert unchanged(Parts(sessionList, books)) && unchanged(books.live`modObj);
      ReleaseRef(books);
    }

    /** The walk of MinkHub_localOpen: which session answers for the uid. */
    method Find(uid: Uid) returns (found: MinkHubSession?)
      requires Valid()
      ensures match Scan(books.order, books.uids, uid)
              case NotValid => false
              case NotFound => found == null
              case Opens(s) => found == s && s in books.live
    {
      hide Queue, Sets, Modules, WellFormed;
      ghost var order := books.order;
      InHeap(sessionList, books);
      WalkStep(sessionList, order, books.live, 0);
      var pNode := sessionList.pNext;
      ghost var i := 0;
      while pNode != sessionList
        invariant i <= |order| && pNode == if i < |order| then order[i].node else sessionList
        invariant Scan(order, books.uids, uid) == Scan(order[i..], books.uids, uid)
        decreases |order| - i
      {
        assert unchanged(Cells(sessionList, books.live)) && unchanged(Chunks(books.live, books.chain));
        WalkStep(sessionList, order, books.live, i);
        var session := pNode.container as MinkHubSession;
        SetsOf(books.live, books.chain, books.used, books.uids, session);
        var hit := Test(session.services, uid, books.chain[session], books.used[session]);
        if hit {
          return session;
        }
        assert order[i..][1..] == order[i + 1..];
        pNode := pNode.pNext;
        i := i + 1;
      }
      assert unchanged(Cells(sessionList, books.live));
      WalkStep(sessionList, order, books.live, i);
      assert order[i..] == [];
      return null;
    }

    /** MinkHub_localOpen. `args` is whether its pointers and the credentials are there, `wrapped` the
        result of wrapping local credentials, `opens` what a module answers. */
    method LocalOpen(args: bool, local: bool, wrapped: int, opens: Object -> Open, uid: Uid)
      returns (ret: int, service: Option<Object>)
      requires Valid()
      ensures if !args then ret == ERROR_INVALID && service == None
              else if !isValid then ret == ERROR_NOT_VALID && service == None
              else if local && wrapped != OK then ret == wrapped && service == None
              else match HubRuns.LocalOpen(State(), uid)
              case NotValid => false
              case NotFound => ret == NOT_FOUND && service == None
              case Opens(s) =>
                && s in books.modules && ret == opens(books.modules[s]).ret
                && service == if ret == OK then Some(opens(books.modules[s]).obj) else None
    {
      hide Queue, Sets, WellFormed, Cells, Chunks;
      if !args { return ERROR_INVALID, None; }
      if !isValid { return ERROR_NOT_VALID, None; }
      if local && wrapped != OK { return wrapped, None; }
      var session := Find(uid);
      if session == null { return NOT_FOUND, None; }
      var answer := opens(session.modObj);
      return answer.ret, if answer.ret == OK then Some(answer.obj) else None;
    }
  }

  /** MinkHub_registerServices */
  method RegisterServices(s: MinkHubSession, list: seq<Uid>, modObj: Object, allocs: nat -> bool) returns (ret: int)
    requires s.hub.Valid() && s in s.hub.books.live
    modifies s.hub, s`modObj, Chunks(s.hub.books.live, s.hub.books.chain)
    modifies Cells(s.hub.sessionList, s.hub.books.live)`pNext, Cells(s.hub.sessionList, s.hub.books.live)`pPrev
    ensures s.hub.Valid()
    ensures fresh(Parts(s.hub.sessionList, s.hub.books) - old(Parts(s.hub.sessionList, s.hub.books)))
    ensures ret == if list == [] || modObj == Null then 2 else if !old(s.hub.isValid) then -90
                   else if FirstFault(list, allocs, 0) < |list| then 5 else 0
    ensures ret == ERROR_MEM ==>
              && s in s.hub.books.uids && Torso(s.hub.books.uids[s], list, FirstFault(list, allocs, 0))
              && s.hub.State() == Step(old(s.hub.State()), RegisterFails(s, list, modObj, s.hub.books.uids[s]))
    ensures ret != ERROR_MEM ==> s.hub.State() == Step(old(s.hub.State()), HubRuns.RegisterServices(s, list, modObj))
  {
    hide Fits, Torso, WellFormed, FirstFault, Cells, Chunks;
    if list == [] || modObj == Null {
      return ERROR_INVALID;
    }
    var hub := s.hub;
    if !hub.isValid {
      return ERROR_NOT_VALID;
    }
    var ok;
    ghost var h, b := hub.State(), hub.books;
    ok, b := Exchange(s, list, modObj, allocs, hub.sessionList, b);
    StepKeepsWellFormed(h, if ok then HubRuns.RegisterServices(s, list, modObj)
                           else RegisterFails(s, list, modObj, b.uids[s]));
    hub.Rebook(b);
    return if ok then OK else ERROR_MEM;
  }

  /** MinkHub_destroySession */
  method DestroySession(s: MinkHubSession)
    requires s.hub.Valid() && s in s.hub.books.live
    modifies s.hub, s`modObj, s`clientEnv
    modifies Cells(s.hub.sessionList, s.hub.books.live)`pNext, Cells(s.hub.sessionList, s.hub.books.live)`pPrev
    ensures s.hub.Valid() && Parts(s.hub.sessionList, s.hub.books) <= old(Parts(s.hub.sessionList, s.hub.books))
    ensures s.hub.State() == Step(old(s.hub.State()), HubRuns.DestroySession(s))
    ensures s.modObj == Null && s.clientEnv == None
  {
    hide Fits, WellFormed, Cells, Chunks, Drop, Modules;
    var hub := s.hub;
    ghost var b := hub.books;
    StepKeepsWellFormed(hub.State(), HubRuns.DestroySession(s));
    b := Unlist(s, hub.sessionList, b);
    Forget(s, hub.sessionList, b);
    hub.ReleaseRef(Dismissed(b, s));
  }

  /** The loop of MinkHub_remoteOpen over the servers. */
  method AskAll(session: MinkHubSession?, servers: seq<RemoteConnection>) returns (ret: int, obj: Object)
    requires Apart(servers)
    modifies servers, (if session != null then {session} else {})`clientEnv
    ensures Apart(servers)
    ensures var (a, env) := FirstAnswer(old(Snapshots(servers)), 0,
                                        if session == null then None else old(session.clientEnv), session != null);
            && ret == a.ret && (ret == OK ==> obj == a.obj)
            && (session != null ==> session.clientEnv == env)
  {
    hide Ask, Kept;
    ghost var all, first := Snapshots(servers), if session == null then None else session.clientEnv;
    for index := 0 to |servers|
      invariant Apart(servers) && forall i :: index <= i < |servers| ==> servers[i].Now() == all[i]
      invariant FirstAnswer(all, 0, first, session != null)
                == FirstAnswer(all, index, if session == null then None else session.clientEnv, session != null)
    {
      var env := if session == null then None else session.clientEnv;
      ret, obj, env := servers[index].OpenService(env);
      if session != null { session.clientEnv := env; }
      if ret != NOT_FOUND { return; }
    }
    return NOT_FOUND, Null;
  }

  /** What the caller gets in *service: nothing is written for bad arguments. */
  datatype Service = Untouched | Written(obj: Object)

  /** MinkHub_remoteOpen. `out` and `cred` are whether there is a place for the service and credentials,
      `wrapped` is the result of wrapping these. */
  method RemoteOpen(hub: MinkHub?, session: MinkHubSession?, out: bool, cred: bool, wrapped: int)
    returns (ret: int, service: Service)
    requires hub != null ==> hub.Valid() && Apart(hub.remoteServer)
    modifies if hub != null then hub.remoteServer else [], (if session != null then {session} else {})`clientEnv
    ensures hub != null ==> hub.Valid() && Apart(hub.remoteServer)
    ensures if hub == null || (session != null && session.hub != hub) || !out || !cred then
              ret == ERROR_INVALID && service == Untouched
            else if !hub.isValid then ret == ERROR_NOT_VALID && service == Written(Null)
            else if wrapped != OK then ret == wrapped && service == Written(Null)
            else
              var (a, env) := FirstAnswer(old(Snapshots(hub.remoteServer)), 0,
                                          if session == null then None else old(session.clientEnv), session != null);
              && ret == a.ret && service == Written(if ret == OK then a.obj else Null)
              && (session != null ==> session.clientEnv == env)
    ensures session != null && (hub == null || session.hub != hub || !out || !cred || !hub.isValid || wrapped != OK)
            ==> session.clientEnv == old(session.clientEnv)
  {
    hide Fits, WellFormed, Cells, Chunks, FirstAnswer;
    if hub == null || (session != null && session.hub != hub) || !out || !cred { return ERROR_INVALID, Untouched; }
    if !hub.isValid { return ERROR_NOT_VALID, Written(Null); }
    if wrapped != OK { return wrapped, Written(Null); }
    var obj;
    InHeap(hub.sessionList, hub.books);
    ret, obj := AskAll(session, hub.remoteServer);
    assert unchanged(hub) && unchanged(Parts(hub.sessionList, hub.books)) && unchanged(hub.books.live`modObj);
    service := Written(if ret == OK then obj else Null);
  }
}
