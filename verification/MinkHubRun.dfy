// Any list of calls on one hub: the heap goes through the run that the calls describe, so what is
// proved of runs holds of the linked lists and the chunks.

module MinkHubClients {
  import opened Mink
  import opened IDSets
  import opened HubRuns
  import opened MinkHubs
  import opened ConnectionManagers

  /** Calls on a hub. A session is named by the number of the command that made it. */
  datatype Command =
    | Create(alloc: bool)
    | Register(i: nat, list: seq<Uid>, mod: Object, allocs: nat -> bool)
    | End(i: nat)
    | Destroy

  type Calls = seq<Op<MinkHubSession>>

  /** The session that command i made lives. */
  ghost predicate Alive(live: set<MinkHubSession>, made: seq<Option<MinkHubSession>>, i: nat) {
    i < |made| && made[i].Some? && made[i].value in live
  }

  /** The call a command comes to in state `h`; none if its session or the hub is gone. */
  ghost predicate Makes(h: Hub<MinkHubSession>, cmd: Command, made: seq<Option<MinkHubSession>>,
                        new': Option<MinkHubSession>, calls: Calls)
  {
    match cmd
    case Create(alloc) =>
      if h.isValid && alloc then new'.Some? && calls == [CreateSession(new'.value)] else new'.None? && calls == []
    case Register(i, list, mod, allocs) =>
      && new'.None?
      && if !Alive(h.live, made, i) then calls == []
         else if !(Accepts(h, list, mod) && FirstFault(list, allocs, 0) < |list|) then
           calls == [HubRuns.RegisterServices(made[i].value, list, mod)]
         else
           && |calls| == 1 && calls[0].RegisterFails? && Torso(calls[0].left, list, FirstFault(list, allocs, 0))
           && calls == [RegisterFails(made[i].value, list, mod, calls[0].left)]
    case End(i) =>
      new'.None? && calls == if Alive(h.live, made, i) then [HubRuns.DestroySession(made[i].value)] else []
    case Destroy => new'.None? && calls == if h.isValid then [DestroyHub] else []
  }

  /** What a client can know of the sessions: which are its own and not ended. */
  ghost predicate Knows(live: set<MinkHubSession>, made: seq<Option<MinkHubSession>>, alive: seq<bool>) {
    && |alive| == |made|
    && (forall i :: 0 <= i < |made| ==> (alive[i] <==> Alive(live, made, i)))
    && (forall i, j :: 0 <= i < j < |made| && made[i].Some? && made[j].Some? ==> made[i].value != made[j].value)
  }

  /** The state after at most one call. */
  ghost function Then(h: Hub<MinkHubSession>, calls: Calls): Hub<MinkHubSession> {
    if calls == [] then h else Step(h, calls[0])
  }

  ghost predicate Allowed(h: Hub<MinkHubSession>, calls: Calls) {
    |calls| <= 1 && (calls == [] || Legal(h, calls[0]))
  }

  /** A hub that has not been freed has references. */
  lemma FreedIsUnreferenced(hub: MinkHub)
    requires hub.Valid()
    ensures hub.refs > 0 <==> hub.books.frees == 0
    ensures hub.isValid ==> hub.refs > 0
  {
  }

  /** The command was carried out, and the client's knowledge is up to date. */
  ghost predicate Done(h: Hub<MinkHubSession>, h': Hub<MinkHubSession>, cmd: Command, made: seq<Option<MinkHubSession>>,
                       new': Option<MinkHubSession>, alive': seq<bool>, calls: Calls)
  {
    h' == Then(h, calls) && Allowed(h, calls) && Makes(h, cmd, made, new', calls) && Knows(h'.live, made + [new'], alive')
  }

  /** A session more, which nobody had before. */
  lemma KnowsNew(live: set<MinkHubSession>, made: seq<Option<MinkHubSession>>, alive: seq<bool>, new': Option<MinkHubSession>)
    requires Knows(live, made, alive) && (new'.Some? ==> new' !in made)
    ensures Knows(live + (if new'.Some? then {new'.value} else {}), made + [new'], alive + [new'.Some?])
  {
  }

  lemma KnowsEnd(live: set<MinkHubSession>, made: seq<Option<MinkHubSession>>, alive: seq<bool>, i: nat)
    requires Knows(live, made, alive) && i < |made| && alive[i]
    ensures Knows(live - {made[i].value}, made + [None], alive[i := false] + [false])
  {
  }

  lemma RegisterDone(h: Hub<MinkHubSession>, h': Hub<MinkHubSession>, cmd: Command, made: seq<Option<MinkHubSession>>,
                     alive: seq<bool>, calls: Calls)
    requires h' == Then(h, calls) && Allowed(h, calls) && Makes(h, cmd, made, None, calls)
    requires h'.live == h.live && Knows(h.live, made, alive)
    ensures Done(h, h', cmd, made, None, alive + [false], calls)
  {
    hide Makes, Then, Allowed, Knows;
    KnowsNew(h.live, made, alive, None);
    assert h.live + {} == h.live;
  }

  lemma KnowsAlive(live: set<MinkHubSession>, made: seq<Option<MinkHubSession>>, alive: seq<bool>, i: nat)
    requires Knows(live, made, alive)
    ensures |alive| == |made| && (i < |made| ==> (alive[i] <==> Alive(live, made, i)))
  {
  }

  method DoCreate(hub: MinkHub, alloc: bool, ghost made: seq<Option<MinkHubSession>>, alive: seq<bool>)
    returns (new': Option<MinkHubSession>, alive': seq<bool>, ghost calls: Calls)
    requires hub.Valid() && Knows(hub.books.live, made, alive)
    modifies hub
    ensures hub.Valid() && fresh(Parts(hub.sessionList, hub.books) - old(Parts(hub.sessionList, hub.books)))
    ensures fresh(hub.books.live - old(hub.books.live)) && (new'.Some? ==> fresh(new'.value))
    ensures Done(old(hub.State()), hub.State(), Create(alloc), made, new', alive', calls)
  {
    hide Fits, WellFormed, Cells, Chunks;
    FreedIsUnreferenced(hub);
    new', calls := None, [];
    if hub.refs > 0 {
      var ret, session := hub.CreateSession(alloc);
      if session != null {
        new', calls := Some(session), [CreateSession(session)];
      }
    }
    alive' := alive + [new'.Some?];
    KnowsNew(old(hub.books.live), made, alive, new');
  }

  method DoRegister(hub: MinkHub, cmd: Command, made: seq<Option<MinkHubSession>>, alive: seq<bool>)
    returns (alive': seq<bool>, ghost calls: Calls)
    requires hub.Valid() && Knows(hub.books.live, made, alive) && cmd.Register?
    modifies hub, Parts(hub.sessionList, hub.books), hub.books.live
    ensures hub.Valid() && fresh(Parts(hub.sessionList, hub.books) - old(Parts(hub.sessionList, hub.books)))
    ensures hub.books.live == old(hub.books.live)
    ensures Done(old(hub.State()), hub.State(), cmd, made, None, alive', calls)
  {
    hide Fits, WellFormed, Cells, Chunks, Torso, FirstFault, Drop, Knows, Done;
    KnowsAlive(hub.books.live, made, alive, cmd.i);
    calls := [];
    if cmd.i < |made| && alive[cmd.i] {
      var s := made[cmd.i].value;
      var ret := MinkHubs.RegisterServices(s, cmd.list, cmd.mod, cmd.allocs);
      calls := if ret == ERROR_MEM then [RegisterFails(s, cmd.list, cmd.mod, hub.books.uids[s])]
               else [HubRuns.RegisterServices(s, cmd.list, cmd.mod)];
    }
    alive' := alive + [false];
    RegisterDone(old(hub.State()), hub.State(), cmd, made, alive, calls);
  }

  method DoEnd(hub: MinkHub, i: nat, made: seq<Option<MinkHubSession>>, alive: seq<bool>)
    returns (alive': seq<bool>, ghost calls: Calls)
    requires hub.Valid() && Knows(hub.books.live, made, alive)
    modifies hub, Parts(hub.sessionList, hub.books), hub.books.live
    ensures hub.Valid() && Parts(hub.sessionList, hub.books) <= old(Parts(hub.sessionList, hub.books))
    ensures hub.books.live <= old(hub.books.live)
    ensures Done(old(hub.State()), hub.State(), End(i), made, None, alive', calls)
  {
    hide Fits, WellFormed, Cells, Chunks;
    KnowsNew(hub.books.live, made, alive, None);
    alive', calls := alive + [false], [];
    if i < |made| && alive[i] {
      KnowsEnd(hub.books.live, made, alive, i);
      MinkHubs.DestroySession(made[i].value);
      alive', calls := alive[i := false] + [false], [HubRuns.DestroySession(made[i].value)];
    }
  }

  method DoDestroy(hub: MinkHub, ghost made: seq<Option<MinkHubSession>>, alive: seq<bool>)
    returns (alive': seq<bool>, ghost calls: Calls)
    requires hub.Valid() && Knows(hub.books.live, made, alive)
    modifies hub
    ensures hub.Valid() && Parts(hub.sessionList, hub.books) == old(Parts(hub.sessionList, hub.books))
    ensures hub.books.live == old(hub.books.live)
    ensures Done(old(hub.State()), hub.State(), Destroy, made, None, alive', calls)
  {
    hide Fits, WellFormed, Cells, Chunks;
    KnowsNew(hub.books.live, made, alive, None);
    alive', calls := alive + [false], [];
    if hub.isValid {
      hub.Destroy();
      calls := [DestroyHub];
    }
  }

  /** One command. */
  method Perform(hub: MinkHub, cmd: Command, made: seq<Option<MinkHubSession>>, alive: seq<bool>)
    returns (new': Option<MinkHubSession>, alive': seq<bool>, ghost calls: Calls)
    requires hub.Valid() && Knows(hub.books.live, made, alive)
    modifies hub, Parts(hub.sessionList, hub.books), hub.books.live
    ensures hub.Valid() && fresh(Parts(hub.sessionList, hub.books) - old(Parts(hub.sessionList, hub.books)))
    ensures fresh(hub.books.live - old(hub.books.live)) && (new'.Some? ==> fresh(new'.value))
    ensures Done(old(hub.State()), hub.State(), cmd, made, new', alive', calls)
  {
    hide Fits, WellFormed, Cells, Chunks;
    new' := None;
    match cmd
    case Create(alloc) => new', alive', calls := DoCreate(hub, alloc, made, alive);
    case Register(_, _, _, _) => alive', calls := DoRegister(hub, cmd, made, alive);
    case End(i) => alive', calls := DoEnd(hub, i, made, alive);
    case Destroy => alive', calls := DoDestroy(hub, made, alive);
  }

  /** All of the hub lies in `own`. */
  ghost predicate Within(hub: MinkHub, own: set<object>)
    reads hub
  {
    hub in own && Parts(hub.sessionList, hub.books) <= own && hub.books.live <= own
  }

  /** The same, with the objects it may touch as one set. */
  method PerformWithin(hub: MinkHub, cmd: Command, made: seq<Option<MinkHubSession>>, alive: seq<bool>, ghost own: set<object>)
    returns (new': Option<MinkHubSession>, alive': seq<bool>, ghost calls: Calls, ghost own': set<object>)
    requires hub.Valid() && Knows(hub.books.live, made, alive) && Within(hub, own)
    modifies own
    ensures hub.Valid() && Within(hub, own') && own <= own' && fresh(own' - own)
    ensures Done(old(hub.State()), hub.State(), cmd, made, new', alive', calls)
  {
    hide Fits, WellFormed, Cells, Chunks;
    new', alive', calls := Perform(hub, cmd, made, alive);
    own' := own + Parts(hub.sessionList, hub.books) + hub.books.live;
  }

  // ---------------------------------------------------------------- whole lists of commands

  ghost function Flat(steps: seq<Calls>): Calls {
    if steps == [] then [] else Flat(steps[..|steps| - 1]) + steps[|steps| - 1]
  }

  /** The calls are those of the commands, one after the other. */
  ghost predicate Follows(cmds: seq<Command>, made: seq<Option<MinkHubSession>>, steps: seq<Calls>) {
    && |made| == |cmds| == |steps|
    && forall n :: 0 <= n < |cmds| ==> Makes(Run(Flat(steps[..n])), cmds[n], made[..n], made[n], steps[n])
  }

  lemma RunSnoc(hist: Calls, calls: Calls)
    requires LegalRun(hist) && Allowed(Run(hist), calls)
    ensures Run(hist + calls) == Then(Run(hist), calls) && LegalRun(hist + calls)
  {
    if calls == [] {
      assert hist + calls == hist;
    } else {
      assert calls == [calls[0]];
      RunOne(hist, calls[0]);
    }
  }

  lemma FollowsSnoc(cmds: seq<Command>, n: nat, made: seq<Option<MinkHubSession>>, steps: seq<Calls>,
                    new': Option<MinkHubSession>, calls: Calls)
    requires n < |cmds| && Follows(cmds[..n], made, steps)
    requires Makes(Run(Flat(steps)), cmds[n], made, new', calls)
    ensures Follows(cmds[..n + 1], made + [new'], steps + [calls]) && Flat(steps + [calls]) == Flat(steps) + calls
  {
    hide Makes, Run;
    var made', steps' := made + [new'], steps + [calls];
    assert steps'[..n] == steps && made'[..n] == made;
    forall m | 0 <= m < n ensures Makes(Run(Flat(steps'[..m])), cmds[..n + 1][m], made'[..m], made'[m], steps'[m]) {
      assert steps'[..m] == steps[..m] && made'[..m] == made[..m] && cmds[..n + 1][m] == cmds[..n][m];
    }
  }

  /** The commands lead to the state `h`. */
  ghost predicate Reached(cmds: seq<Command>, made: seq<Option<MinkHubSession>>, steps: seq<Calls>, h: Hub<MinkHubSession>) {
    Follows(cmds, made, steps) && LegalRun(Flat(steps)) && h == Run(Flat(steps))
  }

  lemma ReachedNext(cmds: seq<Command>, n: nat, made: seq<Option<MinkHubSession>>, steps: seq<Calls>, h: Hub<MinkHubSession>,
                    h': Hub<MinkHubSession>, new': Option<MinkHubSession>, alive': seq<bool>, calls: Calls)
    requires n < |cmds| && Reached(cmds[..n], made, steps, h) && Done(h, h', cmds[n], made, new', alive', calls)
    ensures Reached(cmds[..n + 1], made + [new'], steps + [calls], h')
  {
    FollowsSnoc(cmds, n, made, steps, new', calls);
    RunSnoc(Flat(steps), calls);
  }

  /** Any list of commands on a new hub: the heap ends in the state of the run they make. */
  method Execute(cmds: seq<Command>, servers: seq<RemoteConnection>)
    returns (hub: MinkHub, made: seq<Option<MinkHubSession>>, ghost steps: seq<Calls>)
    ensures hub.Valid() && fresh(hub)
    ensures Reached(cmds, made, steps, hub.State())
  {
    hide Fits, WellFormed, Cells, Chunks;
    hub := new MinkHub(servers);
    var alive := [];
    made, steps := [], [];
    ghost var own: set<object> := {hub} + Parts(hub.sessionList, hub.books);
    for n := 0 to |cmds|
      invariant hub.Valid() && fresh(own) && Within(hub, own)
      invariant Knows(hub.books.live, made, alive) && Reached(cmds[..n], made, steps, hub.State())
    {
      var new';
      ghost var calls, h := [], hub.State();
      new', alive, calls, own := PerformWithin(hub, cmds[n], made, alive, own);
      ReachedNext(cmds, n, made, steps, h, hub.State(), new', alive, calls);
      made, steps := made + [new'], steps + [calls];
    }
    assert cmds[..|cmds|] == cmds;
  }

  /** After any list of commands MinkHub_localOpen, on the heap, opens the module of the oldest current
      registration with the uid, and finds nothing exactly if there is none. */
  method OpenAfter(cmds: seq<Command>, servers: seq<RemoteConnection>, opens: Object -> Open, uid: Uid)
    returns (ret: int, service: Option<Object>, made: seq<Option<MinkHubSession>>, ghost steps: seq<Calls>)
    ensures Reached(cmds, made, steps, Run(Flat(steps)))
    ensures var hist := Flat(steps);
            if DestroyHub in hist then ret == ERROR_NOT_VALID && service == None
            else if forall i: nat :: Current(hist, i) ==> uid !in hist[i].list then
              ret == NOT_FOUND && service == None
            else
              exists i: nat :: OldestWith(hist, i, uid) && ret == opens(hist[i].mod).ret
                               && service == if ret == OK then Some(opens(hist[i].mod).obj) else None
  {
    hide Fits, WellFormed, Cells, Chunks;
    var hub;
    hub, made, steps := Execute(cmds, servers);
    LocalOpenReaches(Flat(steps), uid);
    ValidUntilDestroy(Flat(steps));
    // a hub that is gone cannot be asked
    if !hub.isValid { return ERROR_NOT_VALID, None, made, steps; }
    ret, service := hub.LocalOpen(true, false, OK, opens, uid);
  }
}
