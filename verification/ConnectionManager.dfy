// Opening a service on the remote servers a hub knows.
// Models libmink/Hub/MinkHub/src/ConnectionManager.c, and the choice among the servers in
// MinkHub_remoteOpen of MinkHub.c.

module ConnectionManagers {
  import opened Mink

  const MAX_RETRY_TIME: nat := 2

  /** What a server does: the outcome of each connect, whether an opener came with it, the result of
      setting up its close notifier; and its answer to each open. QTEE hands out client environments
      instead, and answers opens on one of them. */
  datatype Connect = Connect(conn: bool, opener: bool, notifier: int)
  datatype Open = Open(ret: int, obj: Object)
  datatype Server = Server(connects: nat -> Connect, opens: nat -> Open,
                           envs: nat -> Open, envOpens: (Object, nat) -> Open)

  predicate Down(ret: int) { ret == ERROR_UNAVAIL || ret == ERROR_DEFUNCT }

  predicate Connects(c: Connect) { c.conn && c.opener && c.notifier == OK }

  /** The first answer of at most `tries` opens that does not say the server is down. A connection is
      made for each open, except that the first uses one that is there already; when one cannot be
      made, or all the answers say the server is down, the service is not found. */
  function Answer(server: Server, connects: nat, opens: nat, connected: bool, tries: nat): Open
    decreases tries
  {
    if tries == 0 || (!connected && !Connects(server.connects(connects))) then Open(NOT_FOUND, Null)
    else if !Down(server.opens(opens).ret) then server.opens(opens)
    else Answer(server, if connected then connects else connects + 1, opens + 1, false, tries - 1)
  }

  /** The connections needed for `n` opens can be made. */
  ghost predicate Reconnects(server: Server, connects: nat, connected: bool, n: nat) {
    forall c: nat :: connects <= c < connects + n - (if connected then 1 else 0) ==> Connects(server.connects(c))
  }

  /** Open k is the first that does not find the server down, and there is a connection for it. */
  ghost predicate FirstUp(server: Server, connects: nat, opens: nat, connected: bool, k: nat) {
    && opens <= k && !Down(server.opens(k).ret)
    && (forall j :: opens <= j < k ==> Down(server.opens(j).ret))
    && Reconnects(server, connects, connected, k - opens + 1)
  }

  /** A server that comes up within the tries is reached, and its answer is the answer. */
  lemma {:induction false} UpIsReached(server: Server, connects: nat, opens: nat, connected: bool, tries: nat, k: nat)
    requires FirstUp(server, connects, opens, connected, k) && k < opens + tries
    ensures Answer(server, connects, opens, connected, tries) == server.opens(k)
    decreases tries
  {
    if k > opens {
      UpIsReached(server, if connected then connects else connects + 1, opens + 1, false, tries - 1, k);
    }
  }

  /** The answer never says that the server is down, and anything but not-found is what the server
      itself said, at the first open that found it up. */
  lemma {:induction false} AnswerMeans(server: Server, connects: nat, opens: nat, connected: bool, tries: nat)
    ensures var a := Answer(server, connects, opens, connected, tries);
            && !Down(a.ret)
            && (a.ret != NOT_FOUND ==>
                  exists k: nat :: FirstUp(server, connects, opens, connected, k) && k < opens + tries && server.opens(k) == a)
    decreases tries
  {
    if tries > 0 && (connected || Connects(server.connects(connects))) {
      var a := Answer(server, connects, opens, connected, tries);
      if Down(server.opens(opens).ret) {
        var connects' := if connected then connects else connects + 1;
        AnswerMeans(server, connects', opens + 1, false, tries - 1);
        if a.ret != NOT_FOUND {
          var k: nat :| FirstUp(server, connects', opens + 1, false, k) && k < opens + tries && server.opens(k) == a;
          assert FirstUp(server, connects, opens, connected, k);
        }
      } else {
        assert FirstUp(server, connects, opens, connected, opens);
      }
    }
  }

  /** A server that is down stays down: whatever the connection looked like, nothing is found. */
  lemma {:induction false} DownIsNotFound(server: Server, connects: nat, opens: nat, connected: bool, tries: nat)
    requires forall k :: opens <= k < opens + tries ==> Down(server.opens(k).ret)
    ensures Answer(server, connects, opens, connected, tries).ret == NOT_FOUND
    decreases tries
  {
    if tries > 0 {
      DownIsNotFound(server, if connected then connects else connects + 1, opens + 1, false, tries - 1);
    }
  }

  /** What _openVMService comes to, said in full. `up0` and `up1` are whether there is a connection for
      the first and for the second open. -90 and -96 say that the server is down; then, and only then,
      the connection is given up and the open tried a second time, and that is the last. */
  ghost predicate TwoTries(first: Open, second: Open, up0: bool, up1: bool, ret: int, obj: Object, opens: int, kept: bool) {
    if !up0 then ret == 10 && opens == 0 && !kept
    else if first.ret != -90 && first.ret != -96 then
      ret == first.ret && (ret == 0 ==> obj == first.obj) && opens == 1 && kept
    else if !up1 then ret == 10 && opens == 1 && !kept
    else if second.ret != -90 && second.ret != -96 then
      ret == second.ret && (ret == 0 ==> obj == second.obj) && opens == 2 && kept
    else ret == 10 && opens == 2 && !kept
  }

  // ---------------------------------------------------------------- client environments

  /** The environment an open uses: the one that is there, else a new one if it can be had. */
  function EnvFor(server: Server, fetches: nat, env: Option<Object>): Option<Object> {
    if env.Some? then env
    else if server.envs(fetches).ret == OK then Some(server.envs(fetches).obj)
    else None
  }

  function QteeAnswer(server: Server, fetches: nat, opens: nat, env: Option<Object>): Open {
    var e := EnvFor(server, fetches, env);
    if e.Some? && server.envOpens(e.value, opens).ret == OK then server.envOpens(e.value, opens) else Open(NOT_FOUND, Null)
  }

  /** A connection as it stands. */
  datatype Snapshot = Snapshot(server: Server, qtee: bool, connects: nat, opens: nat, fetches: nat, connected: bool)

  /** What a server answers, given the environment `env`. */
  function Ask(s: Snapshot, env: Option<Object>): Open {
    if s.qtee then QteeAnswer(s.server, s.fetches, s.opens, env)
    else Answer(s.server, s.connects, s.opens, s.connected, MAX_RETRY_TIME)
  }

  /** The environment afterwards. */
  function Kept(s: Snapshot, env: Option<Object>): Option<Object> {
    if s.qtee then EnvFor(s.server, s.fetches, env) else env
  }

  class RemoteConnection {
    const server: Server
    const qtee: bool

    var closeNotifier: bool
    var remoteOpener: bool
    var remoteConn: bool

    // How often the server was connected to, opened on, and asked for an environment.
    var connects: nat
    var opens: nat
    var fetches: nat

    constructor (server: Server, qtee: bool)
      ensures this.server == server && this.qtee == qtee && AllOrNone() && !remoteConn
      ensures connects == opens == fetches == 0
    {
      this.server, this.qtee := server, qtee;
      closeNotifier, remoteOpener, remoteConn, connects, opens, fetches := false, false, false, 0, 0, 0;
    }

    /** Connection, opener and notifier are all there or all gone. */
    predicate AllOrNone()
      reads this
    {
      closeNotifier == remoteOpener == remoteConn
    }

    /** _releaseRemoteConnection */
    method Release()
      modifies this`closeNotifier, this`remoteOpener, this`remoteConn
      ensures AllOrNone() && !remoteConn
    {
      closeNotifier := false;
      remoteOpener := false;
      if remoteConn { remoteConn := false; }
    }

    /** _refreshRemoteConn */
    method Refresh() returns (ret: int)
      requires AllOrNone()
      modifies this`closeNotifier, this`remoteOpener, this`remoteConn, this`connects
      ensures AllOrNone() && remoteConn == (ret == OK)
      ensures var c := server.connects(old(connects));
              ret == OK <==> old(remoteConn) || (c.conn && c.opener && c.notifier == 0)
      ensures connects == old(connects) + if old(remoteConn) then 0 else 1
    {
      ret := OK;
      if !remoteConn {
        var c := server.connects(connects);
        connects := connects + 1;
        remoteConn, remoteOpener := c.conn, c.opener;
        if remoteConn && remoteOpener {
          ret := c.notifier;
          closeNotifier := ret == OK;
        } else {
          ret := ERROR_UNAVAIL;
        }
      }
      if ret != OK { Release(); }
    }

    /** _openVMService */
    method OpenVm() returns (ret: int, obj: Object)
      requires AllOrNone()
      modifies this`closeNotifier, this`remoteOpener, this`remoteConn, this`connects, this`opens
      ensures AllOrNone()
      ensures var a := Answer(server, old(connects), old(opens), old(remoteConn), MAX_RETRY_TIME);
              ret == a.ret && (ret == OK ==> obj == a.obj)
      ensures old(opens) <= opens && ret != -90 && ret != -96
      ensures var up0 := old(remoteConn) || Connects(server.connects(old(connects)));
              var up1 := Connects(server.connects(old(connects) + if old(remoteConn) then 0 else 1));
              TwoTries(server.opens(old(opens)), server.opens(old(opens) + 1), up0, up1,
                       ret, obj, opens - old(opens), remoteConn)
    {
      ret, obj := OK, Null;
      var retry := MAX_RETRY_TIME;
      while retry > 0
        invariant 0 <= retry <= MAX_RETRY_TIME && AllOrNone() && opens == old(opens) + (MAX_RETRY_TIME - retry)
        invariant Answer(server, old(connects), old(opens), old(remoteConn), MAX_RETRY_TIME)
                  == Answer(server, connects, opens, remoteConn, retry)
        invariant retry < MAX_RETRY_TIME ==>
                    && ret == NOT_FOUND && !remoteConn && Down(server.opens(old(opens)).ret)
                    && (old(remoteConn) || Connects(server.connects(old(connects))))
        invariant retry == MAX_RETRY_TIME ==> connects == old(connects) && remoteConn == old(remoteConn)
        invariant retry == 1 ==> connects == old(connects) + if old(remoteConn) then 0 else 1
        invariant retry == 0 ==>
                    && Down(server.opens(old(opens) + 1).ret)
                    && Connects(server.connects(old(connects) + if old(remoteConn) then 0 else 1))
      {
        ret := Refresh();
        if ret != OK { return NOT_FOUND, Null; }
        var answer := server.opens(opens);
        opens := opens + 1;
        ret := answer.ret;
        if !Down(ret) { return ret, answer.obj; }
        ret := NOT_FOUND;
        Release();
        retry := retry - 1;
      }
    }

    /** _openQTEEService. The environment `env` is used when it is there, else one is fetched; without
        one nothing is opened. `env'` is the environment afterwards. Any failure means not found. */
    method OpenQtee(env: Option<Object>) returns (ret: int, obj: Object, env': Option<Object>)
      modifies this`opens, this`fetches
      ensures fetches == old(fetches) + if env.Some? then 0 else 1
      ensures env.Some? ==> env' == env
      ensures env.None? ==> env' == if server.envs(old(fetches)).ret == 0 then Some(server.envs(old(fetches)).obj) else None
      ensures env' == EnvFor(server, old(fetches), env) && opens == old(opens) + (if env'.Some? then 1 else 0)
      ensures ret == 0 || ret == 10
      ensures ret == OK <==> env'.Some? && server.envOpens(env'.value, old(opens)).ret == OK
      ensures ret == OK ==> obj == server.envOpens(env'.value, old(opens)).obj
    {
      ret, obj, env' := NOT_FOUND, Null, env;
      if env'.None? {
        var e := server.envs(fetches);
        fetches := fetches + 1;
        if e.ret != OK { return; }
        env' := Some(e.obj);
      }
      var answer := server.envOpens(env'.value, opens);
      opens := opens + 1;
      ret, obj := if answer.ret == OK then OK else NOT_FOUND, answer.obj;
    }

    function Now(): Snapshot
      reads this
    {
      Snapshot(server, qtee, connects, opens, fetches, remoteConn)
    }

    /** ConnectionManager_open */
    method OpenService(env: Option<Object>) returns (ret: int, obj: Object, env': Option<Object>)
      requires AllOrNone()
      modifies this
      ensures AllOrNone() && env' == Kept(old(Now()), env)
      ensures var a := Ask(old(Now()), env); ret == a.ret && (ret == OK ==> obj == a.obj)
    {
      if qtee {
        ret, obj, env' := OpenQtee(env);
      } else {
        ret, obj := OpenVm();
        env' := env;
      }
    }
  }

  // ---------------------------------------------------------------- all servers in turn

  /** A server in a virtual machine answers as _openVMService does, whatever the environment. */
  lemma VmAnswers(s: Snapshot, env: Option<Object>) returns (opens: nat, kept: bool)
    requires !s.qtee
    ensures var up0 := s.connected || Connects(s.server.connects(s.connects));
            var up1 := Connects(s.server.connects(s.connects + if s.connected then 0 else 1));
            TwoTries(s.server.opens(s.opens), s.server.opens(s.opens + 1), up0, up1,
                     Ask(s, env).ret, Ask(s, env).obj, opens, kept)
    ensures Kept(s, env) == env
  {
    var up0 := s.connected || Connects(s.server.connects(s.connects));
    var connects := s.connects + if s.connected then 0 else 1;
    opens, kept := 0, false;
    if up0 {
      opens, kept := 1, !Down(s.server.opens(s.opens).ret);
      if !kept && Connects(s.server.connects(connects)) {
        assert Ask(s, env) == Answer(s.server, connects, s.opens + 1, false, 1);
        opens, kept := 2, !Down(s.server.opens(s.opens + 1).ret);
      }
    }
  }

  /** QTEE answers on the environment there is, or on a new one, and keeps that. */
  lemma QteeAnswers(s: Snapshot, env: Option<Object>)
    requires s.qtee
    ensures Kept(s, env) == if env.Some? then env
                            else if s.server.envs(s.fetches).ret == 0 then Some(s.server.envs(s.fetches).obj) else None
    ensures var e := Kept(s, env);
            Ask(s, env).ret == if e.Some? && s.server.envOpens(e.value, s.opens).ret == 0 then 0 else 10
    ensures var e := Kept(s, env); Ask(s, env).ret == 0 ==> Ask(s, env).obj == s.server.envOpens(e.value, s.opens).obj
  {
  }

  /** The environment after i servers were asked; without a session there is none to keep. */
  function EnvAt(all: seq<Snapshot>, i: nat, env: Option<Object>, session: bool): Option<Object>
    requires i <= |all|
  {
    if i == 0 || !session then env else Kept(all[i - 1], EnvAt(all, i - 1, env, session))
  }

  /** The first answer other than not-found, from server i on, and the environment then; not-found if
      there is no other. */
  function FirstAnswer(all: seq<Snapshot>, i: nat, env: Option<Object>, session: bool): (Open, Option<Object>)
    requires i <= |all|
    decreases |all| - i
  {
    if i == |all| then (Open(NOT_FOUND, Null), env)
    else
      var env' := if session then Kept(all[i], env) else env;
      if Ask(all[i], env).ret != NOT_FOUND then (Ask(all[i], env), env') else FirstAnswer(all, i + 1, env', session)
  }

  /** Which one that is: each server is asked with the environment the earlier ones left, and the
      session keeps what the last one asked left. */
  lemma {:induction false} FirstAnswerMeans(all: seq<Snapshot>, i: nat, env: Option<Object>, session: bool)
    returns (k: nat)
    requires i <= |all|
    ensures i <= k <= |all|
    ensures forall j :: i <= j < k ==> Ask(all[j], EnvAt(all, j, env, session)).ret == NOT_FOUND
    ensures var (a, env') := FirstAnswer(all, i, EnvAt(all, i, env, session), session);
            if k < |all| then
              && a == Ask(all[k], EnvAt(all, k, env, session)) && a.ret != NOT_FOUND
              && env' == EnvAt(all, k + 1, env, session)
            else a.ret == NOT_FOUND && env' == EnvAt(all, |all|, env, session)
    decreases |all| - i
  {
    if i == |all| || Ask(all[i], EnvAt(all, i, env, session)).ret != NOT_FOUND {
      k := i;
    } else {
      k := FirstAnswerMeans(all, i + 1, env, session);
      assert EnvAt(all, i + 1, env, session)
             == if session then Kept(all[i], EnvAt(all, i, env, session)) else EnvAt(all, i, env, session);
    }
  }

  /** Once a session has an environment, no later server is asked for one. */
  lemma {:induction false} EnvIsKept(all: seq<Snapshot>, i: nat, j: nat, env: Option<Object>)
    requires i <= j <= |all| && EnvAt(all, i, env, true).Some?
    ensures EnvAt(all, j, env, true) == EnvAt(all, i, env, true)
    decreases j
  {
    if i < j { EnvIsKept(all, i, j - 1, env); }
  }

  /** Each server has a connection of its own, whole or gone. */
  ghost predicate Apart(servers: seq<RemoteConnection>)
    reads servers
  {
    && (forall i, j :: 0 <= i < j < |servers| ==> servers[i] != servers[j])
    && (forall i :: 0 <= i < |servers| ==> servers[i].AllOrNone())
  }

  ghost function Snapshots(servers: seq<RemoteConnection>): (r: seq<Snapshot>)
    reads servers
    ensures |r| == |servers| && forall i :: 0 <= i < |r| ==> r[i] == servers[i].Now()
  {
    seq(|servers|, i requires 0 <= i < |servers| reads servers => servers[i].Now())
  }
}
