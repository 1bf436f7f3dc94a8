// Stopping the supplicant's worker threads with a signal that may arrive at any instruction.
// Models libminkadaptor/src/supplicant.c and syscall.S as a machine of single steps.

module Supplicants {

  /** What the receive ioctl returns: a request, -EINTR, or another error. */
  datatype Ret = Ok | Eintr | Fail

  /** Where a worker is. The kill signal is blocked at Start, Checked and Serving. */
  datatype Pc =
    | Start            // about to unblock the signal and receive
    | Gap              // unblocked, not yet in mink_recv_ioctl
    | Ldr              // reads sig_pending
    | Cbnz             // branches on what it read
    | Mov
    | Svc              // about to enter the kernel
    | Kernel           // inside the blocking call
    | Return(ret: Ret) // behind the call
    | Skip
    | Back(ret: Ret)   // returned to tee_call, the signal not yet blocked
    | Checked(ret: Ret)
    | Serving          // has a request in hand
    | Exited

  const RECV_IOCTL := 0
  const RECV_SVC := 12
  const RECV_SKIP := 20

  /** The instruction a signal handler finds in the saved context, as an offset from
      mink_recv_ioctl; -1 stands for any address outside that code. */
  function Address(pc: Pc): int {
    match pc
    case Ldr => RECV_IOCTL
    case Cbnz => 4
    case Mov => 8
    case Svc => RECV_SVC
    case Kernel => 16
    case Return(_) => 16
    case Skip => RECV_SKIP
    case _ => -1
  }

  /** One worker. `w4` is the register Ldr loads; `pending` is the kernel's note that the signal was
      sent but not delivered. The last four record the run: was the kill sent, was it delivered, how
      many requests were finished, and how many when it was sent. */
  datatype Worker = Worker(pc: Pc, w4: bool, sigPending: bool, pending: bool,
                           killed: bool, delivered: bool, served: nat, servedAtKill: nat)

  function Fresh(): Worker { Worker(Start, false, false, false, false, false, 0, 0) }

  predicate Unblocked(pc: Pc) {
    !pc.Start? && !pc.Checked? && !pc.Serving? && !pc.Exited?
  }

  /** supplicant_kill_handler */
  function Handle(w: Worker): Worker {
    var w' := w.(pending := false, delivered := true);
    if RECV_IOCTL <= Address(w.pc) <= RECV_SVC then w'.(pc := Skip) else w'.(sigPending := true)
  }

  /** A signal that is pending when it gets unblocked, or when the kernel returns, is delivered then. */
  function Settle(w: Worker): Worker {
    if w.pending then Handle(w) else w
  }

  /** pthread_kill */
  function Kill(w: Worker): Worker {
    w.(pending := true, killed := true, servedAtKill := w.served)
  }

  /** The worker's own next step. In the kernel `ret` is what the call yields, elsewhere only
      whether serving the request went well. */
  function Advance(w: Worker, ret: Ret): Worker
    requires !w.pc.Exited?
  {
    match w.pc
    case Start => Settle(w.(pc := Gap))
    case Gap => w.(pc := Ldr)
    case Ldr => w.(pc := Cbnz, w4 := w.sigPending)
    case Cbnz => w.(pc := if w.w4 then Skip else Mov)
    case Mov => w.(pc := Svc)
    case Svc => w.(pc := Kernel)
    case Kernel => Settle(w.(pc := Return(ret)))
    case Return(r) => w.(pc := Back(r))
    case Skip => w.(pc := Return(Eintr))
    case Back(r) => w.(pc := Checked(r))
    case Checked(r) => w.(pc := if r.Ok? then Serving else Exited)
    case Serving => w.(pc := if ret.Ok? then Start else Exited, served := w.served + 1)
  }

  /** Only a pending signal makes the kernel report an interruption. */
  predicate CanAdvance(w: Worker, ret: Ret) {
    !w.pc.Exited? && (w.pc.Kernel? && ret.Eintr? ==> w.pending)
  }

  predicate CanDeliver(w: Worker) {
    w.pending && Unblocked(w.pc) && !w.pc.Kernel?
  }

  // ---------------------------------------------------------------- one worker

  /** On the way out: no step can bring another request. */
  predicate Leaving(w: Worker) {
    match w.pc
    case Start => w.sigPending || w.pending
    case Gap => w.sigPending
    case Ldr => w.sigPending
    case Cbnz => w.w4
    case Skip => true
    case Return(r) => !r.Ok?
    case Back(r) => !r.Ok?
    case Checked(r) => !r.Ok?
    case Exited => true
    case _ => false
  }

  /** What holds of every worker of every run. */
  predicate Sound(w: Worker) {
    && (w.killed <==> w.pending || w.delivered)
    && !(w.pending && w.delivered)
    && (w.sigPending ==> w.delivered)
    // once delivered, the worker is leaving or holds its last request
    && (w.delivered ==> Leaving(w) || HasRequest(w.pc))
    && (w.delivered && HasRequest(w.pc) ==> w.sigPending)
    && (!w.delivered ==> !w.w4)
    // and it finishes at most that one
    && (w.killed ==> w.servedAtKill <= w.served <= w.servedAtKill + 1)
    && (w.killed && w.served > w.servedAtKill ==> Leaving(w))
  }

  predicate HasRequest(pc: Pc) {
    match pc
    case Return(r) => r.Ok?
    case Back(r) => r.Ok?
    case Checked(r) => r.Ok?
    case Serving => true
    case _ => false
  }

  lemma AdvanceSound(w: Worker, ret: Ret)
    requires Sound(w) && CanAdvance(w, ret)
    ensures Sound(Advance(w, ret))
  {
  }

  /** The handler turns the worker away from the receive call exactly while it is on the way into it;
      anywhere else it leaves word. */
  lemma HandleSkips(w: Worker)
    ensures var w' := w.(pending := false, delivered := true);
            Handle(w) == if w.pc.Ldr? || w.pc.Cbnz? || w.pc.Mov? || w.pc.Svc? then w'.(pc := Skip)
                         else w'.(sigPending := true)
  {
  }

  lemma HandleSound(w: Worker)
    requires Sound(w) && CanDeliver(w)
    ensures Sound(Handle(w))
  {
  }

  lemma KillSound(w: Worker)
    requires Sound(w) && !w.killed
    ensures Sound(Kill(w))
  {
  }

  /** How far a killed worker is from its exit. */
  function Distance(w: Worker): nat {
    2 * (match w.pc
         case Exited => 0
         case Checked(r) => if r.Ok? then 10 else 1
         case Back(r) => if r.Ok? then 11 else 2
         case Return(r) => if r.Ok? then 12 else 3
         case Skip => 4
         case Cbnz => if w.w4 then 5 else 16
         case Ldr => if w.sigPending then 6 else 17
         case Gap => if w.sigPending then 7 else 18
         case Start => 8
         case Serving => 9
         case Kernel => 13
         case Svc => 14
         case Mov => 15)
    + if w.pending then 1 else 0
  }

  lemma AdvanceCloser(w: Worker, ret: Ret)
    requires Sound(w) && w.killed && CanAdvance(w, ret)
    ensures Advance(w, ret).killed && Distance(Advance(w, ret)) < Distance(w)
  {
  }

  lemma HandleCloser(w: Worker)
    requires Sound(w) && CanDeliver(w)
    ensures Handle(w).killed && Distance(Handle(w)) < Distance(w)
  {
  }

  // ---------------------------------------------------------------- the supplicant and its release

  /** supplicant_release: it kills the started workers in turn, then joins them in turn. */
  datatype Phase = Idle | Killing(next: nat) | Joining(next: nat) | Freed

  /** `started[i]` is whether pthread_create succeeded for worker i. */
  datatype State = State(workers: seq<Worker>, started: seq<bool>, phase: Phase)

  datatype Op = Run(i: nat, ret: Ret) | Deliver(i: nat) | Release

  function Init(started: seq<bool>): State {
    State(seq(|started|, i => Fresh()), started, Idle)
  }

  predicate Legal(st: State, op: Op)
    requires |st.workers| == |st.started|
  {
    match op
    case Run(i, ret) => i < |st.workers| && st.started[i] && CanAdvance(st.workers[i], ret)
    case Deliver(i) => i < |st.workers| && st.started[i] && CanDeliver(st.workers[i])
    case Release =>
      match st.phase
      case Idle => true
      case Killing(_) => true
      // pthread_join returns once the thread is gone
      case Joining(j) => j >= |st.workers| || !st.started[j] || st.workers[j].pc.Exited?
      case Freed => false
  }

  function Step(st: State, op: Op): (st': State)
    requires |st.workers| == |st.started|
    ensures |st'.workers| == |st'.started| && st'.started == st.started
  {
    if !Legal(st, op) then st
    else match op
    case Run(i, ret) => st.(workers := st.workers[i := Advance(st.workers[i], ret)])
    case Deliver(i) => st.(workers := st.workers[i := Handle(st.workers[i])])
    case Release =>
      match st.phase
      case Idle => st.(phase := Killing(0))
      case Killing(i) =>
        if i >= |st.workers| then st.(phase := Joining(0))
        else if st.started[i] then State(st.workers[i := Kill(st.workers[i])], st.started, Killing(i + 1))
        else st.(phase := Killing(i + 1))
      case Joining(j) => st.(phase := if j >= |st.workers| then Freed else Joining(j + 1))
      case Freed => st
  }

  function After(started: seq<bool>, ops: seq<Op>): (st: State)
    ensures |st.workers| == |st.started| && st.started == started
  {
    if ops == [] then Init(started) else Step(After(started, ops[..|ops| - 1]), ops[|ops| - 1])
  }

  /** How many workers have been killed, and joined. */
  predicate PhaseFits(st: State, i: nat)
    requires i < |st.workers| == |st.started| && st.started[i]
  {
    match st.phase
    case Idle => !st.workers[i].killed
    case Killing(n) => st.workers[i].killed <==> i < n
    case Joining(n) => st.workers[i].killed && (i < n ==> st.workers[i].pc.Exited?)
    case Freed => st.workers[i].pc.Exited?
  }

  ghost predicate Inv(st: State) {
    && |st.workers| == |st.started|
    && (forall i :: 0 <= i < |st.workers| && st.started[i] ==> Sound(st.workers[i]) && PhaseFits(st, i))
  }

  lemma StepKeepsInv(st: State, op: Op)
    requires Inv(st)
    ensures Inv(Step(st, op))
  {
    if Legal(st, op) {
      match op
      case Run(i, ret) => AdvanceSound(st.workers[i], ret);
      case Deliver(i) => HandleSound(st.workers[i]);
      case Release =>
        if st.phase.Killing? && st.phase.next < |st.workers| && st.started[st.phase.next] {
          KillSound(st.workers[st.phase.next]);
        }
    }
  }

  lemma {:induction false} RunKeepsInv(started: seq<bool>, ops: seq<Op>)
    ensures Inv(After(started, ops))
  {
    if ops != [] {
      RunKeepsInv(started, ops[..|ops| - 1]);
      StepKeepsInv(After(started, ops[..|ops| - 1]), ops[|ops| - 1]);
    }
  }

  /** In every reachable state, for every worker: once its kill is delivered it is not inside the
      receive call nor about to enter it; if it is inside, the pending kill can wake it; and after
      the kill was sent it finishes at most one more request. */
  lemma KillIsSafe(started: seq<bool>, ops: seq<Op>, i: nat)
    requires i < |started| && started[i]
    ensures var w := After(started, ops).workers[i];
            && (w.delivered ==> !w.pc.Kernel? && !w.pc.Svc? && !w.pc.Mov?)
            && (w.killed && w.pc.Kernel? ==> CanAdvance(w, Eintr))
            && (w.killed ==> w.served <= w.servedAtKill + 1)
  {
    RunKeepsInv(started, ops);
  }

  /** The supplicant is freed only when no worker can use it any more. */
  lemma FreedIsUnused(started: seq<bool>, ops: seq<Op>, i: nat)
    requires i < |started| && started[i] && After(started, ops).phase.Freed?
    ensures After(started, ops).workers[i].pc.Exited?
  {
    RunKeepsInv(started, ops);
  }

  // ---------------------------------------------------------------- every request is served

  /** The step brings worker i a request. */
  predicate Receives(st: State, op: Op, i: nat)
    requires i < |st.workers| == |st.started|
  {
    op == Run(i, Ok) && Legal(st, op) && st.workers[i].pc.Kernel?
  }

  /** How many requests worker i was given. */
  function Received(started: seq<bool>, ops: seq<Op>, i: nat): nat
    requires i < |started|
  {
    if ops == [] then 0
    else
      var before := ops[..|ops| - 1];
      Received(started, before, i) + if Receives(After(started, before), ops[|ops| - 1], i) then 1 else 0
  }

  /** The requests finished and the one in hand. */
  function Taken(w: Worker): nat {
    w.served + if HasRequest(w.pc) then 1 else 0
  }

  lemma HandleTakes(w: Worker)
    ensures Handle(w).served == w.served && (HasRequest(Handle(w).pc) <==> HasRequest(w.pc))
  {
  }

  lemma SettleTakes(w: Worker)
    ensures Settle(w).served == w.served && (HasRequest(Settle(w).pc) <==> HasRequest(w.pc))
  {
    hide Handle, HasRequest;
    HandleTakes(w);
  }

  lemma AdvanceServes(w: Worker, ret: Ret)
    requires CanAdvance(w, ret)
    ensures Advance(w, ret).served == w.served + if w.pc.Serving? then 1 else 0
  {
    hide Settle, HasRequest;
    match w.pc
    case Start => SettleTakes(w.(pc := Gap));
    case Kernel => SettleTakes(w.(pc := Return(ret)));
    case Gap =>
    case Ldr =>
    case Cbnz =>
    case Mov =>
    case Svc =>
    case Return(_) =>
    case Skip =>
    case Back(_) =>
    case Checked(_) =>
    case Serving =>
  }

  lemma AdvanceHas(w: Worker, ret: Ret)
    requires CanAdvance(w, ret)
    ensures HasRequest(Advance(w, ret).pc) <==> (w.pc.Kernel? && ret.Ok?) || (HasRequest(w.pc) && !w.pc.Serving?)
  {
    hide Handle;
    if w.pc.Start? {
      HandleTakes(w.(pc := Gap));
    } else if w.pc.Kernel? {
      HandleTakes(w.(pc := Return(ret)));
    }
  }

  lemma AdvanceTakes(w: Worker, ret: Ret)
    requires CanAdvance(w, ret)
    ensures Taken(Advance(w, ret)) == Taken(w) + if w.pc.Kernel? && ret.Ok? then 1 else 0
  {
    assert w.pc.Serving? ==> HasRequest(w.pc);
    assert w.pc.Kernel? ==> !HasRequest(w.pc);
    hide Advance, HasRequest;
    AdvanceServes(w, ret);
    AdvanceHas(w, ret);
  }

  lemma StepTakes(st: State, op: Op, i: nat)
    requires i < |st.workers| == |st.started| && st.started[i]
    ensures Taken(Step(st, op).workers[i]) == Taken(st.workers[i]) + if Receives(st, op, i) then 1 else 0
  {
    hide Advance, Handle, HasRequest, CanDeliver;
    if Legal(st, op) {
      match op
      case Run(j, ret) => if j == i { AdvanceTakes(st.workers[i], ret); }
      case Deliver(j) => HandleTakes(st.workers[j]);
      case Release =>
    }
  }

  /** No request is thrown away, by a kill or otherwise: in every run, what a worker was given is what
      it finished and the one it has in hand. */
  lemma {:induction false} EveryRequestIsServed(started: seq<bool>, ops: seq<Op>, i: nat)
    requires i < |started| && started[i]
    ensures var w := After(started, ops).workers[i];
            Received(started, ops, i) == w.served + if HasRequest(w.pc) then 1 else 0
  {
    hide Step, Receives;
    if ops != [] {
      EveryRequestIsServed(started, ops[..|ops| - 1], i);
      StepTakes(After(started, ops[..|ops| - 1]), ops[|ops| - 1], i);
    }
  }

  /** The receive call fails for worker i, other than by the kill, or serving its request does. */
  predicate Fails(st: State, op: Op, i: nat)
    requires i < |st.workers| == |st.started|
  {
    && op.Run? && op.i == i && Legal(st, op)
    && ((st.workers[i].pc.Kernel? && op.ret.Fail?) || (st.workers[i].pc.Serving? && !op.ret.Ok?))
  }

  predicate FailsAt(started: seq<bool>, ops: seq<Op>, n: nat, i: nat)
    requires i < |started|
  {
    n < |ops| && Fails(After(started, ops[..n]), ops[n], i)
  }

  lemma AdvanceLeaves(w: Worker, ret: Ret)
    requires Sound(w) && !w.killed && CanAdvance(w, ret)
    ensures Leaving(Advance(w, ret)) <==>
            Leaving(w) || (w.pc.Kernel? && ret.Fail?) || (w.pc.Serving? && !ret.Ok?)
  {
  }

  lemma StepLeaves(st: State, op: Op, i: nat)
    requires Inv(st) && i < |st.workers| && st.started[i] && !Step(st, op).workers[i].killed
    ensures !st.workers[i].killed && (Leaving(Step(st, op).workers[i]) <==> Leaving(st.workers[i]) || Fails(st, op, i))
  {
    if Legal(st, op) && op.Run? && op.i == i {
      AdvanceLeaves(st.workers[i], op.ret);
    }
  }

  lemma FailsBefore(started: seq<bool>, ops: seq<Op>, m: nat, n: nat, i: nat)
    requires n < m <= |ops| && i < |started|
    ensures FailsAt(started, ops[..m], n, i) <==> FailsAt(started, ops, n, i)
  {
    assert ops[..m][..n] == ops[..n];
  }

  /** A worker that was not killed is on its way out, or gone, exactly if it failed. */
  lemma {:induction false} LeavesExactly(started: seq<bool>, ops: seq<Op>, i: nat)
    requires i < |started| && started[i] && !After(started, ops).workers[i].killed
    ensures Leaving(After(started, ops).workers[i]) <==> exists n :: FailsAt(started, ops, n, i)
  {
    if ops != [] {
      var m := |ops| - 1;
      RunKeepsInv(started, ops[..m]);
      StepLeaves(After(started, ops[..m]), ops[m], i);
      LeavesExactly(started, ops[..m], i);
      assert FailsAt(started, ops, m, i) <==> Fails(After(started, ops[..m]), ops[m], i);
      forall n: nat | n < m ensures FailsAt(started, ops[..m], n, i) <==> FailsAt(started, ops, n, i) {
        FailsBefore(started, ops, m, n, i);
      }
    }
  }

  /** The worker after n steps of its own, all of which go well. */
  function Own(w: Worker, n: nat): Worker
    decreases n
  {
    if n == 0 || w.pc.Exited? then w else Own(Advance(w, Ok), n - 1)
  }

  /** Steps from here to the next receive call. */
  function Hops(pc: Pc): nat {
    match pc
    case Return(_) => 10
    case Back(_) => 9
    case Checked(_) => 8
    case Serving => 7
    case Start => 6
    case Gap => 5
    case Ldr => 4
    case Cbnz => 3
    case Mov => 2
    case Svc => 1
    case _ => 0
  }

  lemma {:induction false} OwnReturns(w: Worker)
    requires Sound(w) && !w.killed && !Leaving(w)
    ensures var w' := Own(w, Hops(w.pc)); w'.pc.Kernel? && w'.served == Taken(w)
    decreases Hops(w.pc)
  {
    if !w.pc.Kernel? {
      AdvanceSound(w, Ok);
      AdvanceLeaves(w, Ok);
      AdvanceTakes(w, Ok);
      OwnReturns(Advance(w, Ok));
    }
  }

  /** A worker that was not killed and did not fail finishes its request, if it has one, and asks for the
      next. */
  lemma AsksAgain(started: seq<bool>, ops: seq<Op>, i: nat)
    requires i < |started| && started[i] && !After(started, ops).workers[i].killed
    requires forall n :: !FailsAt(started, ops, n, i)
    ensures var w := After(started, ops).workers[i];
            var w' := Own(w, Hops(w.pc)); w'.pc.Kernel? && w'.served == Received(started, ops, i)
  {
    RunKeepsInv(started, ops);
    LeavesExactly(started, ops, i);
    EveryRequestIsServed(started, ops, i);
    OwnReturns(After(started, ops).workers[i]);
  }

  // ---------------------------------------------------------------- the release comes to an end

  function Distances(workers: seq<Worker>, started: seq<bool>): nat
    requires |workers| == |started|
  {
    if workers == [] then 0
    else (if started[0] then Distance(workers[0]) else 0) + Distances(workers[1..], started[1..])
  }

  lemma {:induction false} DistancesDrop(workers: seq<Worker>, started: seq<bool>, i: nat, w: Worker)
    requires |workers| == |started| && i < |workers| && started[i] && Distance(w) < Distance(workers[i])
    ensures Distances(workers[i := w], started) < Distances(workers, started)
  {
    if i == 0 {
      assert workers[0 := w][1..] == workers[1..];
    } else {
      assert workers[i := w][1..] == workers[1..][i - 1 := w];
      DistancesDrop(workers[1..], started[1..], i - 1, w);
    }
  }

  /** Steps left once every started worker was killed. */
  function Remaining(st: State): nat
    requires |st.workers| == |st.started|
  {
    Distances(st.workers, st.started)
    + match st.phase
      case Joining(j) => (if j > |st.workers| then 0 else |st.workers| - j) + 1
      case _ => 0
  }

  lemma StepWindsDown(st: State, op: Op)
    requires Inv(st) && st.phase.Joining? && Legal(st, op)
    ensures var st' := Step(st, op); (st'.phase.Joining? || st'.phase.Freed?) && Remaining(st') < Remaining(st)
  {
    match op
    case Run(i, ret) =>
      assert PhaseFits(st, i);
      AdvanceCloser(st.workers[i], ret);
      DistancesDrop(st.workers, st.started, i, Advance(st.workers[i], ret));
    case Deliver(i) =>
      assert Sound(st.workers[i]);
      HandleCloser(st.workers[i]);
      DistancesDrop(st.workers, st.started, i, Handle(st.workers[i]));
    case Release =>
  }

  /** A step that does not wait for a request from the TEE: the kernel only gives up. */
  predicate Unaided(st: State, op: Op) {
    op.Run? && op.i < |st.workers| && st.workers[op.i].pc.Kernel? ==> op.ret.Eintr?
  }

  /** Until the supplicant is freed there always is such a step. */
  lemma NeverStuck(st: State)
    requires Inv(st) && !st.phase.Freed?
    ensures exists op :: Legal(st, op) && Unaided(st, op)
    ensures !st.phase.Joining? ==> Legal(st, Release)
  {
    var j := if st.phase.Joining? then st.phase.next else |st.workers|;
    if j < |st.workers| && st.started[j] && !st.workers[j].pc.Exited? {
      assert Sound(st.workers[j]) && PhaseFits(st, j);
      assert Legal(st, Run(j, Eintr)) && Unaided(st, Run(j, Eintr));
    } else {
      assert Legal(st, Release) && Unaided(st, Release);
    }
  }

  predicate LegalRun(st: State, ops: seq<Op>)
    requires |st.workers| == |st.started|
    decreases |ops|
  {
    ops == [] || (Legal(st, ops[0]) && LegalRun(Step(st, ops[0]), ops[1..]))
  }

  function Follow(st: State, ops: seq<Op>): (st': State)
    requires |st.workers| == |st.started|
    ensures |st'.workers| == |st'.started|
    decreases |ops|
  {
    if ops == [] then st else Follow(Step(st, ops[0]), ops[1..])
  }

  lemma NothingAfterFree(st: State, op: Op)
    requires Inv(st) && st.phase.Freed?
    ensures !Legal(st, op)
  {
    if op.Run? && op.i < |st.workers| && st.started[op.i] {
      assert PhaseFits(st, op.i);
    } else if op.Deliver? && op.i < |st.workers| && st.started[op.i] {
      assert PhaseFits(st, op.i);
    }
  }

  /** Once all kills are sent, whatever the workers and the TEE do, the release ends after a bounded
      number of steps: a run of steps is no longer than that, and one that cannot go on without
      help from the TEE has freed the supplicant. */
  lemma {:induction false} ReleaseEnds(st: State, ops: seq<Op>)
    requires Inv(st) && (st.phase.Joining? || st.phase.Freed?) && LegalRun(st, ops)
    ensures |ops| <= Remaining(st)
    ensures (forall op :: Unaided(Follow(st, ops), op) ==> !Legal(Follow(st, ops), op)) ==> Follow(st, ops).phase.Freed?
    decreases |ops|
  {
    if ops == [] {
      if st.phase.Joining? { NeverStuck(st); }
    } else if st.phase.Freed? {
      NothingAfterFree(st, ops[0]);
      assert false;
    } else {
      StepWindsDown(st, ops[0]);
      StepKeepsInv(st, ops[0]);
      ReleaseEnds(Step(st, ops[0]), ops[1..]);
    }
  }

  lemma {:induction false} DistancesBound(workers: seq<Worker>, started: seq<bool>)
    requires |workers| == |started|
    ensures Distances(workers, started) <= 37 * |workers|
  {
    if workers != [] {
      DistancesBound(workers[1..], started[1..]);
    }
  }

  /** The bound depends on the number of workers only. */
  lemma RemainingBound(st: State)
    requires |st.workers| == |st.started|
    ensures Remaining(st) <= 38 * |st.workers| + 1
  {
    DistancesBound(st.workers, st.started);
  }
}
