// RPMB writes: batches of frames go out of a buffer that each batch's result frame lands in.
// Models the write loops of listeners/librpmbservice/rpmb_ufs.c and rpmb_emmc.c.

module RpmbWrites {
  import opened Rpmb

  datatype Kind = Ufs | Emmc

  /** The calls of one transaction. */
  function Transaction(kind: Kind, bytes: seq<Byte>, resp: nat): seq<Call> {
    match kind
    case Ufs => [ToDevice(bytes), ToDevice(ResultFrame()), FromDevice(resp, BLK_SIZE)]
    case Emmc => [Batch(bytes, ResultFrame(), resp)]
  }

  /** What should go out: `k` transactions of `size` bytes each, cut from the request as it came. */
  function WritePlan(kind: Kind, req: seq<Byte>, at: nat, size: nat, resp: nat, k: nat): seq<Call>
    requires at + size * k <= |req|
    decreases k
  {
    if k == 0 then []
    else
      MulStep(size, k);
      Transaction(kind, req[at..at + size], resp) + WritePlan(kind, req, at + size, size, resp, k - 1)
  }

  lemma MulStep(size: nat, k: nat)
    requires k > 0
    ensures size * k == size + size * (k - 1) && size <= size * k
  {
  }

  lemma PlanUnfolds(kind: Kind, req: seq<Byte>, at: nat, size: nat, resp: nat, k: nat)
    requires at + size * k <= |req| && k > 0
    ensures at + size + size * (k - 1) <= |req|
    ensures WritePlan(kind, req, at, size, resp, k)
            == Transaction(kind, req[at..at + size], resp) + WritePlan(kind, req, at + size, size, resp, k - 1)
  {
    hide Transaction;
    MulStep(size, k);
  }

  /** One transaction, cut from the buffer as it is now. */
  function Round(kind: Kind, script: Script, c: nat, buf: seq<Byte>, at: nat, size: nat, resp: nat): (o: Outcome)
    requires at + size <= |buf|
    ensures |o.buf| == |buf|
  {
    Exec(script, c, Transaction(kind, buf[at..at + size], resp), buf)
  }

  /** What does go out: each transaction is cut from the buffer as the earlier ones left it. */
  function Live(kind: Kind, script: Script, c: nat, buf: seq<Byte>, at: nat, size: nat, resp: nat, k: nat): (o: Outcome)
    requires at + size * k <= |buf|
    ensures |o.buf| == |buf|
    decreases k
  {
    if k == 0 then Outcome([], 0, buf)
    else
      MulStep(size, k);
      var o := Round(kind, script, c, buf, at, size, resp);
      if o.ret != 0 then o
      else Then(o.log, Live(kind, script, c + |o.log|, o.buf, at + size, size, resp, k - 1))
  }

  // ---------------------------------------------------------------- when a write succeeds

  /** The device took the call: its status is zero, and for eMMC byte 509 of the result frame as well. */
  predicate Took(kind: Kind, reply: Reply) {
    reply.ret == 0 && (kind.Emmc? ==> reply.data(509) == 0)
  }

  /** How many calls k transactions make: three each for UFS, one for eMMC. */
  function Calls(kind: Kind, k: nat): nat { if kind.Ufs? then 3 * k else k }

  /** The first of the n calls from c on that the device does not take; n if it takes them all. */
  function Refused(kind: Kind, script: Script, c: nat, n: nat): (f: nat)
    ensures f <= n
    decreases n
  {
    if n == 0 || !Took(kind, script(c)) then 0 else 1 + Refused(kind, script, c + 1, n - 1)
  }

  lemma {:induction false} RefusedIsFirst(kind: Kind, script: Script, c: nat, n: nat)
    ensures var f := Refused(kind, script, c, n);
            && (f < n ==> !Took(kind, script(c + f)))
            && forall i :: c <= i < c + f ==> Took(kind, script(i))
    decreases n
  {
    hide Took;
    if n > 0 && Took(kind, script(c)) {
      RefusedIsFirst(kind, script, c + 1, n - 1);
    }
  }

  lemma {:induction false} RefusedSplits(kind: Kind, script: Script, c: nat, a: nat, b: nat)
    ensures var f := Refused(kind, script, c, a);
            Refused(kind, script, c, a + b) == if f < a then f else a + Refused(kind, script, c + a, b)
    decreases a
  {
    hide Took;
    if a > 0 { RefusedSplits(kind, script, c + 1, a - 1, b); }
  }

  /** The outcome of a write whose calls are taken up to call f of n. */
  ghost predicate EndsAt(o: Outcome, script: Script, c: nat, f: nat, n: nat) {
    && (o.ret == 0 <==> f == n) && |o.log| == (if f == n then n else f + 1)
    && (f < n ==> o.ret == if script(c + f).ret != 0 then script(c + f).ret else -1)
  }

  lemma RoundSucceeds(kind: Kind, script: Script, c: nat, buf: seq<Byte>, at: nat, size: nat, resp: nat)
    requires at + size <= |buf|
    ensures var n := Calls(kind, 1);
            EndsAt(Round(kind, script, c, buf, at, size, resp), script, c, Refused(kind, script, c, n), n)
  {
    hide Exec, Refused;
    var calls := Transaction(kind, buf[at..at + size], resp);
    ExecSucceeds(script, c, calls, buf);
    FailureIsRefusal(kind, script, c, buf[at..at + size], resp);
  }

  lemma FailureIsRefusal(kind: Kind, script: Script, c: nat, bytes: seq<Byte>, resp: nat)
    ensures FirstFailure(script, c, Transaction(kind, bytes, resp)) == Refused(kind, script, c, Calls(kind, 1))
    ensures |Transaction(kind, bytes, resp)| == Calls(kind, 1)
  {
    var calls := Transaction(kind, bytes, resp);
    if kind.Ufs? {
      assert calls == [calls[0]] + ([calls[1]] + ([calls[2]] + []));
      FailureCons(script, c, calls[0], [calls[1]] + ([calls[2]] + []));
      FailureCons(script, c + 1, calls[1], [calls[2]] + []);
      FailureCons(script, c + 2, calls[2], []);
      assert Refused(kind, script, c, 3) == if !Took(kind, script(c)) then 0 else 1 + Refused(kind, script, c + 1, 2);
      assert Refused(kind, script, c + 1, 2) == if !Took(kind, script(c + 1)) then 0 else 1 + Refused(kind, script, c + 2, 1);
    } else {
      assert calls == [calls[0]] + [];
      FailureCons(script, c, calls[0], []);
    }
  }

  /** A write succeeds exactly if the device takes all calls of all transactions; else it stops at the
      first that it does not take, with that status, or -1 for a result code. */
  lemma {:induction false} LiveSucceeds(kind: Kind, script: Script, c: nat, buf: seq<Byte>, at: nat, size: nat, resp: nat,
                                        k: nat)
    requires at + size * k <= |buf|
    ensures var n := Calls(kind, k);
            EndsAt(Live(kind, script, c, buf, at, size, resp, k), script, c, Refused(kind, script, c, n), n)
    decreases k
  {
    hide Exec, Round, Refused, Live;
    if k == 0 {
      NothingLive(kind, script, c, buf, at, size, resp);
    } else {
      MulStep(size, k);
      var o := Round(kind, script, c, buf, at, size, resp);
      RoundSucceeds(kind, script, c, buf, at, size, resp);
      RefusedSplits(kind, script, c, Calls(kind, 1), Calls(kind, k - 1));
      LiveIs(kind, script, c, buf, at, size, resp, k);
      if o.ret == 0 {
        LiveSucceeds(kind, script, c + |o.log|, o.buf, at + size, size, resp, k - 1);
      }
    }
  }

  /** The device takes all calls of k transactions. */
  ghost predicate TookAll(kind: Kind, script: Script, c: nat, k: nat) {
    forall i :: c <= i < c + Calls(kind, k) ==> Took(kind, script(i))
  }

  lemma Succeeds(kind: Kind, script: Script, c: nat, buf: seq<Byte>, at: nat, size: nat, resp: nat, k: nat)
    requires at + size * k <= |buf|
    ensures Live(kind, script, c, buf, at, size, resp, k).ret == 0 <==> TookAll(kind, script, c, k)
  {
    hide Live, Refused, Took;
    LiveSucceeds(kind, script, c, buf, at, size, resp, k);
    RefusedIsFirst(kind, script, c, Calls(kind, k));
  }

  lemma NothingLive(kind: Kind, script: Script, c: nat, buf: seq<Byte>, at: nat, size: nat, resp: nat)
    requires at + size * 0 <= |buf|
    ensures Live(kind, script, c, buf, at, size, resp, 0) == Outcome([], 0, buf) && Refused(kind, script, c, 0) == 0
  {
  }

  lemma LiveIs(kind: Kind, script: Script, c: nat, buf: seq<Byte>, at: nat, size: nat, resp: nat, k: nat)
    requires at + size * k <= |buf| && k > 0
    ensures at + size <= |buf| && at + size + size * (k - 1) <= |buf|
    ensures var o := Round(kind, script, c, buf, at, size, resp);
            Live(kind, script, c, buf, at, size, resp, k)
            == if o.ret != 0 then o else Then(o.log, Live(kind, script, c + |o.log|, o.buf, at + size, size, resp, k - 1))
  {
    hide Round;
    MulStep(size, k);
  }

  /** The result frame of the device lands at `resp`, and nothing else changes. */
  ghost predicate Lands(buf': seq<Byte>, buf: seq<Byte>, resp: nat, reply: Reply) {
    && |buf'| == |buf|
    && forall i :: 0 <= i < |buf| ==> buf'[i] == if resp <= i < resp + 512 then reply.data(i - resp) else buf[i]
  }

  lemma FillLands(buf: seq<Byte>, resp: nat, reply: Reply)
    requires reply.ret == 0
    ensures Lands(Fill(buf, resp, BLK_SIZE, reply), buf, resp, reply)
  {
    forall i | 0 <= i < |buf| ensures Fill(buf, resp, BLK_SIZE, reply)[i] == Landed(buf, resp, BLK_SIZE, reply, i) {
    }
  }

  /** Transaction j of a write, as the device gets it: the frames from `from` on, the request for the
      result register, and the frame with the result. */
  ghost predicate Sends(kind: Kind, log: seq<Call>, j: nat, req: seq<Byte>, from: nat, size: nat, resp: nat) {
    && from + size <= |req| && Calls(kind, j + 1) <= |log|
    && match kind
       case Ufs =>
         && log[3 * j] == ToDevice(req[from..from + size])
         && log[3 * j + 1].ToDevice? && AsksResult(log[3 * j + 1].bytes)
         && log[3 * j + 2] == FromDevice(resp, 512)
       case Emmc =>
         log[j].Batch? && log[j].bytes == req[from..from + size] && AsksResult(log[j].request) && log[j].at == resp
  }

  lemma {:induction false} PlanSends(kind: Kind, req: seq<Byte>, at: nat, size: nat, resp: nat, k: nat, j: nat)
    requires at + size * k <= |req| && j < k
    ensures Sends(kind, WritePlan(kind, req, at, size, resp, k), j, req, at + size * j, size, resp)
    decreases k
  {
    hide WritePlan, AsksResult;
    ResultFrameAsks();
    MulStep(size, k);
    PlanUnfolds(kind, req, at, size, resp, k);
    if j > 0 {
      MulStep(size, j);
      PlanSends(kind, req, at + size, size, resp, k - 1, j - 1);
    }
  }

  // ---------------------------------------------------------------- when the two agree

  predicate LandsIn(call: Call, lo: nat, hi: nat) {
    match call
    case ToDevice(_) => true
    case FromDevice(at, size) => lo <= at && at + size <= hi
    case Batch(_, _, at) => lo <= at && at + BLK_SIZE <= hi
  }

  predicate Within(plan: seq<Call>, lo: nat, hi: nat) {
    forall i :: 0 <= i < |plan| ==> LandsIn(plan[i], lo, hi)
  }

  lemma {:induction false} ExecOutside(script: Script, c: nat, plan: seq<Call>, buf: seq<Byte>, lo: nat, hi: nat, i: nat)
    requires Within(plan, lo, hi) && i < |buf| && !(lo <= i < hi)
    ensures Exec(script, c, plan, buf).buf[i] == buf[i]
    decreases |plan|
  {
    if plan != [] {
      ExecOutside(script, c + 1, plan[1..], Effect(plan[0], script(c), buf), lo, hi, i);
    }
  }

  lemma {:induction false} ExecAppend(script: Script, c: nat, a: seq<Call>, b: seq<Call>, buf: seq<Byte>)
    ensures var o := Exec(script, c, a, buf);
            Exec(script, c, a + b, buf)
            == if o.ret != 0 then o else Then(a, Exec(script, c + |a|, b, o.buf))
    decreases |a|
  {
    hide Exec, Effect, Status;
    if a == [] {
      assert a + b == b;
      ExecNothing(script, c, buf);
      ThenNothing(Exec(script, c, b, buf));
    } else {
      var x, t := a[0], a[1..];
      var buf' := Effect(x, script(c), buf);
      assert a == [x] + t && a + b == [x] + (t + b);
      ExecCons(script, c, x, t, buf);
      ExecCons(script, c, x, t + b, buf);
      ExecAppend(script, c + 1, t, b, buf');
      ThenConcat([x], t, Exec(script, c + |a|, b, Exec(script, c + 1, t, buf').buf));
    }
  }

  lemma TransactionWithin(kind: Kind, bytes: seq<Byte>, resp: nat)
    ensures Within(Transaction(kind, bytes, resp), resp, resp + BLK_SIZE)
  {
  }

  /** The frames of later transactions lie behind the result frame, or before it. */
  predicate Clear(at: nat, size: nat, resp: nat, k: nat) {
    k <= 1 || at + size >= resp + BLK_SIZE || at + size * k <= resp
  }

  lemma FirstFrames(req: seq<Byte>, buf: seq<Byte>, at: nat, size: nat, n: nat)
    requires |req| == |buf| && at + size + n <= |buf| && buf[at..at + size + n] == req[at..at + size + n]
    ensures buf[at..at + size] == req[at..at + size]
  {
    assert buf[at..at + size] == buf[at..at + size + n][..size];
    assert req[at..at + size] == req[at..at + size + n][..size];
  }

  lemma LaterFrames(script: Script, c: nat, calls: seq<Call>, req: seq<Byte>, buf: seq<Byte>, at: nat, size: nat,
                    resp: nat, n: nat)
    requires |req| == |buf| && at + size + n <= |buf| && buf[at..at + size + n] == req[at..at + size + n]
    requires n == 0 || at + size >= resp + BLK_SIZE || at + size + n <= resp
    requires Within(calls, resp, resp + BLK_SIZE)
    ensures Exec(script, c, calls, buf).buf[at + size..at + size + n] == req[at + size..at + size + n]
  {
    hide Exec, Within;
    var buf' := Exec(script, c, calls, buf).buf;
    forall i | at + size <= i < at + size + n ensures buf'[i] == req[i] {
      ExecOutside(script, c, calls, buf, resp, resp + BLK_SIZE, i);
      assert buf[i] == buf[at..at + size + n][i - at] == req[at..at + size + n][i - at];
    }
  }

  lemma ClearNext(at: nat, size: nat, resp: nat, k: nat) returns (n: nat)
    requires k > 0 && Clear(at, size, resp, k)
    ensures n == size * (k - 1) && size * k == size + n && Clear(at + size, size, resp, k - 1)
    ensures n == 0 || at + size >= resp + BLK_SIZE || at + size + n <= resp
  {
    n := size * (k - 1);
    MulStep(size, k);
  }

  lemma LiveUnfolds(kind: Kind, script: Script, c: nat, buf: seq<Byte>, at: nat, size: nat, resp: nat, k: nat)
    requires at + size * k <= |buf| && k > 0
    ensures at + size + size * (k - 1) <= |buf|
    ensures var o := Exec(script, c, Transaction(kind, buf[at..at + size], resp), buf);
            Live(kind, script, c, buf, at, size, resp, k)
            == if o.ret != 0 then o else Then(o.log, Live(kind, script, c + |o.log|, o.buf, at + size, size, resp, k - 1))
  {
    hide Exec, Transaction;
    MulStep(size, k);
  }

  lemma LiveNothing(kind: Kind, script: Script, c: nat, req: seq<Byte>, buf: seq<Byte>, at: nat, size: nat, resp: nat)
    requires |req| == |buf| && at + size * 0 <= |buf|
    ensures Live(kind, script, c, buf, at, size, resp, 0) == Exec(script, c, WritePlan(kind, req, at, size, resp, 0), buf)
  {
  }

  lemma LiveFollowsOne(kind: Kind, script: Script, c: nat, req: seq<Byte>, buf: seq<Byte>, at: nat, size: nat, resp: nat,
                       k: nat, calls: seq<Call>, buf': seq<Byte>)
    requires k > 0 && |req| == |buf| && at + size <= at + size * k == at + size + size * (k - 1) <= |buf|
    requires calls == Transaction(kind, buf[at..at + size], resp) == Transaction(kind, req[at..at + size], resp)
    requires buf' == Exec(script, c, calls, buf).buf
    requires Live(kind, script, c + |calls|, buf', at + size, size, resp, k - 1)
             == Exec(script, c + |calls|, WritePlan(kind, req, at + size, size, resp, k - 1), buf')
    ensures Live(kind, script, c, buf, at, size, resp, k)
            == Exec(script, c, WritePlan(kind, req, at, size, resp, k), buf)
  {
    hide Exec, Live, WritePlan, Transaction;
    LiveUnfolds(kind, script, c, buf, at, size, resp, k);
    PlanUnfolds(kind, req, at, size, resp, k);
    ExecAppend(script, c, calls, WritePlan(kind, req, at + size, size, resp, k - 1), buf);
  }

  lemma {:induction false} LiveFollowsPlan(kind: Kind, script: Script, c: nat, req: seq<Byte>, buf: seq<Byte>,
                                           at: nat, size: nat, resp: nat, k: nat)
    requires |req| == |buf| && at + size * k <= |buf| && Clear(at, size, resp, k)
    requires buf[at..at + size * k] == req[at..at + size * k]
    ensures Live(kind, script, c, buf, at, size, resp, k)
            == Exec(script, c, WritePlan(kind, req, at, size, resp, k), buf)
    decreases k
  {
    hide Exec, Live, WritePlan, Transaction, Within, Clear;
    if k == 0 {
      LiveNothing(kind, script, c, req, buf, at, size, resp);
    } else {
      var n := ClearNext(at, size, resp, k);
      FirstFrames(req, buf, at, size, n);
      var calls := Transaction(kind, buf[at..at + size], resp);
      var buf' := Exec(script, c, calls, buf).buf;
      TransactionWithin(kind, buf[at..at + size], resp);
      LaterFrames(script, c, calls, req, buf, at, size, resp, n);
      LiveFollowsPlan(kind, script, c + |calls|, req, buf', at + size, size, resp, k - 1);
      LiveFollowsOne(kind, script, c, req, buf, at, size, resp, k, calls, buf');
    }
  }

  // ---------------------------------------------------------------- and when they do not

  /** A device that reports success and otherwise returns `b` all over. */
  function Painted(b: Byte): Script {
    (c: nat) => Reply(0, 0, (j: nat) => if j == RESULT_LOW then 0 else b)
  }

  lemma PaintedRound(kind: Kind, b: Byte, c: nat, bytes: seq<Byte>, resp: nat, buf: seq<Byte>, i: nat)
    requires resp <= i < resp + BLK_SIZE <= |buf| && i != resp + RESULT_LOW
    ensures var o := Exec(Painted(b), c, Transaction(kind, bytes, resp), buf);
            o.ret == 0 && o.log == Transaction(kind, bytes, resp) && o.buf[i] == b
  {
    var script := Painted(b);
    if kind.Ufs? {
      var back := FromDevice(resp, BLK_SIZE);
      ExecRound(script, c + 1, ToDevice(ResultFrame()), back, [], buf);
      assert [ToDevice(ResultFrame()), back] + [] == Transaction(kind, bytes, resp)[1..];
      assert Fill(buf, resp, BLK_SIZE, script(c + 2))[i] == Landed(buf, resp, BLK_SIZE, script(c + 2), i);
    } else {
      ExecOne(script, c, Batch(bytes, ResultFrame(), resp), buf);
      assert Fill(buf, resp, BLK_SIZE, script(c))[i] == Landed(buf, resp, BLK_SIZE, script(c), i);
    }
  }

  lemma {:induction false} PaintedSucceeds(b: Byte, c: nat, plan: seq<Call>, buf: seq<Byte>)
    ensures Exec(Painted(b), c, plan, buf).ret == 0
    decreases |plan|
  {
    if plan != [] {
      PaintedSucceeds(b, c + 1, plan[1..], Effect(plan[0], Painted(b)(c), buf));
    }
  }

  lemma LiveStep(kind: Kind, script: Script, c: nat, buf: seq<Byte>, at: nat, size: nat, resp: nat, k: nat, o: Outcome)
    returns (rest: Outcome)
    requires at + size * k <= |buf| && k > 0 && at + size <= |buf|
    requires o == Round(kind, script, c, buf, at, size, resp) && o.ret == 0
    ensures at + size + size * (k - 1) <= |buf|
    ensures rest == Live(kind, script, c + |o.log|, o.buf, at + size, size, resp, k - 1)
    ensures Live(kind, script, c, buf, at, size, resp, k) == Then(o.log, rest)
  {
    hide Round, Exec;
    MulStep(size, k);
    rest := Live(kind, script, c + |o.log|, o.buf, at + size, size, resp, k - 1);
  }

  lemma PaintedStep(kind: Kind, b: Byte, c: nat, buf: seq<Byte>, at: nat, size: nat, resp: nat, k: nat, i: nat)
    returns (o: Outcome, rest: Outcome)
    requires at + size * k <= |buf| && k > 0 && resp <= i < resp + BLK_SIZE <= |buf| && i != resp + RESULT_LOW
    ensures at + size + size * (k - 1) <= |buf| == |o.buf| && o.buf[i] == b
    ensures o.log == Transaction(kind, buf[at..at + size], resp)
    ensures rest == Live(kind, Painted(b), c + |o.log|, o.buf, at + size, size, resp, k - 1)
    ensures Live(kind, Painted(b), c, buf, at, size, resp, k).log == o.log + rest.log
  {
    hide Live, Exec, Painted;
    MulStep(size, k);
    PaintedRound(kind, b, c, buf[at..at + size], resp, buf, i);
    o := Round(kind, Painted(b), c, buf, at, size, resp);
    rest := LiveStep(kind, Painted(b), c, buf, at, size, resp, k, o);
  }

  lemma SuffixDiffers(a: seq<Call>, x: seq<Call>, b: seq<Call>, y: seq<Call>)
    requires |a| == |b| && x != y
    ensures a + x != b + y
  {
    assert (a + x)[|a|..] == x && (b + y)[|b|..] == y;
  }

  lemma PrefixDiffers(kind: Kind, bytes: seq<Byte>, bytes': seq<Byte>, resp: nat, x: seq<Call>, y: seq<Call>, i: nat)
    requires i < |bytes| == |bytes'| && bytes[i] != bytes'[i]
    ensures Transaction(kind, bytes, resp) + x != Transaction(kind, bytes', resp) + y
  {
    assert (Transaction(kind, bytes, resp) + x)[0].bytes == bytes;
    assert (Transaction(kind, bytes', resp) + y)[0].bytes == bytes';
  }

  /** Once a byte of the frames still to be sent is painted over, some transaction sends it so. */
  lemma {:induction false} PaintedIsSent(kind: Kind, b: Byte, c: nat, req: seq<Byte>, buf: seq<Byte>, at: nat, size: nat,
                                         resp: nat, k: nat, i: nat)
    requires |req| == |buf| && at + size * k <= |buf| && at <= i < at + size * k && buf[i] == b != req[i]
    requires resp <= i < resp + BLK_SIZE <= |buf| && i != resp + RESULT_LOW
    ensures Live(kind, Painted(b), c, buf, at, size, resp, k).log != WritePlan(kind, req, at, size, resp, k)
    decreases k
  {
    hide Live, Exec, Painted;
    MulStep(size, k);
    var o, rest := PaintedStep(kind, b, c, buf, at, size, resp, k, i);
    var more := WritePlan(kind, req, at + size, size, resp, k - 1);
    if i < at + size {
      PrefixDiffers(kind, buf[at..at + size], req[at..at + size], resp, rest.log, more, i - at);
    } else {
      PaintedIsSent(kind, b, c + |o.log|, req, o.buf, at + size, size, resp, k - 1, i);
      SuffixDiffers(o.log, rest.log, Transaction(kind, req[at..at + size], resp), more);
    }
  }

  /** If frames of a later transaction overlap the result frame, some device makes the host send frames
      that are not those of the request. */
  lemma Clobbered(kind: Kind, c: nat, buf: seq<Byte>, at: nat, size: nat, resp: nat, k: nat) returns (script: Script)
    requires at + size * k <= |buf| && resp + BLK_SIZE <= |buf| && size >= BLK_SIZE
    requires !Clear(at, size, resp, k)
    ensures Live(kind, script, c, buf, at, size, resp, k).log
            != Exec(script, c, WritePlan(kind, buf, at, size, resp, k), buf).log
  {
    hide Live, Exec, Painted, WritePlan;
    MulStep(size, k);
    MulStep(size, k - 1);
    var first := if at + size > resp then at + size else resp;
    var i := if first == resp + RESULT_LOW then first + 1 else first;
    var b: Byte := if buf[i] == 0 then 1 else 0;
    script := Painted(b);
    var o, rest := PaintedStep(kind, b, c, buf, at, size, resp, k, i);
    PaintedIsSent(kind, b, c + |o.log|, buf, o.buf, at + size, size, resp, k - 1, i);
    PlanUnfolds(kind, buf, at, size, resp, k);
    SuffixDiffers(o.log, rest.log, o.log, WritePlan(kind, buf, at + size, size, resp, k - 1));
    PaintedSucceeds(b, c, WritePlan(kind, buf, at, size, resp, k), buf);
  }

  /** The request frames reach the device as they came, whatever the device answers, exactly when no
      frame of a later transaction overlaps the result frame. */
  lemma ClearExactly(kind: Kind, c: nat, buf: seq<Byte>, at: nat, size: nat, resp: nat, k: nat)
    requires at + size * k <= |buf| && resp + BLK_SIZE <= |buf| && size >= BLK_SIZE
    ensures Clear(at, size, resp, k) <==>
            forall script :: Live(kind, script, c, buf, at, size, resp, k).log
                             == Exec(script, c, WritePlan(kind, buf, at, size, resp, k), buf).log
  {
    if Clear(at, size, resp, k) {
      forall script ensures Live(kind, script, c, buf, at, size, resp, k).log
                            == Exec(script, c, WritePlan(kind, buf, at, size, resp, k), buf).log
      {
        LiveFollowsPlan(kind, script, c, buf, buf, at, size, resp, k);
      }
    } else {
      var script := Clobbered(kind, c, buf, at, size, resp, k);
    }
  }

  // ---------------------------------------------------------------- the loops

  ghost predicate Writing(goal: Outcome, kind: Kind, script: Script, log: seq<Call>, c0: nat, at: nat, size: nat,
                             resp: nat, k: nat, buf: seq<Byte>)
  {
    && c0 <= |log| && at + size * k <= |buf|
    && goal == Then(log[c0..], Live(kind, script, |log|, buf, at, size, resp, k))
  }

  lemma WritingStarts(goal: Outcome, kind: Kind, script: Script, log: seq<Call>, at: nat, size: nat, resp: nat, k: nat,
                      buf: seq<Byte>)
    requires at + size * k <= |buf| && goal == Live(kind, script, |log|, buf, at, size, resp, k)
    ensures Writing(goal, kind, script, log, |log|, at, size, resp, k, buf)
  {
    hide Live;
  }

  lemma WritingFails(goal: Outcome, kind: Kind, script: Script, log: seq<Call>, c0: nat, at: nat, size: nat, resp: nat,
                     k: nat, buf: seq<Byte>, o: Outcome)
    requires k > 0 && at + size <= |buf| && Writing(goal, kind, script, log, c0, at, size, resp, k, buf)
    requires o == Round(kind, script, |log|, buf, at, size, resp) && o.ret != 0
    ensures c0 <= |log + o.log| && goal == Outcome((log + o.log)[c0..], o.ret, o.buf)
  {
    hide Round, Exec;
    assert (log + o.log)[c0..] == log[c0..] + o.log;
  }

  lemma WritingGoes(goal: Outcome, kind: Kind, script: Script, log: seq<Call>, c0: nat, at: nat, size: nat, resp: nat,
                    k: nat, buf: seq<Byte>, o: Outcome)
    requires k > 0 && at + size <= |buf| && Writing(goal, kind, script, log, c0, at, size, resp, k, buf)
    requires o == Round(kind, script, |log|, buf, at, size, resp) && o.ret == 0
    ensures Writing(goal, kind, script, log + o.log, c0, at + size, size, resp, k - 1, o.buf)
  {
    hide Live, Round, Exec;
    var rest := LiveStep(kind, script, |log|, buf, at, size, resp, k, o);
    ThenThen(log, c0, o.log, rest);
  }

  lemma WritingEnds(goal: Outcome, kind: Kind, script: Script, log: seq<Call>, c0: nat, at: nat, size: nat, resp: nat,
                    buf: seq<Byte>)
    requires Writing(goal, kind, script, log, c0, at, size, resp, 0, buf)
    ensures c0 <= |log| && goal == Outcome(log[c0..], 0, buf)
  {
  }

  /** How many whole batches there are. */
  function Batches(blks: nat, frames: nat): nat
    requires frames > 0
    decreases blks
  {
    if blks < frames then 0 else 1 + Batches(blks - frames, frames)
  }

  lemma {:induction false} BatchesIsQuotient(blks: nat, frames: nat)
    requires frames > 0
    ensures Batches(blks, frames) == blks / frames
    decreases blks
  {
    if blks >= frames {
      BatchesIsQuotient(blks - frames, frames);
      DivStep(blks - frames, frames);
    }
  }

  function UfsCalls(buf: seq<Byte>, at: nat, size: nat, resp: nat): seq<Call>
    requires at + size <= |buf|
  {
    [ToDevice(buf[at..at + size]), ToDevice(ResultFrame()), FromDevice(resp, BLK_SIZE)]
  }

  lemma UfsRound(script: Script, c: nat, buf: seq<Byte>, at: nat, size: nat, resp: nat)
    requires at + size <= |buf|
    ensures var o, calls := Round(Ufs, script, c, buf, at, size, resp), UfsCalls(buf, at, size, resp);
            && (if script(c).ret != 0 then o == Outcome([calls[0]], script(c).ret, buf)
                else if script(c + 1).ret != 0 then o == Outcome([calls[0], calls[1]], script(c + 1).ret, buf)
                else o == Outcome(calls, script(c + 2).ret, Fill(buf, resp, BLK_SIZE, script(c + 2))))
            && Sends(Ufs, calls, 0, buf, at, size, resp)
  {
    hide Exec, Fill, AsksResult;
    ResultFrameAsks();
    var calls := UfsCalls(buf, at, size, resp);
    assert calls == [calls[0]] + ([calls[1], calls[2]] + []);
    ExecCons(script, c, calls[0], [calls[1], calls[2]] + [], buf);
    ExecRound(script, c + 1, calls[1], calls[2], [], buf);
    ExecNothing(script, c + 3, Fill(buf, resp, BLK_SIZE, script(c + 2)));
  }

  /** Three commands: the frames, the request for the result register, its answer. */
  method UfsTransaction(dev: Device, buf: array<Byte>, at: nat, size: nat, resp: nat) returns (ret: Int32)
    requires at + size <= buf.Length && resp + BLK_SIZE <= buf.Length
    modifies dev, buf
    ensures var o := Round(Ufs, dev.script, |old(dev.log)|, old(buf[..]), at, size, resp);
            dev.log == old(dev.log) + o.log && ret == o.ret && buf[..] == o.buf
    ensures var c := |old(dev.log)|;
            var f := Refused(Ufs, dev.script, c, 3);
            && ret == (if f == 3 then 0 else dev.script(c + f).ret) && |dev.log| == c + (if f == 3 then 3 else f + 1)
            && (ret == 0 ==> Sends(Ufs, dev.log[c..], 0, old(buf[..]), at, size, resp))
            && (ret == 0 ==> Lands(buf[..], old(buf[..]), resp, dev.script(c + 2)))
  {
    hide Round, Refused, Fill, Sends, Lands;
    ghost var c, was := |dev.log|, buf[..];
    assert was[at..at + size] == buf[at..at + size];
    UfsRound(dev.script, c, was, at, size, resp);
    RoundSucceeds(Ufs, dev.script, c, was, at, size, resp);
    ret := dev.Send(buf[at..at + size]);
    if ret != 0 { return; }
    ret := dev.Send(ResultFrame());
    if ret != 0 { return; }
    ret := dev.Receive(buf, resp, BLK_SIZE);
    assert dev.log[c..] == UfsCalls(was, at, size, resp);
    if ret == 0 { FillLands(was, resp, dev.script(c + 2)); }
  }

  /** One ioctl, then a look at the result code it brought. */
  method EmmcTransaction(dev: Device, buf: array<Byte>, at: nat, size: nat, resp: nat) returns (ret: Int32)
    requires at + size <= buf.Length && resp + BLK_SIZE <= buf.Length
    modifies dev, buf
    ensures var o := Round(Emmc, dev.script, |old(dev.log)|, old(buf[..]), at, size, resp);
            dev.log == old(dev.log) + o.log && ret == o.ret && buf[..] == o.buf
    ensures var reply := dev.script(|old(dev.log)|);
            && (reply.ret != 0 ==> ret == reply.ret)
            && (reply.ret == 0 ==>
                  ret == (if buf[resp + 509] == 0 then 0 else -1) && Lands(buf[..], old(buf[..]), resp, reply))
    ensures |dev.log| == |old(dev.log)| + 1 && Sends(Emmc, dev.log[|old(dev.log)|..], 0, old(buf[..]), at, size, resp)
  {
    ghost var c, was := |dev.log|, buf[..];
    ExecOne(dev.script, c, Batch(was[at..at + size], ResultFrame(), resp), was);
    assert was[at..at + size] == buf[at..at + size];
    ResultFrameAsks();
    ret := dev.Multi(buf[at..at + size], buf, resp);
    if ret == 0 {
      FillLands(was, resp, dev.script(c));
      assert buf[..][resp + RESULT_LOW] == Landed(was, resp, BLK_SIZE, dev.script(c), resp + RESULT_LOW);
      var result := buf[resp + RESULT_LOW];
      if result as int >= 0x80 {
        ret := -1;
      } else if result != 0 {
        ret := -1;
      }
    }
  }

  /** rpmb_ufs_write_with_timeout: the frames that do not fill a whole batch stay behind. */
  method UfsWrite(dev: Device, buf: array<Byte>, req: nat, blks: nat, resp: nat, frames: nat, rel: nat, open: Int32)
    returns (ret: Int32, respLen: nat)
    requires open == 0 && frames <= rel ==> frames > 0 && req + BLK_SIZE * frames * Batches(blks, frames) <= buf.Length
    requires resp + BLK_SIZE <= buf.Length
    modifies dev, buf
    ensures old(dev.log) <= dev.log
    ensures open != 0 ==> ret == open && respLen == 0
    ensures open == 0 && frames > rel ==> ret == -1 && respLen == 0
    ensures open != 0 || frames > rel ==> dev.log == old(dev.log) && buf[..] == old(buf[..])
    ensures open == 0 && frames <= rel ==>
              && respLen == BLK_SIZE
              && Outcome(dev.log[|old(dev.log)|..], ret, buf[..])
                 == Live(Ufs, dev.script, |old(dev.log)|, old(buf[..]), req, BLK_SIZE * frames, resp, Batches(blks, frames))
              && (ret == 0 <==> TookAll(Ufs, dev.script, |old(dev.log)|, blks / frames))
  {
    if open != 0 { return open, 0; }
    if frames > rel { return -1, 0; }
    BatchesIsQuotient(blks, frames);
    Succeeds(Ufs, dev.script, |dev.log|, buf[..], req, BLK_SIZE * frames, resp, blks / frames);
    ret := UfsWriteLoop(dev, buf, req, BLK_SIZE * frames, resp, blks / frames);
    respLen := BLK_SIZE;
  }

  method UfsWriteLoop(dev: Device, buf: array<Byte>, req: nat, size: nat, resp: nat, trans: nat) returns (ret: Int32)
    requires req + size * trans <= buf.Length && resp + BLK_SIZE <= buf.Length
    modifies dev, buf
    ensures old(dev.log) <= dev.log
    ensures Outcome(dev.log[|old(dev.log)|..], ret, buf[..])
            == Live(Ufs, dev.script, |old(dev.log)|, old(buf[..]), req, size, resp, trans)
  {
    hide Live, Round, Exec, Writing;
    ghost var c0 := |dev.log|;
    ghost var goal := Live(Ufs, dev.script, c0, buf[..], req, size, resp, trans);
    WritingStarts(goal, Ufs, dev.script, dev.log, req, size, resp, trans, buf[..]);
    var at: nat, i: nat := req, trans;
    ret := 0;
    while i > 0
      invariant old(dev.log) <= dev.log && at + size * i <= buf.Length && ret == 0
      invariant Writing(goal, Ufs, dev.script, dev.log, c0, at, size, resp, i, buf[..])
    {
      MulStep(size, i);
      ghost var log, was, o := dev.log, buf[..], Round(Ufs, dev.script, |dev.log|, buf[..], at, size, resp);
      ret := UfsTransaction(dev, buf, at, size, resp);
      if ret != 0 {
        WritingFails(goal, Ufs, dev.script, log, c0, at, size, resp, i, was, o);
        return;
      }
      WritingGoes(goal, Ufs, dev.script, log, c0, at, size, resp, i, was, o);
      at := at + size;
      i := i - 1;
    }
    WritingEnds(goal, Ufs, dev.script, dev.log, c0, at, size, resp, buf[..]);
  }

  /** rpmb_emmc_write; `alloc` is the result of calloc. */
  method EmmcWrite(dev: Device, buf: array<Byte>, req: nat, blks: nat, resp: nat, frames: nat, alloc: bool)
    returns (ret: Int32, respLen: nat)
    requires frames > 0 && blks % frames == 0 && alloc ==> req + BLK_SIZE * frames * Batches(blks, frames) <= buf.Length
    requires resp + BLK_SIZE <= buf.Length
    modifies dev, buf
    ensures old(dev.log) <= dev.log && respLen == if ret == 0 then BLK_SIZE else 0
    ensures frames == 0 || blks % frames != 0 || !alloc ==>
              ret == -1 && dev.log == old(dev.log) && buf[..] == old(buf[..])
    ensures frames > 0 && blks % frames == 0 && alloc ==>
              && Outcome(dev.log[|old(dev.log)|..], ret, buf[..])
                 == Live(Emmc, dev.script, |old(dev.log)|, old(buf[..]), req, BLK_SIZE * frames, resp, Batches(blks, frames))
              && (ret == 0 <==> TookAll(Emmc, dev.script, |old(dev.log)|, blks / frames))
  {
    if frames == 0 { return -1, 0; }
    if blks % frames != 0 { return -1, 0; }
    if !alloc { return -1, 0; }
    BatchesIsQuotient(blks, frames);
    Succeeds(Emmc, dev.script, |dev.log|, buf[..], req, BLK_SIZE * frames, resp, blks / frames);
    ret := EmmcWriteLoop(dev, buf, req, BLK_SIZE * frames, resp, blks / frames);
    respLen := if ret != 0 then 0 else BLK_SIZE;
  }

  method EmmcWriteLoop(dev: Device, buf: array<Byte>, req: nat, size: nat, resp: nat, trans: nat) returns (ret: Int32)
    requires req + size * trans <= buf.Length && resp + BLK_SIZE <= buf.Length
    modifies dev, buf
    ensures old(dev.log) <= dev.log
    ensures Outcome(dev.log[|old(dev.log)|..], ret, buf[..])
            == Live(Emmc, dev.script, |old(dev.log)|, old(buf[..]), req, size, resp, trans)
  {
    hide Live, Round, Exec, Writing;
    ghost var c0 := |dev.log|;
    ghost var goal := Live(Emmc, dev.script, c0, buf[..], req, size, resp, trans);
    WritingStarts(goal, Emmc, dev.script, dev.log, req, size, resp, trans, buf[..]);
    var at: nat, i: nat := req, 0;
    ret := 0;
    while i < trans
      invariant i <= trans && old(dev.log) <= dev.log && at + size * (trans - i) <= buf.Length && ret == 0
      invariant Writing(goal, Emmc, dev.script, dev.log, c0, at, size, resp, trans - i, buf[..])
    {
      MulStep(size, trans - i);
      ghost var log, was, o := dev.log, buf[..], Round(Emmc, dev.script, |dev.log|, buf[..], at, size, resp);
      ret := EmmcTransaction(dev, buf, at, size, resp);
      if ret != 0 {
        WritingFails(goal, Emmc, dev.script, log, c0, at, size, resp, trans - i, was, o);
        return;
      }
      WritingGoes(goal, Emmc, dev.script, log, c0, at, size, resp, trans - i, was, o);
      at := at + size;
      i := i + 1;
    }
    WritingEnds(goal, Emmc, dev.script, dev.log, c0, at, size, resp, buf[..]);
  }
}
