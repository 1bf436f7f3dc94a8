// RPMB transfers: one shared buffer holds the request and receives the response.
// Models listeners/librpmbservice/rpmb_service.c, rpmb_ufs.c and rpmb_emmc.c.

module Rpmb {

  newtype Byte = x: int | 0 <= x < 256

  type Int32 = x: int | -0x8000_0000 <= x < 0x8000_0000

  const BLK_SIZE: nat := 512

  /** sizeof(tz_rpmb_rw_res_t): where response frames start. */
  const HEADER: nat := 20

  /** The low byte of the result field of a frame. */
  const RESULT_LOW: nat := 509

  const ENOMEM := 12

  function ResultByte(i: nat): Byte { if i == 511 then 5 else 0 }

  /** The pre-built request for the result register: all zero but its type, 5. */
  function ResultFrame(): (r: seq<Byte>)
    ensures |r| == BLK_SIZE
  {
    seq(BLK_SIZE, i requires 0 <= i => ResultByte(i))
  }

  /** 512 bytes, all zero but the last, which is 5: "read the result register". */
  ghost predicate AsksResult(frame: seq<Byte>) {
    |frame| == 512 && frame[511] == 5 && forall i :: 0 <= i < 511 ==> frame[i] == 0
  }

  lemma ResultFrameAsks()
    ensures AsksResult(ResultFrame())
  {
  }

  // ---------------------------------------------------------------- the device

  /** What the host asks of the device: take bytes, fill part of the buffer, or, for eMMC, take two
      runs of bytes and fill one frame within a single ioctl. */
  datatype Call =
    | ToDevice(bytes: seq<Byte>)
    | FromDevice(at: nat, size: nat)
    | Batch(bytes: seq<Byte>, request: seq<Byte>, at: nat)

  /** The device's answer to one call. A failed transfer may still have filled `got` bytes. */
  datatype Reply = Reply(ret: Int32, got: nat, data: nat -> Byte)

  type Script = nat -> Reply

  function Got(size: nat, reply: Reply): (n: nat)
    ensures n <= size
  {
    if reply.ret == 0 || reply.got > size then size else reply.got
  }

  function Landed(buf: seq<Byte>, at: nat, size: nat, reply: Reply, i: nat): Byte
    requires i < |buf|
  {
    if at <= i < at + Got(size, reply) then reply.data(i - at) else buf[i]
  }

  function Fill(buf: seq<Byte>, at: nat, size: nat, reply: Reply): (r: seq<Byte>)
    ensures |r| == |buf|
  {
    seq(|buf|, i requires 0 <= i < |buf| => Landed(buf, at, size, reply, i))
  }

  /** What a call does to the buffer. */
  function Effect(call: Call, reply: Reply, buf: seq<Byte>): (r: seq<Byte>)
    ensures |r| == |buf|
  {
    match call
    case ToDevice(_) => buf
    case FromDevice(at, size) => Fill(buf, at, size, reply)
    case Batch(_, _, at) => Fill(buf, at, BLK_SIZE, reply)
  }

  /** The status the host derives: eMMC also fails on a non-zero result code in the frame. */
  function Status(call: Call, reply: Reply): Int32 {
    if reply.ret != 0 then reply.ret
    else if call.Batch? && reply.data(RESULT_LOW) != 0 then -1
    else 0
  }

  datatype Outcome = Outcome(log: seq<Call>, ret: Int32, buf: seq<Byte>)

  function Then(log: seq<Call>, o: Outcome): Outcome {
    o.(log := log + o.log)
  }

  lemma ThenConcat(a: seq<Call>, b: seq<Call>, rest: Outcome)
    ensures Then(a, Then(b, rest)) == Then(a + b, rest)
  {
    assert a + (b + rest.log) == a + b + rest.log;
  }

  lemma ThenNothing(rest: Outcome)
    ensures Then([], rest) == rest
  {
    assert [] + rest.log == rest.log;
  }

  lemma ThenThen(log: seq<Call>, c0: nat, calls: seq<Call>, rest: Outcome)
    requires c0 <= |log|
    ensures Then(log[c0..], Then(calls, rest)) == Then((log + calls)[c0..], rest)
  {
    ThenConcat(log[c0..], calls, rest);
    assert (log + calls)[c0..] == log[c0..] + calls;
  }

  /** Carries out a plan up to the first call that fails. */
  function Exec(script: Script, c: nat, plan: seq<Call>, buf: seq<Byte>): (o: Outcome)
    ensures |o.buf| == |buf| && o.log <= plan
    ensures o.ret == 0 ==> o.log == plan
    decreases |plan|
  {
    if plan == [] then Outcome([], 0, buf)
    else
      var buf', status := Effect(plan[0], script(c), buf), Status(plan[0], script(c));
      if status != 0 then Outcome([plan[0]], status, buf')
      else Then([plan[0]], Exec(script, c + 1, plan[1..], buf'))
  }

  lemma ExecNothing(script: Script, c: nat, buf: seq<Byte>)
    ensures Exec(script, c, [], buf) == Outcome([], 0, buf)
  {
  }

  lemma ExecCons(script: Script, c: nat, call: Call, rest: seq<Call>, buf: seq<Byte>)
    ensures var buf', status := Effect(call, script(c), buf), Status(call, script(c));
            Exec(script, c, [call] + rest, buf)
            == if status != 0 then Outcome([call], status, buf') else Then([call], Exec(script, c + 1, rest, buf'))
  {
    hide Effect, Status;
    assert ([call] + rest)[1..] == rest;
  }

  /** The device did what the call asks; for eMMC the frame it returns says so as well, in byte 509. */
  predicate Done(call: Call, reply: Reply) {
    reply.ret == 0 && (call.Batch? ==> reply.data(509) == 0)
  }

  /** The first call that the device does not carry out; the length of the plan if it does all. */
  function FirstFailure(script: Script, c: nat, plan: seq<Call>): (n: nat)
    ensures n <= |plan|
    decreases |plan|
  {
    if plan == [] || !Done(plan[0], script(c)) then 0 else 1 + FirstFailure(script, c + 1, plan[1..])
  }

  lemma {:induction false} FailureIsFirst(script: Script, c: nat, plan: seq<Call>)
    ensures var n := FirstFailure(script, c, plan);
            && (n < |plan| ==> !Done(plan[n], script(c + n)))
            && forall j :: 0 <= j < n ==> Done(plan[j], script(c + j))
    decreases |plan|
  {
    hide Done;
    if plan != [] {
      var n := FirstFailure(script, c + 1, plan[1..]);
      FailureIsFirst(script, c + 1, plan[1..]);
      forall j | 0 < j <= n ensures Done(plan[j], script(c + j)) {
        assert Done(plan[1..][j - 1], script(c + 1 + (j - 1)));
      }
    }
  }

  lemma NoFailure(script: Script, c: nat)
    ensures FirstFailure(script, c, []) == 0
  {
  }

  lemma FailureCons(script: Script, c: nat, call: Call, rest: seq<Call>)
    ensures FirstFailure(script, c, [call] + rest)
            == if !Done(call, script(c)) then 0 else 1 + FirstFailure(script, c + 1, rest)
  {
    assert ([call] + rest)[1..] == rest;
  }

  lemma StatusOf(call: Call, reply: Reply)
    ensures Status(call, reply) == 0 <==> Done(call, reply)
    ensures !Done(call, reply) ==> Status(call, reply) == if reply.ret != 0 then reply.ret else -1
  {
  }

  /** A plan succeeds exactly if the device does all it asks. Else it ends with the first call that the
      device does not carry out, and with its status, a result code of the frame coming as -1. */
  lemma {:induction false} ExecSucceeds(script: Script, c: nat, plan: seq<Call>, buf: seq<Byte>)
    ensures var o, n := Exec(script, c, plan, buf), FirstFailure(script, c, plan);
            && (o.ret == 0 <==> n == |plan|) && |o.log| == (if n == |plan| then n else n + 1)
            && (n < |plan| ==> o.ret == if script(c + n).ret != 0 then script(c + n).ret else -1)
    decreases |plan|
  {
    hide Exec, FirstFailure, Effect, Status, Done;
    if plan == [] {
      ExecNothing(script, c, buf);
      NoFailure(script, c);
    } else {
      var call, rest := plan[0], plan[1..];
      assert plan == [call] + rest;
      StatusOf(call, script(c));
      ExecCons(script, c, call, rest, buf);
      FailureCons(script, c, call, rest);
      ExecSucceeds(script, c + 1, rest, Effect(call, script(c), buf));
    }
  }

  lemma ExecOne(script: Script, c: nat, call: Call, buf: seq<Byte>)
    ensures Exec(script, c, [call], buf) == Outcome([call], Status(call, script(c)), Effect(call, script(c), buf))
  {
    hide Effect, Status;
  }

  class Device {
    const script: Script
    var log: seq<Call>

    constructor (script: Script)
      ensures this.script == script && log == []
    {
      this.script := script;
      log := [];
    }

    method Put(buf: array<Byte>, at: nat, size: nat, reply: Reply)
      requires at + size <= buf.Length
      modifies buf
      ensures buf[..] == Fill(old(buf[..]), at, size, reply)
    {
      var n := Got(size, reply);
      for j := 0 to n
        invariant forall i :: 0 <= i < buf.Length ==>
                    buf[i] == if at <= i < at + j then reply.data(i - at) else old(buf[i])
      {
        buf[at + j] := reply.data(j);
      }
    }

    /** scsi_bsg_ioctl towards the device */
    method Send(bytes: seq<Byte>) returns (ret: Int32)
      modifies this
      ensures log == old(log) + [ToDevice(bytes)] && ret == script(|old(log)|).ret
    {
      ret := script(|log|).ret;
      log := log + [ToDevice(bytes)];
    }

    /** scsi_bsg_ioctl from the device */
    method Receive(buf: array<Byte>, at: nat, size: nat) returns (ret: Int32)
      requires at + size <= buf.Length
      modifies this, buf
      ensures log == old(log) + [FromDevice(at, size)] && ret == script(|old(log)|).ret
      ensures buf[..] == Fill(old(buf[..]), at, size, script(|old(log)|))
    {
      var reply := script(|log|);
      log := log + [FromDevice(at, size)];
      Put(buf, at, size, reply);
      ret := reply.ret;
    }

    /** The three-command ioctl of the eMMC write */
    method Multi(bytes: seq<Byte>, buf: array<Byte>, at: nat) returns (ret: Int32)
      requires at + BLK_SIZE <= buf.Length
      modifies this, buf
      ensures log == old(log) + [Batch(bytes, ResultFrame(), at)] && ret == script(|old(log)|).ret
      ensures buf[..] == Fill(old(buf[..]), at, BLK_SIZE, script(|old(log)|))
    {
      var reply := script(|log|);
      log := log + [Batch(bytes, ResultFrame(), at)];
      Put(buf, at, BLK_SIZE, reply);
      ret := reply.ret;
    }
  }

  // ---------------------------------------------------------------- what should happen

  function Min(a: nat, b: nat): nat { if a < b then a else b }

  /** One request frame per transfer of at most `rel` blocks, until none is left. */
  function ReadPlan(req: seq<Byte>, at: nat, resp: nat, rel: nat, blks: nat): seq<Call>
    requires rel > 0
    requires at + BLK_SIZE * Transfers(rel, blks) <= |req|
    decreases blks
  {
    if blks == 0 then []
    else
      var n := Min(rel, blks);
      [ToDevice(req[at..at + BLK_SIZE]), FromDevice(resp, BLK_SIZE * n)]
      + ReadPlan(req, at + BLK_SIZE, resp + BLK_SIZE * n, rel, blks - n)
  }

  function Transfers(rel: nat, blks: nat): nat
    requires rel > 0
    decreases blks
  {
    if blks == 0 then 0 else 1 + Transfers(rel, blks - Min(rel, blks))
  }

  /** The division of rpmb_ufs_read computes this count. */
  lemma {:induction false} TransfersIsCeiling(rel: nat, blks: nat)
    requires rel > 0
    ensures Transfers(rel, blks) == blks / rel + if blks % rel == 0 then 0 else 1
    decreases blks
  {
    if blks >= rel {
      TransfersIsCeiling(rel, blks - rel);
      assert blks == (blks - rel) + rel;
      DivStep(blks - rel, rel);
    } else if blks > 0 {
      assert Transfers(rel, 0) == 0;
    }
  }

  lemma DivStep(a: nat, d: nat)
    requires d > 0
    ensures (a + d) / d == a / d + 1 && (a + d) % d == a % d
  {
    var q := a / d;
    assert (q + 1) * d == q * d + d;
    DivUnique(a + d, d, q + 1);
  }

  lemma DivUnique(n: nat, d: nat, q: nat)
    requires q * d <= n < q * d + d
    ensures d > 0 && n / d == q && n % d == n - q * d
  {
    var p := n / d;
    if p < q {
      MulGrows(p + 1, q, d);
    } else if p > q {
      MulGrows(q + 1, p, d);
    }
  }

  lemma MulGrows(a: nat, b: nat, d: nat)
    requires a <= b
    ensures a * d <= b * d
  {
  }

  lemma ReadPlanStep(req: seq<Byte>, at: nat, resp: nat, rel: nat, blks: nat)
    requires rel > 0 && blks > 0
    requires at + BLK_SIZE * Transfers(rel, blks) <= |req|
    ensures var n := Min(rel, blks);
            && 0 < n <= blks && Transfers(rel, blks) == 1 + Transfers(rel, blks - n)
            && at + BLK_SIZE <= |req|
            && ReadPlan(req, at, resp, rel, blks)
               == [ToDevice(req[at..at + BLK_SIZE]), FromDevice(resp, BLK_SIZE * n)]
                  + ReadPlan(req, at + BLK_SIZE, resp + BLK_SIZE * n, rel, blks - n)
  {
  }

  lemma NoPlan(req: seq<Byte>, at: nat, resp: nat, rel: nat)
    requires rel > 0 && at + BLK_SIZE * Transfers(rel, 0) <= |req|
    ensures ReadPlan(req, at, resp, rel, 0) == []
  {
  }

  lemma FirstFrame(req: seq<Byte>, at: nat, copy: seq<Byte>, from: nat, n: nat)
    requires at + BLK_SIZE + n <= |req| && from + BLK_SIZE + n <= |copy|
    requires req[at..at + BLK_SIZE + n] == copy[from..from + BLK_SIZE + n]
    ensures req[at..at + BLK_SIZE] == copy[from..from + BLK_SIZE]
    ensures req[at + BLK_SIZE..at + BLK_SIZE + n] == copy[from + BLK_SIZE..from + BLK_SIZE + n]
  {
    var r, c := req[at..at + BLK_SIZE + n], copy[from..from + BLK_SIZE + n];
    assert req[at..at + BLK_SIZE] == r[..BLK_SIZE] && copy[from..from + BLK_SIZE] == c[..BLK_SIZE];
    assert req[at + BLK_SIZE..at + BLK_SIZE + n] == r[BLK_SIZE..];
    assert copy[from + BLK_SIZE..from + BLK_SIZE + n] == c[BLK_SIZE..];
  }

  /** A plan depends on the request frames only. */
  lemma {:induction false} PlanOfFrames(req: seq<Byte>, at: nat, copy: seq<Byte>, from: nat, resp: nat, rel: nat, blks: nat)
    requires rel > 0
    requires at + BLK_SIZE * Transfers(rel, blks) <= |req|
    requires from + BLK_SIZE * Transfers(rel, blks) <= |copy|
    requires req[at..at + BLK_SIZE * Transfers(rel, blks)] == copy[from..from + BLK_SIZE * Transfers(rel, blks)]
    ensures ReadPlan(req, at, resp, rel, blks) == ReadPlan(copy, from, resp, rel, blks)
    decreases blks
  {
    hide ReadPlan, Transfers;
    if blks == 0 {
      NoPlan(req, at, resp, rel);
      NoPlan(copy, from, resp, rel);
    } else {
      var n := Min(rel, blks);
      ReadPlanStep(req, at, resp, rel, blks);
      ReadPlanStep(copy, from, resp, rel, blks);
      FirstFrame(req, at, copy, from, BLK_SIZE * Transfers(rel, blks - n));
      PlanOfFrames(req, at + BLK_SIZE, copy, from + BLK_SIZE, resp + BLK_SIZE * n, rel, blks - n);
    }
  }

  /** One round of two calls. */
  lemma ExecRound(script: Script, c: nat, out: Call, back: Call, rest: seq<Call>, buf: seq<Byte>)
    requires out.ToDevice? && back.FromDevice?
    ensures var buf', o := Effect(back, script(c + 1), buf), Exec(script, c, [out, back] + rest, buf);
            if script(c).ret != 0 then o == Outcome([out], script(c).ret, buf)
            else if script(c + 1).ret != 0 then o == Outcome([out, back], script(c + 1).ret, buf')
            else o == Then([out, back], Exec(script, c + 2, rest, buf'))
  {
    hide Exec, Fill;
    assert [out, back] + rest == [out] + ([back] + rest);
    ExecCons(script, c, out, [back] + rest, buf);
    ExecCons(script, c + 1, back, rest, buf);
    ThenConcat([out], [back], Exec(script, c + 2, rest, Effect(back, script(c + 1), buf)));
  }

  /** The calls already made, and what is still to come, make up the whole. */
  ghost predicate OnTrack(goal: Outcome, dev: Device, c0: nat, plan: seq<Call>, buf: seq<Byte>)
    reads dev
  {
    c0 <= |dev.log| && goal == Then(dev.log[c0..], Exec(dev.script, |dev.log|, plan, buf))
  }

  ghost predicate Stopped(goal: Outcome, dev: Device, c0: nat, ret: Int32, buf: seq<Byte>)
    reads dev
  {
    c0 <= |dev.log| && goal == Outcome(dev.log[c0..], ret, buf)
  }

  lemma RoundOnTrack(script: Script, log: seq<Call>, c0: nat, goal: Outcome, out: Call, back: Call, rest: seq<Call>,
                     buf: seq<Byte>)
    requires out.ToDevice? && back.FromDevice? && c0 <= |log|
    requires goal == Then(log[c0..], Exec(script, |log|, [out, back] + rest, buf))
    ensures var buf' := Effect(back, script(|log| + 1), buf);
            if script(|log|).ret != 0 then goal == Outcome((log + [out])[c0..], script(|log|).ret, buf)
            else if script(|log| + 1).ret != 0 then
              goal == Outcome((log + [out] + [back])[c0..], script(|log| + 1).ret, buf')
            else goal == Then((log + [out] + [back])[c0..], Exec(script, |log| + 2, rest, buf'))
  {
    hide Exec, Effect;
    ExecRound(script, |log|, out, back, rest, buf);
    assert (log + [out])[c0..] == log[c0..] + [out];
    assert log + [out] + [back] == log + [out, back];
    assert (log + [out, back])[c0..] == log[c0..] + [out, back];
    ThenThen(log, c0, [out, back], Exec(script, |log| + 2, rest, Effect(back, script(|log| + 1), buf)));
  }

  /** The body of the loop: one request frame out, then its blocks back. */
  method UfsReadRound(dev: Device, src: array<Byte>, off: nat, buf: array<Byte>, at: nat, size: nat,
                      ghost goal: Outcome, ghost c0: nat, ghost rest: seq<Call>) returns (ret: Int32)
    requires off + BLK_SIZE <= src.Length && at + size <= buf.Length
    requires OnTrack(goal, dev, c0, [ToDevice(src[off..off + BLK_SIZE]), FromDevice(at, size)] + rest, buf[..])
    modifies dev, buf
    ensures old(dev.log) <= dev.log
    ensures if ret == 0 then OnTrack(goal, dev, c0, rest, buf[..]) else Stopped(goal, dev, c0, ret, buf[..])
  {
    hide Exec, Fill;
    RoundOnTrack(dev.script, dev.log, c0, goal, ToDevice(src[off..off + BLK_SIZE]), FromDevice(at, size), rest, buf[..]);
    ret := dev.Send(src[off..off + BLK_SIZE]);
    if ret != 0 { return; }
    ret := dev.Receive(buf, at, size);
  }

  /** What is left of a read: `rem` blocks, to land from `at` on. */
  ghost predicate Reading(goal: Outcome, dev: Device, c0: nat, req: seq<Byte>, off: nat, at: nat, rel: nat, rem: nat,
                          buf: seq<Byte>)
    reads dev
  {
    && rel > 0 && off + BLK_SIZE * Transfers(rel, rem) <= |req| && at + BLK_SIZE * rem <= |buf|
    && OnTrack(goal, dev, c0, ReadPlan(req, off, at, rel, rem), buf)
  }

  /** One transfer of rpmb_ufs_read: its size, the two commands, and the advance to the next. */
  method UfsReadTransfer(dev: Device, src: array<Byte>, off: nat, buf: array<Byte>, at: nat, rem: nat, rel: nat,
                         ghost goal: Outcome, ghost c0: nat, ghost req: seq<Byte>)
    returns (ret: Int32, off': nat, at': nat, rem': nat)
    requires rel > 0 && rem > 0 && src[..] == req && at + BLK_SIZE * rem <= buf.Length
    requires Reading(goal, dev, c0, req, off, at, rel, rem, buf[..])
    modifies dev, buf
    ensures old(dev.log) <= dev.log
    ensures off' == off + BLK_SIZE && rem' == rem - Min(rel, rem) && at' == at + BLK_SIZE * Min(rel, rem)
    ensures if ret == 0 then Reading(goal, dev, c0, req, off', at', rel, rem', buf[..])
            else Stopped(goal, dev, c0, ret, buf[..])
  {
    var temp := rem;
    if 0 < rem <= rel {
      temp := rem;
    } else if rem > rel {
      temp := rel;
    } else {
      assert false;
    }
    ReadPlanStep(req, off, at, rel, rem);
    off', at', rem' := off + BLK_SIZE, at + BLK_SIZE * temp, rem - temp;
    ret := UfsReadRound(dev, src, off, buf, at, BLK_SIZE * temp, goal, c0, ReadPlan(req, off', at', rel, rem'));
  }

  lemma ReadingEnds(goal: Outcome, dev: Device, c0: nat, req: seq<Byte>, off: nat, at: nat, rel: nat, rem: nat,
                    buf: seq<Byte>)
    requires Reading(goal, dev, c0, req, off, at, rel, rem, buf) && Transfers(rel, rem) == 0
    ensures Stopped(goal, dev, c0, 0, buf)
  {
  }

  lemma TransfersPositive(rel: nat, blks: nat)
    requires rel > 0 && Transfers(rel, blks) > 0
    ensures blks > 0 && Transfers(rel, blks - Min(rel, blks)) == Transfers(rel, blks) - 1
  {
  }

  /** The loop of rpmb_ufs_read. Frames come from `src`, which is the shared buffer itself only
      when there is a single transfer. */
  method UfsReadLoop(dev: Device, src: array<Byte>, from: nat, buf: array<Byte>, resp: nat, blks: nat, rel: nat,
                     trans: nat) returns (ret: Int32)
    requires rel > 0 && trans == Transfers(rel, blks) && (src == buf ==> trans <= 1)
    requires from + BLK_SIZE * trans <= src.Length && resp + BLK_SIZE * blks <= buf.Length
    modifies dev, buf
    ensures old(dev.log) <= dev.log
    ensures Stopped(Exec(dev.script, |old(dev.log)|, ReadPlan(old(src[..]), from, resp, rel, blks), old(buf[..])),
                    dev, |old(dev.log)|, ret, buf[..])
  {
    hide Transfers, ReadPlan, Exec;
    var i: nat, off: nat, at: nat, rem: nat := 0, from, resp, blks;
    ghost var req, c0 := src[..], |dev.log|;
    ghost var goal := Exec(dev.script, c0, ReadPlan(req, from, resp, rel, blks), buf[..]);
    ret := 0;
    while i < trans
      invariant 0 <= i <= trans && trans - i == Transfers(rel, rem)
      invariant at + BLK_SIZE * rem <= buf.Length
      invariant src != buf || i == 0 ==> src[..] == req
      invariant ret == 0 && old(dev.log) <= dev.log
      invariant Reading(goal, dev, c0, req, off, at, rel, rem, buf[..])
    {
      TransfersPositive(rel, rem);
      ret, off, at, rem := UfsReadTransfer(dev, src, off, buf, at, rem, rel, goal, c0, req);
      if ret != 0 { break; }
      i := i + 1;
    }
    if ret == 0 {
      ReadingEnds(goal, dev, c0, req, off, at, rel, rem, buf[..]);
    }
  }

  /** rpmb_ufs_read: whatever the device answers, it sees the request frames as they were on entry.
      `alloc` and `open` are the results of malloc and of opening the device. */
  method UfsRead(dev: Device, buf: array<Byte>, req: nat, blks: nat, resp: nat, rel: nat, alloc: bool, open: Int32)
    returns (ret: Int32, respLen: nat)
    requires rel > 0 && req + BLK_SIZE * Transfers(rel, blks) <= buf.Length && resp + BLK_SIZE * blks <= buf.Length
    modifies dev, buf
    ensures old(dev.log) <= dev.log
    ensures blks > rel && !alloc ==> ret == -12 && respLen == 0
    ensures blks <= rel || alloc ==> respLen == BLK_SIZE * blks && (open != 0 ==> ret == open)
    ensures (blks > rel && !alloc) || open != 0 ==> dev.log == old(dev.log) && buf[..] == old(buf[..])
    ensures (blks <= rel || alloc) && open == 0 ==>
              Stopped(Exec(dev.script, |old(dev.log)|, ReadPlan(old(buf[..]), req, resp, rel, blks), old(buf[..])),
                      dev, |old(dev.log)|, ret, buf[..])
  {
    var trans := blks / rel;
    if blks % rel != 0 { trans := trans + 1; }
    TransfersIsCeiling(rel, blks);
    ManyTransfers(rel, blks);
    var src, from := buf, req;
    if trans > 1 {
      if !alloc { return -ENOMEM, 0; }
      src := Copy(buf, req, BLK_SIZE * trans);
      from := 0;
      PlanOfFrames(buf[..], req, src[..], 0, resp, rel, blks);
    }
    respLen := BLK_SIZE * blks;
    if open != 0 { return open, respLen; }
    ret := UfsReadLoop(dev, src, from, buf, resp, blks, rel, trans);
  }

  lemma ManyTransfers(rel: nat, blks: nat)
    requires rel > 0
    ensures Transfers(rel, blks) > 1 <==> blks > rel
  {
    if blks > rel {
      assert Transfers(rel, blks - rel) == 1 + Transfers(rel, blks - rel - Min(rel, blks - rel));
    } else if blks > 0 {
      assert Transfers(rel, 0) == 0;
    }
  }

  method Copy(buf: array<Byte>, at: nat, size: nat) returns (copy: array<Byte>)
    requires at + size <= buf.Length
    ensures fresh(copy) && copy[..] == buf[at..at + size]
  {
    copy := new Byte[size](i requires 0 <= i < size reads buf => buf[at + i]);
  }

  // ---------------------------------------------------------------- where a read lands

  function Bytes(reply: Reply, size: nat): (r: seq<Byte>)
    ensures |r| == size && forall j :: 0 <= j < size ==> r[j] == reply.data(j)
  {
    seq(size, j requires 0 <= j < size => reply.data(j))
  }

  /** Every byte the device returns, in order. */
  function Landing(script: Script, c: nat, rel: nat, blks: nat): (r: seq<Byte>)
    requires rel > 0
    ensures |r| == BLK_SIZE * blks
    decreases blks
  {
    if blks == 0 then []
    else
      var n := Min(rel, blks);
      Bytes(script(c + 1), BLK_SIZE * n) + Landing(script, c + 2, rel, blks - n)
  }

  lemma FirstTransfer(script: Script, c: nat, req: seq<Byte>, at: nat, resp: nat, rel: nat, blks: nat, buf: seq<Byte>)
    requires rel > 0 && blks > 0 && at + BLK_SIZE * Transfers(rel, blks) <= |req|
    ensures var n := Min(rel, blks);
            var o := Exec(script, c, ReadPlan(req, at, resp, rel, blks), buf);
            var buf' := Fill(buf, resp, BLK_SIZE * n, script(c + 1));
            var o' := Exec(script, c + 2, ReadPlan(req, at + BLK_SIZE, resp + BLK_SIZE * n, rel, blks - n), buf');
            o.ret == 0 ==> script(c + 1).ret == 0 && o'.ret == 0 && o.buf == o'.buf
  {
    var n := Min(rel, blks);
    var out, back := ToDevice(req[at..at + BLK_SIZE]), FromDevice(resp, BLK_SIZE * n);
    ReadPlanStep(req, at, resp, rel, blks);
    ExecRound(script, c, out, back, ReadPlan(req, at + BLK_SIZE, resp + BLK_SIZE * n, rel, blks - n), buf);
  }

  /** The byte at `i` after a read of `blks` blocks to `resp`. */
  function Tile(script: Script, c: nat, resp: nat, rel: nat, blks: nat, buf: seq<Byte>, i: nat): Byte
    requires rel > 0 && i < |buf|
  {
    if resp <= i < resp + BLK_SIZE * blks then Landing(script, c, rel, blks)[i - resp] else buf[i]
  }

  lemma TileStep(script: Script, c: nat, resp: nat, rel: nat, blks: nat, buf: seq<Byte>, i: nat)
    requires rel > 0 && blks > 0 && i < |buf| && script(c + 1).ret == 0
    ensures var n := Min(rel, blks);
            Tile(script, c, resp, rel, blks, buf, i)
            == Tile(script, c + 2, resp + BLK_SIZE * n, rel, blks - n, Fill(buf, resp, BLK_SIZE * n, script(c + 1)), i)
  {
    var n := Min(rel, blks);
    assert Fill(buf, resp, BLK_SIZE * n, script(c + 1))[i] == Landed(buf, resp, BLK_SIZE * n, script(c + 1), i);
  }

  lemma NothingTiles(script: Script, c: nat, req: seq<Byte>, at: nat, resp: nat, rel: nat, buf: seq<Byte>, i: nat)
    requires rel > 0 && at + BLK_SIZE * Transfers(rel, 0) <= |req| && i < |buf|
    ensures Exec(script, c, ReadPlan(req, at, resp, rel, 0), buf).buf[i] == Tile(script, c, resp, rel, 0, buf, i)
  {
  }

  /** A successful read tiles the response area: transfer after transfer, with no gap and no
      overlap, and leaves the rest of the buffer alone. */
  lemma {:induction false} ReadTiles(script: Script, c: nat, req: seq<Byte>, at: nat, resp: nat, rel: nat, blks: nat,
                                     buf: seq<Byte>, i: nat)
    requires rel > 0 && at + BLK_SIZE * Transfers(rel, blks) <= |req| && i < |buf|
    requires Exec(script, c, ReadPlan(req, at, resp, rel, blks), buf).ret == 0
    ensures Exec(script, c, ReadPlan(req, at, resp, rel, blks), buf).buf[i] == Tile(script, c, resp, rel, blks, buf, i)
    decreases blks
  {
    hide Exec, ReadPlan, Tile, Fill;
    if blks == 0 {
      NothingTiles(script, c, req, at, resp, rel, buf, i);
    } else {
      var n := Min(rel, blks);
      FirstTransfer(script, c, req, at, resp, rel, blks, buf);
      TileStep(script, c, resp, rel, blks, buf, i);
      ReadTiles(script, c + 2, req, at + BLK_SIZE, resp + BLK_SIZE * n, rel, blks - n,
                Fill(buf, resp, BLK_SIZE * n, script(c + 1)), i);
    }
  }

  lemma {:induction false} PlanLength(req: seq<Byte>, at: nat, resp: nat, rel: nat, blks: nat)
    requires rel > 0 && at + BLK_SIZE * Transfers(rel, blks) <= |req|
    ensures |ReadPlan(req, at, resp, rel, blks)| == 2 * Transfers(rel, blks)
    decreases blks
  {
    if blks > 0 {
      ReadPlanStep(req, at, resp, rel, blks);
      PlanLength(req, at + BLK_SIZE, resp + BLK_SIZE * Min(rel, blks), rel, blks - Min(rel, blks));
    }
  }

  lemma MulNext(rel: nat, i: nat)
    requires i > 0
    ensures rel * i == rel + rel * (i - 1)
  {
  }

  /** Transfers are never empty, and all of them together take exactly the blocks asked for. */
  lemma {:induction false} TransferSizes(rel: nat, blks: nat, i: nat)
    requires rel > 0 && i < Transfers(rel, blks)
    ensures rel * i < blks
    ensures i == Transfers(rel, blks) - 1 ==> rel * i + Min(rel, blks - rel * i) == blks
    decreases blks
  {
    ManyTransfers(rel, blks);
    if i > 0 {
      MulNext(rel, i);
      TransferSizes(rel, blks - rel, i - 1);
    }
  }

  lemma PlanTail(req: seq<Byte>, at: nat, resp: nat, rel: nat, blks: nat, i: nat)
    requires rel > 0 && blks > 0 && at + BLK_SIZE * Transfers(rel, blks) <= |req| && 0 < i < Transfers(rel, blks)
    ensures |ReadPlan(req, at, resp, rel, blks)| == 2 * Transfers(rel, blks)
    ensures blks > rel && Transfers(rel, blks - rel) == Transfers(rel, blks) - 1
    ensures var plan, rest := ReadPlan(req, at, resp, rel, blks),
                              ReadPlan(req, at + BLK_SIZE, resp + BLK_SIZE * rel, rel, blks - rel);
            |rest| == |plan| - 2 && plan[2 * i] == rest[2 * (i - 1)] && plan[2 * i + 1] == rest[2 * (i - 1) + 1]
  {
    ManyTransfers(rel, blks);
    ReadPlanStep(req, at, resp, rel, blks);
    PlanLength(req, at, resp, rel, blks);
  }

  /** Transfer i follows request frame i, and takes the next blocks, as many as allowed or as are left,
      to the place behind those before it. */
  lemma {:induction false} ReadSizes(req: seq<Byte>, at: nat, resp: nat, rel: nat, blks: nat, i: nat)
    requires rel > 0 && at + BLK_SIZE * Transfers(rel, blks) <= |req| && i < Transfers(rel, blks)
    ensures var plan := ReadPlan(req, at, resp, rel, blks);
            && |plan| == 2 * Transfers(rel, blks) && rel * i < blks
            && plan[2 * i] == ToDevice(req[at + 512 * i..at + 512 * i + 512])
            && plan[2 * i + 1] == FromDevice(resp + 512 * (rel * i), 512 * Min(rel, blks - rel * i))
    decreases blks
  {
    hide ReadPlan, Transfers;
    TransferSizes(rel, blks, i);
    if i > 0 {
      PlanTail(req, at, resp, rel, blks, i);
      MulNext(rel, i);
      ReadSizes(req, at + BLK_SIZE, resp + BLK_SIZE * rel, rel, blks - rel, i - 1);
    } else {
      PlanLength(req, at, resp, rel, blks);
      ReadPlanStep(req, at, resp, rel, blks);
    }
  }

  /** A read succeeds exactly if the device carries out all its commands, two for each transfer. */
  lemma ReadSucceeds(script: Script, c: nat, req: seq<Byte>, at: nat, resp: nat, rel: nat, blks: nat, buf: seq<Byte>)
    requires rel > 0 && at + BLK_SIZE * Transfers(rel, blks) <= |req|
    ensures Exec(script, c, ReadPlan(req, at, resp, rel, blks), buf).ret == 0 <==>
            forall i :: c <= i < c + 2 * Transfers(rel, blks) ==> script(i).ret == 0
  {
    hide Exec, ReadPlan, Transfers, FirstFailure;
    var plan := ReadPlan(req, at, resp, rel, blks);
    PlanLength(req, at, resp, rel, blks);
    ExecSucceeds(script, c, plan, buf);
    FailureIsFirst(script, c, plan);
    forall j | 0 <= j < |plan| ensures Done(plan[j], script(c + j)) <==> script(c + j).ret == 0 {
      ReadSizes(req, at, resp, rel, blks, j / 2);
      assert j == 2 * (j / 2) || j == 2 * (j / 2) + 1;
    }
    if forall i :: c <= i < c + |plan| ==> script(i).ret == 0 {
      assert forall j :: 0 <= j < |plan| ==> Done(plan[j], script(c + j));
    } else {
      var i :| c <= i < c + |plan| && script(i).ret != 0;
      assert !Done(plan[i - c], script(c + (i - c)));
    }
  }
}
