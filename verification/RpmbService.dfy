// The RPMB listener's read and write commands, carried out in place on one shared buffer.
// Models rpmb_handle_read and rpmb_handle_write of listeners/librpmbservice/rpmb_service.c.

module RpmbService {
  import opened Rpmb
  import opened RpmbWrites

  /** The buffer length smci_dispatch insists on. */
  const TZ_MAX_BUF_LEN: nat := 20040

  // Field offsets. The response reuses the first and the last for the same fields, and the three
  // between for the status and the place of the frames; what follows it holds the frames.
  const CMD_ID: nat := 0
  const NUM_SECTORS: nat := 4
  const REQ_BUFF_OFFSET: nat := 12
  const VERSION: nat := 16
  const REL_WR_COUNT: nat := 20
  const STATUS: nat := 4
  const RES_BUFF_LEN: nat := 8
  const RES_BUFF_OFFSET: nat := 12

  type U32 = x: int | 0 <= x < 0x1_0000_0000

  /** A little-endian field. */
  function Word(s: seq<Byte>, at: nat): (w: nat)
    requires at + 4 <= |s|
    ensures w < 0x1_0000_0000
  {
    s[at] as int + 0x100 * s[at + 1] as int + 0x1_0000 * s[at + 2] as int + 0x100_0000 * s[at + 3] as int
  }

  function ByteOf(w: U32, k: nat): Byte {
    match k
    case 0 => (w % 0x100) as Byte
    case 1 => (w / 0x100 % 0x100) as Byte
    case 2 => (w / 0x1_0000 % 0x100) as Byte
    case _ => (w / 0x100_0000) as Byte
  }

  function Put(s: seq<Byte>, at: nat, w: U32): (r: seq<Byte>)
    requires at + 4 <= |s|
    ensures |r| == |s|
  {
    s[at := ByteOf(w, 0)][at + 1 := ByteOf(w, 1)][at + 2 := ByteOf(w, 2)][at + 3 := ByteOf(w, 3)]
  }

  lemma WordOfPut(s: seq<Byte>, at: nat, w: U32)
    requires at + 4 <= |s|
    ensures Word(Put(s, at, w), at) == w
    ensures forall i :: 0 <= i < |s| && !(at <= i < at + 4) ==> Put(s, at, w)[i] == s[i]
  {
    var r := Put(s, at, w);
    assert r[at] == ByteOf(w, 0) && r[at + 1] == ByteOf(w, 1) && r[at + 2] == ByteOf(w, 2) && r[at + 3] == ByteOf(w, 3);
    assert w / 0x100 / 0x100 == w / 0x1_0000 && w / 0x1_0000 / 0x100 == w / 0x100_0000;
  }

  method Store(buf: array<Byte>, at: nat, w: U32)
    requires at + 4 <= buf.Length
    modifies buf
    ensures Word(buf[..], at) == w
    ensures forall i :: 0 <= i < buf.Length && !(at <= i < at + 4) ==> buf[i] == old(buf[i])
  {
    WordOfPut(buf[..], at, w);
    ghost var goal := Put(buf[..], at, w);
    buf[at], buf[at + 1], buf[at + 2], buf[at + 3] := ByteOf(w, 0), ByteOf(w, 1), ByteOf(w, 2), ByteOf(w, 3);
    assert buf[..] == goal;
  }

  lemma SameWord(s: seq<Byte>, t: seq<Byte>, at: nat)
    requires at + 4 <= |s| && at + 4 <= |t| && forall i :: at <= i < at + 4 ==> s[i] == t[i]
    ensures Word(s, at) == Word(t, at)
  {
  }

  /** How a status is stored. */
  function Signed(ret: Int32): U32 { ret % 0x1_0000_0000 }

  /** The reply: the request's command and version, the status in two's complement, and where the frames
      are. */
  ghost predicate IsReply(s: seq<Byte>, req: seq<Byte>, ret: Int32, respLen: nat)
    requires 20 <= |s| && 20 <= |req|
  {
    && Word(s, 0) == Word(req, 0) && Word(s, 16) == Word(req, 16)
    && Word(s, 4) == (if ret < 0 then 0x1_0000_0000 + ret else ret)
    && Word(s, 8) == respLen % 0x1_0000_0000 && Word(s, 12) == 20
  }

  /** The end of both handlers. The frames behind the header are left alone. */
  method Finish(buf: array<Byte>, ret: Int32, respLen: nat)
    requires HEADER <= buf.Length
    modifies buf
    ensures IsReply(buf[..], old(buf[..]), ret, respLen)
    ensures buf[HEADER..] == old(buf[HEADER..])
  {
    ghost var was := buf[..];
    Store(buf, STATUS, Signed(ret));
    ghost var s1 := buf[..];
    Store(buf, RES_BUFF_LEN, respLen % 0x1_0000_0000);
    ghost var s2 := buf[..];
    SameWord(s1, s2, STATUS);
    Store(buf, RES_BUFF_OFFSET, HEADER);
    ghost var s3 := buf[..];
    SameWord(s2, s3, STATUS);
    SameWord(s2, s3, RES_BUFF_LEN);
    SameWord(was, s3, CMD_ID);
    SameWord(was, s3, VERSION);
    StoreAgain(buf, CMD_ID);
    StoreAgain(buf, VERSION);
  }

  /** Request and response share the field: it is written with its own value. */
  method StoreAgain(buf: array<Byte>, at: nat)
    requires at + 4 <= buf.Length
    modifies buf
    ensures buf[..] == old(buf[..])
  {
    PutAgain(buf[..], at);
    ghost var goal := Put(buf[..], at, Word(buf[..], at));
    var w := Word(buf[..], at);
    buf[at], buf[at + 1], buf[at + 2], buf[at + 3] := ByteOf(w, 0), ByteOf(w, 1), ByteOf(w, 2), ByteOf(w, 3);
    assert buf[..] == goal;
  }

  lemma Digits(a: nat, b: nat, c: nat, d: nat, w: nat)
    requires a < 0x100 && b < 0x100 && c < 0x100 && d < 0x100
    requires w == a + 0x100 * b + 0x1_0000 * c + 0x100_0000 * d
    ensures w % 0x100 == a && w / 0x100 % 0x100 == b && w / 0x1_0000 % 0x100 == c && w / 0x100_0000 == d
  {
    assert w / 0x100 == b + 0x100 * c + 0x1_0000 * d;
    assert w / 0x1_0000 == c + 0x100 * d;
  }

  lemma PutAgain(s: seq<Byte>, at: nat)
    requires at + 4 <= |s|
    ensures Put(s, at, Word(s, at)) == s
  {
    Digits(s[at] as int, s[at + 1] as int, s[at + 2] as int, s[at + 3] as int, Word(s, at));
  }

  // ---------------------------------------------------------------- reads

  lemma {:induction false} ReadWithin(req: seq<Byte>, at: nat, resp: nat, rel: nat, blks: nat, lo: nat, hi: nat)
    requires rel > 0 && at + BLK_SIZE * Transfers(rel, blks) <= |req| && lo <= resp && resp + BLK_SIZE * blks <= hi
    ensures Within(ReadPlan(req, at, resp, rel, blks), lo, hi)
    decreases blks
  {
    if blks > 0 {
      var n := Min(rel, blks);
      ReadPlanStep(req, at, resp, rel, blks);
      ReadWithin(req, at + BLK_SIZE, resp + BLK_SIZE * n, rel, blks - n, lo, hi);
    }
  }

  /** Whatever the device does, a read leaves the header alone. */
  lemma ReadKeepsHeader(script: Script, c: nat, req: seq<Byte>, at: nat, rel: nat, blks: nat, buf: seq<Byte>, field: nat)
    requires rel > 0 && at + BLK_SIZE * Transfers(rel, blks) <= |req| && HEADER <= |buf| && field + 4 <= HEADER
    ensures Word(Exec(script, c, ReadPlan(req, at, HEADER, rel, blks), buf).buf, field) == Word(buf, field)
  {
    var plan := ReadPlan(req, at, HEADER, rel, blks);
    ReadWithin(req, at, HEADER, rel, blks, HEADER, HEADER + BLK_SIZE * blks);
    forall i | field <= i < field + 4 ensures Exec(script, c, plan, buf).buf[i] == buf[i] {
      ExecOutside(script, c, plan, buf, HEADER, HEADER + BLK_SIZE * blks, i);
    }
  }

  /** rpmb_handle_read on a UFS device. The device sees the request frames as they came, the frames
      it returns land behind the header, and the header becomes the reply. */
  method HandleRead(dev: Device, rel: nat, buf: array<Byte>, alloc: bool, open: Int32)
    requires rel > 0 && buf.Length >= TZ_MAX_BUF_LEN
    requires var blks := Word(buf[..], NUM_SECTORS);
             && Word(buf[..], REQ_BUFF_OFFSET) + BLK_SIZE * Transfers(rel, blks) <= buf.Length
             && HEADER + BLK_SIZE * blks <= buf.Length
    modifies dev, buf
    ensures old(dev.log) <= dev.log
    ensures var req := old(buf[..]);
            var blks, at := Word(req, 4), Word(req, 12);
            var o := Exec(dev.script, |old(dev.log)|, ReadPlan(req, at, 20, rel, blks), req);
            if blks > rel && !alloc then
              IsReply(buf[..], req, -12, 0) && dev.log == old(dev.log) && buf[20..] == req[20..]
            else if open != 0 then
              IsReply(buf[..], req, open, 512 * blks) && dev.log == old(dev.log) && buf[20..] == req[20..]
            else
              && IsReply(buf[..], req, o.ret, 512 * blks)
              && dev.log[|old(dev.log)|..] == o.log && buf[20..] == o.buf[20..]
    ensures var req, c := old(buf[..]), |old(dev.log)|;
            var blks := Word(req, 4);
            Word(buf[..], 4) == 0 <==>
            && (blks <= rel || alloc) && open == 0
            && forall i :: c <= i < c + 2 * Transfers(rel, blks) ==> dev.script(i).ret == 0
  {
    hide Exec, ReadPlan, Transfers;
    ghost var req, c := buf[..], |dev.log|;
    var blks, at := Word(buf[..], NUM_SECTORS), Word(buf[..], REQ_BUFF_OFFSET);
    ReadKeepsHeader(dev.script, c, req, at, rel, blks, req, CMD_ID);
    ReadKeepsHeader(dev.script, c, req, at, rel, blks, req, VERSION);
    ReadSucceeds(dev.script, c, req, at, HEADER, rel, blks, req);
    var ret, respLen := UfsRead(dev, buf, at, blks, HEADER, rel, alloc, open);
    Finish(buf, ret, respLen);
  }

  // ---------------------------------------------------------------- writes

  lemma RoundOutside(kind: Kind, script: Script, c: nat, buf: seq<Byte>, at: nat, size: nat, resp: nat, i: nat)
    requires at + size <= |buf| && i < |buf| && !(resp <= i < resp + BLK_SIZE)
    ensures Round(kind, script, c, buf, at, size, resp).buf[i] == buf[i]
  {
    TransactionWithin(kind, buf[at..at + size], resp);
    ExecOutside(script, c, Transaction(kind, buf[at..at + size], resp), buf, resp, resp + BLK_SIZE, i);
  }

  lemma {:induction false} LiveOutside(kind: Kind, script: Script, c: nat, buf: seq<Byte>, at: nat, size: nat, resp: nat,
                                       k: nat, i: nat)
    requires at + size * k <= |buf| && i < |buf| && !(resp <= i < resp + BLK_SIZE)
    ensures Live(kind, script, c, buf, at, size, resp, k).buf[i] == buf[i]
    decreases k
  {
    hide Round, Exec;
    if k > 0 {
      MulStep(size, k);
      RoundOutside(kind, script, c, buf, at, size, resp, i);
      var o := Round(kind, script, c, buf, at, size, resp);
      if o.ret == 0 {
        var rest := LiveStep(kind, script, c, buf, at, size, resp, k, o);
        LiveOutside(kind, script, c + |o.log|, o.buf, at + size, size, resp, k - 1, i);
      }
    }
  }

  lemma WriteKeepsHeader(kind: Kind, script: Script, c: nat, buf: seq<Byte>, at: nat, size: nat, k: nat, field: nat)
    requires at + size * k <= |buf| && HEADER <= |buf| && field + 4 <= HEADER
    ensures Word(Live(kind, script, c, buf, at, size, HEADER, k).buf, field) == Word(buf, field)
  {
    forall i | field <= i < field + 4 ensures Live(kind, script, c, buf, at, size, HEADER, k).buf[i] == buf[i] {
      LiveOutside(kind, script, c, buf, at, size, HEADER, k, i);
    }
  }

  /** Whether the driver reaches its loop, and what it answers if not. */
  predicate Starts(kind: Kind, blks: nat, frames: nat, rel: nat, alloc: bool, open: Int32) {
    match kind
    case Ufs => open == 0 && frames <= rel
    case Emmc => frames > 0 && blks % frames == 0 && alloc
  }

  function Refusal(kind: Kind, open: Int32): Int32 {
    if kind.Ufs? && open != 0 then open else -1
  }

  /** rpmb_write on either device. */
  method Write(dev: Device, kind: Kind, rel: nat, buf: array<Byte>, at: nat, blks: nat, frames: nat, alloc: bool, open: Int32)
    returns (ret: Int32, respLen: nat)
    requires HEADER + BLK_SIZE <= buf.Length
    requires Starts(kind, blks, frames, rel, alloc, open) ==>
               frames > 0 && at + BLK_SIZE * frames * Batches(blks, frames) <= buf.Length
    modifies dev, buf
    ensures old(dev.log) <= dev.log
    ensures if !Starts(kind, blks, frames, rel, alloc, open) then
              ret == Refusal(kind, open) && respLen == 0 && dev.log == old(dev.log) && buf[..] == old(buf[..])
            else
              && Outcome(dev.log[|old(dev.log)|..], ret, buf[..])
                 == Live(kind, dev.script, |old(dev.log)|, old(buf[..]), at, BLK_SIZE * frames, HEADER, Batches(blks, frames))
              && respLen == if kind.Emmc? && ret != 0 then 0 else BLK_SIZE
  {
    if kind.Ufs? {
      ret, respLen := UfsWrite(dev, buf, at, blks, HEADER, frames, rel, open);
    } else {
      ret, respLen := EmmcWrite(dev, buf, at, blks, HEADER, frames, alloc);
    }
  }

  /** How many whole batches of `frames` frames there are. */
  function Whole(blks: nat, frames: nat): nat { if frames == 0 then 0 else blks / frames }

  /** The status says whether all k transactions of `size` bytes were made and taken. If it says so, the
      calls to the device are theirs, frames and all, provided the frames lie behind the reply. */
  ghost predicate Reports(kind: Kind, script: Script, c: nat, req: seq<Byte>, at: nat, size: nat, k: nat, starts: bool,
                          status: nat, log: seq<Call>)
  {
    && (status == 0 <==> starts && TookAll(kind, script, c, k))
    && (status == 0 && at >= 20 ==>
          |log| == Calls(kind, k) && forall j :: 0 <= j < k ==> Sends(kind, log, j, req, at + size * j, size, 20))
  }

  lemma WriteReports(kind: Kind, script: Script, c: nat, req: seq<Byte>, at: nat, size: nat, k: nat,
                     status: nat, log: seq<Call>)
    requires at + size * k <= |req|
    requires var o := Live(kind, script, c, req, at, size, HEADER, k);
             && log == o.log && (status == 0 <==> o.ret == 0)
             && (at >= HEADER ==> o == Exec(script, c, WritePlan(kind, req, at, size, HEADER, k), req))
    ensures Reports(kind, script, c, req, at, size, k, true, status, log)
  {
    hide Live, Exec, WritePlan, TookAll, Sends;
    LiveSucceeds(kind, script, c, req, at, size, HEADER, k);
    Succeeds(kind, script, c, req, at, size, HEADER, k);
    if status == 0 && at >= HEADER {
      forall j | 0 <= j < k ensures Sends(kind, log, j, req, at + size * j, size, 20) {
        PlanSends(kind, req, at, size, HEADER, k, j);
      }
    }
  }

  /** rpmb_handle_write. With frames behind the header, the device sees the request frames as they
      came, in every transaction, and the header becomes the reply. */
  method HandleWrite(dev: Device, kind: Kind, rel: nat, buf: array<Byte>, alloc: bool, open: Int32)
    requires buf.Length >= TZ_MAX_BUF_LEN
    requires var blks, frames := Word(buf[..], NUM_SECTORS), Word(buf[..], REL_WR_COUNT);
             Starts(kind, blks, frames, rel, alloc, open) ==>
               frames > 0 && Word(buf[..], REQ_BUFF_OFFSET) + BLK_SIZE * frames * Batches(blks, frames) <= buf.Length
    modifies dev, buf
    ensures old(dev.log) <= dev.log
    ensures var req := old(buf[..]);
            var blks, frames, at := Word(req, 4), Word(req, 20), Word(req, 12);
            if !Starts(kind, blks, frames, rel, alloc, open) then
              && IsReply(buf[..], req, Refusal(kind, open), 0)
              && dev.log == old(dev.log) && buf[20..] == req[20..]
            else
              var size, k := 512 * frames, Batches(blks, frames);
              var o := Live(kind, dev.script, |old(dev.log)|, req, at, size, 20, k);
              && IsReply(buf[..], req, o.ret, if kind.Emmc? && o.ret != 0 then 0 else 512)
              && dev.log[|old(dev.log)|..] == o.log && buf[20..] == o.buf[20..]
              && (at >= 20 || Clear(at, size, 20, k) ==>
                    o == Exec(dev.script, |old(dev.log)|, WritePlan(kind, req, at, size, 20, k), req))
    ensures var req, c := old(buf[..]), |old(dev.log)|;
            var blks, frames := Word(req, 4), Word(req, 20);
            Reports(kind, dev.script, c, req, Word(req, 12), 512 * frames, Whole(blks, frames),
                    Starts(kind, blks, frames, rel, alloc, open), Word(buf[..], 4), dev.log[c..])
  {
    hide Live, Exec, WritePlan, TookAll, Sends;
    ghost var req, c := buf[..], |dev.log|;
    var blks, frames, at := Word(buf[..], NUM_SECTORS), Word(buf[..], REL_WR_COUNT), Word(buf[..], REQ_BUFF_OFFSET);
    var ret, respLen := Write(dev, kind, rel, buf, at, blks, frames, alloc, open);
    if Starts(kind, blks, frames, rel, alloc, open) {
      ghost var size: nat, k: nat := BLK_SIZE * frames, Batches(blks, frames);
      WriteKeepsHeader(kind, dev.script, c, req, at, size, k, CMD_ID);
      WriteKeepsHeader(kind, dev.script, c, req, at, size, k, VERSION);
      if at >= HEADER || Clear(at, size, HEADER, k) {
        LiveFollowsPlan(kind, dev.script, c, req, req, at, size, HEADER, k);
      }
      BatchesIsQuotient(blks, frames);
      WriteReports(kind, dev.script, c, req, at, size, k, Signed(ret), dev.log[c..]);
    }
    Finish(buf, ret, respLen);
  }
}
