/** Block transfers of the i801 SMBus host controller, against whatever the device answers to each port read. */
module I801 {

  // ---------------------------------------------------------------- registers and bits

  const HSTSTS := 0
  const HSTCNT := 2
  const DAT0 := 5
  const BLKDAT := 7

  const BYTE_DONE: bv8 := 0x80
  const FAILED: bv8 := 0x10
  const BUS_ERR: bv8 := 0x08
  const DEV_ERR: bv8 := 0x04
  const INTR: bv8 := 0x02
  const HOST_BUSY: bv8 := 0x01
  const ERROR_FLAGS: bv8 := 0x1C
  const STATUS_FLAGS: bv8 := 0x9E

  const START: bv8 := 0x40
  const LAST_BYTE: bv8 := 0x20
  const KILL: bv8 := 0x02

  const BLOCK_DATA: bv8 := 0x14
  const I2C_BLOCK_DATA: bv8 := 0x18

  const BLOCK_MAX := 32
  const MAX_RETRIES := 400

  datatype Access = Write(port: nat, value: bv8) | Read(port: nat, value: bv8)

  datatype Error = EIO | ENXIO | EAGAIN | ETIMEDOUT | EBUSY | EPROTO
  datatype Result = Done | Failed(error: Error)

  /** What a wait returns: a negative number, or the flags it was waiting for. */
  datatype Status = TimedOut | Flags(flags: bv8)

  datatype Kind = SmbusBlock | I2cBlock

  // ---------------------------------------------------------------- what a log shows

  /** The values written to a port, in order. */
  function Sent(log: seq<Access>, port: nat): seq<bv8> {
    if log == [] then [] else
      var x := log[|log| - 1];
      Sent(log[..|log| - 1], port) + if x.Write? && x.port == port then [x.value] else []
  }

  /** The values read from a port, in order. */
  function Received(log: seq<Access>, port: nat): seq<bv8> {
    if log == [] then [] else
      var x := log[|log| - 1];
      Received(log[..|log| - 1], port) + if x.Read? && x.port == port then [x.value] else []
  }

  lemma Append(log: seq<Access>, x: Access, port: nat)
    ensures Sent(log + [x], port) == Sent(log, port) + if x.Write? && x.port == port then [x.value] else []
    ensures Received(log + [x], port) == Received(log, port) + if x.Read? && x.port == port then [x.value] else []
  {
    assert (log + [x])[..|log|] == log;
  }

  /** What the log shows of the length and data ports. */
  datatype View = View(lengthSent: seq<bv8>, sent: seq<bv8>, lengthGot: seq<bv8>, got: seq<bv8>)

  function ViewOf(log: seq<Access>): View {
    View(Sent(log, DAT0), Sent(log, BLKDAT), Received(log, DAT0), Received(log, BLKDAT))
  }

  function Seeing(v: View, x: Access): View {
    if x.port == DAT0 then
      if x.Write? then v.(lengthSent := v.lengthSent + [x.value]) else v.(lengthGot := v.lengthGot + [x.value])
    else if x.port == BLKDAT then
      if x.Write? then v.(sent := v.sent + [x.value]) else v.(got := v.got + [x.value])
    else v
  }

  lemma Seen(log: seq<Access>, x: Access)
    ensures ViewOf(log + [x]) == Seeing(ViewOf(log), x)
  {
    hide Sent, Received;
    Append(log, x, DAT0);
    Append(log, x, BLKDAT);
  }

  /** What the log shows of commands and acknowledgements. */
  datatype Traffic = Traffic(commands: seq<bv8>, acks: seq<bv8>)

  function TrafficOf(log: seq<Access>): Traffic { Traffic(Sent(log, HSTCNT), Sent(log, HSTSTS)) }

  function Passing(t: Traffic, x: Access): Traffic {
    if x.Write? && x.port == HSTCNT then t.(commands := t.commands + [x.value])
    else if x.Write? && x.port == HSTSTS then t.(acks := t.acks + [x.value])
    else t
  }

  lemma Passed(log: seq<Access>, x: Access)
    ensures TrafficOf(log + [x]) == Passing(TrafficOf(log), x)
  {
    hide Sent, Received;
    Append(log, x, HSTCNT);
    Append(log, x, HSTSTS);
  }

  predicate ByteReady(v: bv8) { v & (ERROR_FLAGS | BYTE_DONE) != 0 }
  predicate IntrReady(v: bv8) { v & HOST_BUSY == 0 && v & (ERROR_FLAGS | INTR) != 0 }

  /** A poll that reports a byte done and no error. */
  predicate CleanPoll(x: Access) {
    x.Read? && x.port == HSTSTS && x.value & ERROR_FLAGS == 0 && x.value & BYTE_DONE != 0
  }

  /** From `from` on, every access to the data port after the first write of a transfer follows a clean poll, at once
      or with only the length read in between. */
  predicate Paced(log: seq<Access>, from: nat) { forall k :: from <= k < |log| ==> PacedAt(log, k) }

  predicate PacedAt(log: seq<Access>, k: nat)
    requires k < |log|
  {
    log[k].port == BLKDAT ==> MayFollow(log[..k])
  }

  predicate MayFollow(log: seq<Access>) {
    && |log| > 0
    && var x := log[|log| - 1];
       || CleanPoll(x)
       || (x.Write? && x.port == DAT0)
       || (|log| > 1 && x.Read? && x.port == DAT0 && CleanPoll(log[|log| - 2]))
  }

  /** `now` is `was` and then reads of the status register. */
  predicate OnlyPolled(was: seq<Access>, now: seq<Access>) {
    && was <= now && ViewOf(now) == ViewOf(was) && TrafficOf(now) == TrafficOf(was)
    && (forall k :: |was| <= k < |now| ==> now[k].Read? && now[k].port == HSTSTS)
  }

  /** `now` is `was` and then accesses to the status and control registers. */
  predicate OnlyControl(was: seq<Access>, now: seq<Access>) {
    && was <= now && ViewOf(now) == ViewOf(was)
    && (forall k :: |was| <= k < |now| ==> now[k].port == HSTSTS || now[k].port == HSTCNT)
  }

  lemma ControlAfter(was: seq<Access>, mid: seq<Access>, now: seq<Access>)
    requires OnlyControl(was, mid) && (OnlyControl(mid, now) || OnlyPolled(mid, now))
    ensures OnlyControl(was, now)
  {
  }

  lemma PacedControl(was: seq<Access>, now: seq<Access>, from: nat)
    requires OnlyControl(was, now) && Paced(was, from)
    ensures Paced(now, from)
  {
    hide TrafficOf, ViewOf, MayFollow;
    forall k | from <= k < |now| ensures PacedAt(now, k) {
      if k < |was| { assert PacedAt(was, k) && now[..k] == was[..k]; }
    }
  }

  lemma PacedStep(log: seq<Access>, x: Access, from: nat)
    requires Paced(log, from)
    requires x.port == BLKDAT ==> MayFollow(log)
    ensures Paced(log + [x], from)
  {
    hide MayFollow;
    forall k | from <= k < |log + [x]| ensures PacedAt(log + [x], k) {
      assert (log + [x])[..k] == log[..k];
      if k < |log| { assert PacedAt(log, k); } else { assert log[..k] == log; }
    }
  }

  // ---------------------------------------------------------------- how a log ends

  predicate Polled(x: Access) { x.Read? && x.port == HSTSTS }

  /** The last `n` accesses of the log are polls that all lack what a wait for one byte, or for the end of the transfer,
      is for. */
  predicate Unready(log: seq<Access>, n: nat) {
    && n <= |log| && (forall k :: |log| - n <= k < |log| ==> Polled(log[k]))
    && ((forall k :: |log| - n <= k < |log| ==> log[k].value & 0x9C == 0)
        || (forall k :: |log| - n <= k < |log| ==> log[k].value & 0x01 != 0 || log[k].value & 0x1E == 0))
  }

  /** What a wait leaves behind: 401 unready polls, or a last poll with the flags it returns. */
  predicate Waited(log: seq<Access>, status: Status) {
    if status.TimedOut? then Unready(log, MAX_RETRIES + 1)
    else log != [] && Polled(log[|log| - 1]) && status.flags & 0x1C == log[|log| - 1].value & 0x1C
  }

  /** A poll and the acknowledgement of its flags. */
  predicate EndsPolled(log: seq<Access>) {
    |log| >= 2 && Polled(log[|log| - 2]) && log[|log| - 1].Write? && log[|log| - 1].port == HSTSTS
  }

  /** 401 unready polls, then the kill bit set and reset and all flags cleared. */
  predicate EndsKilled(log: seq<Access>) {
    && |log| >= 5 && Unready(log[..|log| - 5], 401)
    && var tail := log[|log| - 5..];
       && tail[0].Read? && tail[1] == Write(HSTCNT, tail[0].value | 0x02)
       && tail[2].Read? && tail[3] == Write(HSTCNT, tail[2].value & 0xFD)
       && tail[0].port == tail[2].port == HSTCNT && tail[4] == Write(HSTSTS, 0x9E)
  }

  /** From `k` on, busy polls, each followed by one byte acknowledged. */
  predicate BusyPairs(log: seq<Access>, k: nat) {
    && k <= |log| && (|log| - k) % 2 == 0
    && forall j :: k <= j < |log| && (j - k) % 2 == 0 ==> PairAt(log, j)
  }

  predicate PairAt(log: seq<Access>, j: nat) {
    j + 1 < |log| && Polled(log[j]) && log[j].value & 0x01 != 0 && log[j + 1] == Write(HSTSTS, 0x80)
  }

  /** A length read at `k - 1` that is no length, then bytes acknowledged until a poll shows that the host is not busy,
      and the end of the transfer acknowledged. */
  predicate RecoveredFrom(log: seq<Access>, k: nat) {
    && 0 < k <= |log| - 2 && log[k - 1].Read? && log[k - 1].port == DAT0
    && (log[k - 1].value == 0 || log[k - 1].value > 32)
    && BusyPairs(log[..|log| - 2], k)
    && Polled(log[|log| - 2]) && log[|log| - 2].value & 0x01 == 0 && log[|log| - 1] == Write(HSTSTS, 0x02)
  }

  predicate Recovered(log: seq<Access>) { exists k: nat :: k <= |log| && RecoveredFrom(log, k) }

  lemma NoPairs(log: seq<Access>)
    ensures BusyPairs(log, |log|)
  {
  }

  lemma OnePair(log: seq<Access>, k: nat, poll: Access, ack: Access)
    requires BusyPairs(log, k) && Polled(poll) && poll.value & 0x01 != 0 && ack == Write(HSTSTS, 0x80)
    ensures BusyPairs(log + [poll] + [ack], k)
  {
    var longer := log + [poll] + [ack];
    forall j: nat | k <= j < |longer| && (j - k) % 2 == 0 ensures PairAt(longer, j) {
      if j < |log| { assert PairAt(log, j); }
    }
  }

  /** The result of a transfer that was neither refused nor given a length no block can have, by how its log ends: a
      bus collision counts more than a missing device, and that more than a failed transfer. */
  predicate Reported(log: seq<Access>, result: Result) {
    && (result == Failed(EAGAIN) <==> EndsPolled(log) && log[|log| - 2].value & 0x08 != 0)
    && (result == Failed(ENXIO) <==>
          EndsPolled(log) && log[|log| - 2].value & 0x08 == 0 && log[|log| - 2].value & 0x04 != 0)
    && (result == Failed(EIO) <==>
          EndsPolled(log) && log[|log| - 2].value & 0x0C == 0 && log[|log| - 2].value & 0x10 != 0)
    && (result == Done <==> EndsPolled(log) && log[|log| - 2].value & 0x1C == 0)
    && (result == Failed(ETIMEDOUT) <==> EndsKilled(log))
  }

  /** The masks of the waits, as numbers. */
  lemma ReadyBits(v: bv8)
    ensures ByteReady(v) <==> v & 0x9C != 0
    ensures IntrReady(v) <==> v & 0x01 == 0 && v & 0x1E != 0
  {
  }

  lemma SameErrors(v: bv8, f: bv8)
    requires f & 0x1C == v & 0x1C
    ensures (f & 0x08 != 0 <==> v & 0x08 != 0) && (f & 0x04 != 0 <==> v & 0x04 != 0)
    ensures (f & 0x10 != 0 <==> v & 0x10 != 0) && (f & 0x1C == 0 <==> v & 0x1C == 0)
    ensures v & 0x1C == 0 <==> v & 0x08 == 0 && v & 0x04 == 0 && v & 0x10 == 0
    ensures v & 0x0C == 0 <==> v & 0x08 == 0 && v & 0x04 == 0
  {
  }

  lemma KillBits(v: bv8)
    ensures v & !KILL == v & 0xFD
  {
  }

  lemma SameErrorFlags(v: bv8)
    ensures v & ERROR_FLAGS & 0x1C == v & 0x1C && v & (ERROR_FLAGS | INTR) & 0x1C == v & 0x1C
  {
  }

  /** What CheckPost makes of a status. */
  predicate Judged(status: Status, result: Result) {
    match status
    case TimedOut => result == Failed(ETIMEDOUT)
    case Flags(f) =>
      if f & 0x08 != 0 then result == Failed(EAGAIN)
      else if f & 0x04 != 0 then result == Failed(ENXIO)
      else if f & 0x10 != 0 then result == Failed(EIO)
      else result == Done
  }

  lemma PolledIsReported(waited: seq<Access>, log: seq<Access>, status: Status, result: Result)
    requires status.Flags? && Waited(waited, status) && Judged(status, result)
    requires log == waited + [Write(HSTSTS, status.flags)]
    ensures Reported(log, result)
  {
    SameErrors(waited[|waited| - 1].value, status.flags);
    assert log[|log| - 2] == waited[|waited| - 1];
    assert |log| >= 5 ==> log[|log| - 5..][3] == log[|log| - 2];
  }

  lemma KilledIsReported(waited: seq<Access>, log: seq<Access>, a: bv8, b: bv8)
    requires Waited(waited, TimedOut)
    requires log == waited + [Read(HSTCNT, a), Write(HSTCNT, a | 0x02), Read(HSTCNT, b), Write(HSTCNT, b & 0xFD),
                              Write(HSTSTS, 0x9E)]
    ensures Reported(log, Failed(ETIMEDOUT))
  {
    assert log[..|log| - 5] == waited;
    assert log[|log| - 2] == Write(HSTCNT, b & 0xFD);
  }

  lemma ReadyWithoutError(v: bv8)
    requires ByteReady(v) && v & ERROR_FLAGS == 0
    ensures v & BYTE_DONE != 0
  {
  }

  /** A write has sent the length and the first `n` bytes of the block, once each and in order; all of them if it is
      done. Nothing is sent to a host that is not ready. */
  predicate Written(was: View, now: View, block: seq<bv8>, n: nat, result: Result)
    requires |block| == BLOCK_MAX + 2
  {
    && n <= block[0] as nat <= BLOCK_MAX && (result == Done ==> n == block[0] as nat)
    && now == was.(lengthSent := was.lengthSent + (if n > 0 then [block[0]] else []),
                   sent := was.sent + block[1..n + 1])
  }

  /** A read has stored the `n` bytes offered so far, in order, and changed no other byte of the data; `announced` is
      what it has read as length. */
  predicate ReadSoFar(was: View, now: View, before: seq<bv8>, after: seq<bv8>, n: nat, announced: seq<bv8>)
    requires |before| == |after| == BLOCK_MAX + 2
  {
    && n <= BLOCK_MAX && after[n + 1..] == before[n + 1..]
    && now == was.(lengthGot := was.lengthGot + announced, got := was.got + after[1..n + 1])
  }

  lemma WriteStarts(was: View, block: seq<bv8>)
    requires |block| == BLOCK_MAX + 2 && 1 <= block[0] as nat <= BLOCK_MAX
    ensures Written(was, was, block, 0, Failed(EBUSY))
    ensures var now := was.(lengthSent := was.lengthSent + [block[0]], sent := was.sent + [block[1]]);
            Written(was, now, block, 1, Failed(EBUSY))
  {
    assert block[1..2] == [block[1]] && block[1..1] == [];
    assert was.sent + [] == was.sent && was.lengthSent + [] == was.lengthSent;
  }

  lemma WriteStep(was: View, now: View, block: seq<bv8>, n: nat)
    requires |block| == BLOCK_MAX + 2 && 1 <= n < block[0] as nat && Written(was, now, block, n, Failed(EBUSY))
    ensures Written(was, now.(sent := now.sent + [block[n + 1]]), block, n + 1, Failed(EBUSY))
  {
    assert block[1..n + 2] == block[1..n + 1] + [block[n + 1]];
  }

  lemma WriteEnds(was: View, now: View, block: seq<bv8>, n: nat, result: Result)
    requires |block| == BLOCK_MAX + 2 && Written(was, now, block, n, Failed(EBUSY))
    requires result == Done ==> n == block[0] as nat
    ensures Written(was, now, block, n, result)
  {
  }

  lemma ReadStarts(was: View, block: seq<bv8>)
    requires |block| == BLOCK_MAX + 2
    ensures ReadSoFar(was, was, block, block, 0, [])
  {
    assert block[1..1] == [] && was.got + [] == was.got && was.lengthGot + [] == was.lengthGot;
  }

  lemma ReadStep(was: View, now: View, before: seq<bv8>, after: seq<bv8>, n: nat, announced: seq<bv8>, x: bv8)
    requires |before| == |after| == BLOCK_MAX + 2 && n < BLOCK_MAX
    requires ReadSoFar(was, now, before, after, n, announced)
    ensures ReadSoFar(was, now.(got := now.got + [x]), before, after[n + 1 := x], n + 1, announced)
    ensures after[n + 1 := x][0] == after[0]
  {
    var t := after[n + 1 := x];
    assert t[1..n + 2] == after[1..n + 1] + [x];
    assert t[n + 2..] == after[n + 1..][1..] && before[n + 2..] == before[n + 1..][1..];
  }

  lemma LengthStep(was: View, now: View, before: seq<bv8>, after: seq<bv8>, x: bv8)
    requires |before| == |after| == BLOCK_MAX + 2 && ReadSoFar(was, now, before, before, 0, [])
    requires after == before || after == before[0 := x]
    ensures ReadSoFar(was, now.(lengthGot := now.lengthGot + [x]), before, after, 0, [x])
  {
    assert after[1..] == before[1..] && after[1..1] == [] == before[1..1];
    assert was.lengthGot + [] == was.lengthGot;
  }

  predicate LengthFits(announced: seq<bv8>) { |announced| == 1 && 1 <= announced[0] as nat <= BLOCK_MAX }

  /** The length the block has after a read. An SMBus block takes the one that the device announces, if there is one
      between 1 and 32. */
  predicate Sized(kind: Kind, before: bv8, after: bv8, announced: seq<bv8>) {
    if kind == SmbusBlock && LengthFits(announced) then announced == [after] else after == before
  }

  /** A read that is done has stored as many bytes as the length says; a length that no block can have is a protocol
      error, and the only one, and then nothing is stored. */
  predicate ReadIn(was: View, now: View, before: seq<bv8>, after: seq<bv8>, kind: Kind, n: nat, announced: seq<bv8>,
                   result: Result)
    requires |before| == |after| == BLOCK_MAX + 2
  {
    && ReadSoFar(was, now, before, after, n, announced) && Sized(kind, before[0], after[0], announced)
    && (result == Done ==> 1 <= after[0] as nat == n <= BLOCK_MAX && (kind == SmbusBlock ==> LengthFits(announced)))
    && (if kind == I2cBlock then announced == [] else |announced| <= 1)
    && (result == Failed(EPROTO) <==> announced != [] && !LengthFits(announced))
    && (result == Failed(EPROTO) ==> n == 0)
  }

  /** The n-th port read is answered by `reply(n)`; the log lists all accesses. */
  class Controller {
    const reply: nat -> bv8
    var polls: nat
    var log: seq<Access>

    constructor (reply: nat -> bv8)
      ensures this.reply == reply && polls == 0 && log == []
    {
      this.reply, polls, log := reply, 0, [];
    }

    method ReadPort(port: nat) returns (v: bv8)
      modifies this
      ensures v == reply(old(polls)) && polls == old(polls) + 1 && log == old(log) + [Read(port, v)]
      ensures ViewOf(log) == Seeing(ViewOf(old(log)), Read(port, v)) && TrafficOf(log) == TrafficOf(old(log))
    {
      v := reply(polls);
      polls := polls + 1;
      Seen(log, Read(port, v));
      Passed(log, Read(port, v));
      log := log + [Read(port, v)];
    }

    method WritePort(port: nat, v: bv8)
      modifies this`log
      ensures log == old(log) + [Write(port, v)]
      ensures ViewOf(log) == Seeing(ViewOf(old(log)), Write(port, v))
      ensures TrafficOf(log) == Passing(TrafficOf(old(log)), Write(port, v))
    {
      Seen(log, Write(port, v));
      Passed(log, Write(port, v));
      log := log + [Write(port, v)];
    }

    /** Waits for a byte done or an error. It times out exactly when all 401 polls are unready; otherwise it returns
        the error flags of the first ready one, which is its last access. */
    method WaitByteDone() returns (status: Status)
      modifies this
      ensures status.TimedOut? <==> forall k :: old(polls) <= k <= old(polls) + MAX_RETRIES ==> !ByteReady(reply(k))
      ensures status.Flags? ==>
                && old(polls) < polls <= old(polls) + MAX_RETRIES + 1
                && (forall k :: old(polls) <= k < polls - 1 ==> !ByteReady(reply(k)))
                && ByteReady(reply(polls - 1)) && status.flags == reply(polls - 1) & ERROR_FLAGS
                && |log| > 0 && log[|log| - 1] == Read(HSTSTS, reply(polls - 1))
      ensures OnlyPolled(old(log), log) && Waited(log, status)
    {
      hide TrafficOf, ViewOf;
      var timeout := 0;
      var v := ReadPort(HSTSTS);
      while !ByteReady(v) && timeout < MAX_RETRIES
        invariant 0 <= timeout <= MAX_RETRIES && polls == old(polls) + timeout + 1 && v == reply(polls - 1)
        invariant forall k :: old(polls) <= k < old(polls) + timeout ==> !ByteReady(reply(k))
        invariant OnlyPolled(old(log), log) && |log| > 0 && log[|log| - 1] == Read(HSTSTS, v)
        invariant |log| == |old(log)| + timeout + 1
        invariant forall k :: |old(log)| <= k < |log| - 1 ==> log[k].value & 0x9C == 0
      {
        ReadyBits(v);
        timeout := timeout + 1;
        v := ReadPort(HSTSTS);
      }
      ReadyBits(v);
      if !ByteReady(v) { timeout := timeout + 1; }
      if timeout > MAX_RETRIES { return TimedOut; }
      SameErrorFlags(v);
      return Flags(v & ERROR_FLAGS);
    }

    /** Waits for the end of the transfer; the same time-out. */
    method WaitIntr() returns (status: Status)
      modifies this
      ensures status.TimedOut? <==> forall k :: old(polls) <= k <= old(polls) + MAX_RETRIES ==> !IntrReady(reply(k))
      ensures status.Flags? ==>
                && old(polls) < polls <= old(polls) + MAX_RETRIES + 1
                && (forall k :: old(polls) <= k < polls - 1 ==> !IntrReady(reply(k)))
                && IntrReady(reply(polls - 1)) && status.flags == reply(polls - 1) & (ERROR_FLAGS | INTR)
      ensures OnlyPolled(old(log), log) && Waited(log, status)
    {
      hide TrafficOf, ViewOf;
      var timeout := 0;
      var v := ReadPort(HSTSTS);
      while !IntrReady(v) && timeout < MAX_RETRIES
        invariant 0 <= timeout <= MAX_RETRIES && polls == old(polls) + timeout + 1 && v == reply(polls - 1)
        invariant forall k :: old(polls) <= k < old(polls) + timeout ==> !IntrReady(reply(k))
        invariant OnlyPolled(old(log), log) && |log| > 0 && log[|log| - 1] == Read(HSTSTS, v)
        invariant |log| == |old(log)| + timeout + 1
        invariant forall k :: |old(log)| <= k < |log| - 1 ==> log[k].value & 0x01 != 0 || log[k].value & 0x1E == 0
      {
        ReadyBits(v);
        timeout := timeout + 1;
        v := ReadPort(HSTSTS);
      }
      ReadyBits(v);
      if !IntrReady(v) { timeout := timeout + 1; }
      if timeout > MAX_RETRIES { return TimedOut; }
      SameErrorFlags(v);
      return Flags(v & (ERROR_FLAGS | INTR));
    }

    predicate Idle(k: nat) { reply(k) & HOST_BUSY == 0 }

    predicate Stale(k: nat) { reply(k) & STATUS_FLAGS != 0 }

    /** What the first status reads say against a transfer: the host is busy, or flags stay set that have been
        cleared. */
    predicate Refuses(k: nat) {
      reply(k) & 0x01 != 0 || (reply(k) & 0x9E != 0 && reply(k + 1) & 0x9E != 0)
    }

    /** The bus has to be free, and stale flags must let themselves be cleared. */
    method CheckPre(ghost from: nat) returns (result: Result, ghost stale: seq<bv8>)
      requires Paced(log, from)
      modifies this
      ensures Paced(log, from)
      ensures result == if Refuses(old(polls)) then Failed(EBUSY) else Done
      ensures stale == if Idle(old(polls)) && Stale(old(polls)) then [reply(old(polls)) & STATUS_FLAGS] else []
      ensures var t := TrafficOf(old(log)); |stale| <= 1 && TrafficOf(log) == t.(acks := t.acks + stale)
      ensures OnlyControl(old(log), log)
    {
      hide TrafficOf, ViewOf, Paced;
      ghost var was := log;
      result, stale := Done, [];
      assert TrafficOf(was).acks + [] == TrafficOf(was).acks;
      var status := ReadPort(HSTSTS);
      if status & HOST_BUSY != 0 {
        result := Failed(EBUSY);
      } else {
        status := status & STATUS_FLAGS;
        if status != 0 {
          WritePort(HSTSTS, status);
          stale := [status];
          status := ReadPort(HSTSTS);
          status := status & STATUS_FLAGS;
          if status != 0 { result := Failed(EBUSY); }
        }
      }
      PacedControl(was, log, from);
    }

    /** Reads the control register and writes it back, with the kill bit set or reset. */
    method SetKill(on: bool) returns (ghost was: bv8)
      modifies this
      ensures log == old(log) + [Read(HSTCNT, was), Write(HSTCNT, if on then was | 0x02 else was & 0xFD)]
      ensures OnlyControl(old(log), log)
    {
      hide TrafficOf, ViewOf;
      var control := ReadPort(HSTCNT);
      was := control;
      KillBits(control);
      if on { WritePort(HSTCNT, control | KILL); } else { WritePort(HSTCNT, control & !KILL); }
    }

    /** The part of CheckPost for a transfer that timed out: it is killed. */
    method Kill() returns (ghost a: bv8, ghost b: bv8)
      modifies this
      ensures log == old(log) + [Read(HSTCNT, a), Write(HSTCNT, a | 0x02), Read(HSTCNT, b), Write(HSTCNT, b & 0xFD),
                                 Write(HSTSTS, 0x9E)]
      ensures OnlyControl(old(log), log)
    {
      hide TrafficOf, ViewOf;
      a := SetKill(true);
      b := SetKill(false);
      WritePort(HSTSTS, STATUS_FLAGS);
    }

    /** Turns the status of a wait into a result. */
    method CheckPost(status: Status) returns (result: Result)
      requires Waited(log, status)
      modifies this
      ensures Reported(log, result) && Judged(status, result)
      ensures var t := TrafficOf(old(log)); status.Flags? ==> TrafficOf(log) == t.(acks := t.acks + [status.flags])
      ensures OnlyControl(old(log), log)
    {
      hide TrafficOf, ViewOf, Waited, Reported;
      ghost var waited := log;
      if status.TimedOut? {
        ghost var a, b := Kill();
        KilledIsReported(waited, log, a, b);
        return Failed(ETIMEDOUT);
      }
      result := Done;
      if status.flags & FAILED != 0 { result := Failed(EIO); }
      if status.flags & DEV_ERR != 0 { result := Failed(ENXIO); }
      if status.flags & BUS_ERR != 0 { result := Failed(EAGAIN); }
      WritePort(HSTSTS, status.flags);
      PolledIsReported(waited, log, status, result);
    }

    /** The start of one byte: its command, the start bit for the first one, and the wait. */
    method StartByte(i: nat, command: bv8, ghost from: nat) returns (status: Status, ghost issued: seq<bv8>)
      requires Paced(log, from)
      modifies this
      ensures Paced(log, from)
      ensures OnlyControl(old(log), log)
      ensures var t := TrafficOf(old(log)); TrafficOf(log) == t.(commands := t.commands + issued)
      ensures |issued| == (if i == 1 then 2 else 1) && issued[0] == command && (i == 1 ==> issued[1] & START != 0)
      ensures status.Flags? && status.flags == 0 ==> |log| > 0 && CleanPoll(log[|log| - 1])
      ensures Waited(log, status)
      ensures status.Flags? ==> status.flags & ERROR_FLAGS == status.flags
    {
      hide TrafficOf, ViewOf, Paced;
      ghost var was := log;
      WritePort(HSTCNT, command);
      issued := [command];
      if i == 1 {
        var control := ReadPort(HSTCNT);
        WritePort(HSTCNT, control | START);
        issued := [command, control | START];
      }
      ghost var mid := log;
      assert OnlyControl(was, mid);
      status := WaitByteDone();
      ControlAfter(was, mid, log);
      if status.Flags? {
        if status.flags == 0 { ReadyWithoutError(reply(polls - 1)); }
      }
      PacedControl(was, log, from);
    }

    /** The end of the transfer: the last wait if every byte went well, and the result. */
    method Finish(status: Status, ghost from: nat) returns (result: Result, ghost last: Status)
      requires Paced(log, from) && (status.Flags? ==> status.flags & ERROR_FLAGS == status.flags)
      requires status != Flags(0) ==> Waited(log, status)
      modifies this
      ensures Paced(log, from) && ViewOf(log) == ViewOf(old(log)) && Reported(log, result)
      ensures result == Done ==>
                && status == Flags(0) && last.Flags? && last.flags & ERROR_FLAGS == 0 && last.flags & INTR != 0
                && var t := TrafficOf(old(log)); TrafficOf(log) == t.(acks := t.acks + [last.flags])
      ensures result != Failed(EPROTO) && result != Failed(EBUSY)
    {
      hide TrafficOf, ViewOf, Paced;
      ghost var was := log;
      var final := status;
      if status == Flags(0) {
        final := WaitIntr();
      }
      last := final;
      ghost var mid := log;
      assert OnlyControl(was, mid);
      result := CheckPost(final);
      ControlAfter(was, mid, log);
      PacedControl(was, log, from);
    }

    /** The length and the first byte of a write. */
    method SendFirst(length: bv8, first: bv8, ghost from: nat)
      requires Paced(log, from)
      modifies this
      ensures Paced(log, from)
      ensures TrafficOf(log) == TrafficOf(old(log))
      ensures var v := ViewOf(old(log));
              ViewOf(log) == v.(lengthSent := v.lengthSent + [length], sent := v.sent + [first])
    {
      hide TrafficOf, ViewOf, Paced, MayFollow;
      PacedStep(log, Write(DAT0, length), from);
      WritePort(DAT0, length);
      AfterLength(log);
      PacedStep(log, Write(BLKDAT, first), from);
      WritePort(BLKDAT, first);
    }

    /** The data of byte `i`: stored when reading; when writing, the next byte is sent. Then the byte is acknowledged.
        */
    method MoveByte(block: array<bv8>, i: nat, len: nat, write: bool, ghost from: nat)
      requires block.Length == BLOCK_MAX + 2 && 1 <= i <= len <= BLOCK_MAX
      requires Paced(log, from) && MayFollow(log)
      modifies this, block
      ensures Paced(log, from)
      ensures block[..] == if write then old(block[..]) else old(block[..])[i := block[i]]
      ensures var t := TrafficOf(old(log)); TrafficOf(log) == t.(acks := t.acks + [BYTE_DONE])
      ensures var v := ViewOf(old(log));
              ViewOf(log) == if !write then v.(got := v.got + [block[i]])
                             else if i < len then v.(sent := v.sent + [block[i + 1]]) else v
    {
      hide TrafficOf, ViewOf, MayFollow, Paced;
      if !write {
        ghost var was := log;
        var v := ReadPort(BLKDAT);
        PacedStep(was, Read(BLKDAT, v), from);
        block[i] := v;
      }
      if write && i + 1 <= len {
        PacedStep(log, Write(BLKDAT, block[i + 1]), from);
        WritePort(BLKDAT, block[i + 1]);
      }
      PacedStep(log, Write(HSTSTS, BYTE_DONE), from);
      WritePort(HSTSTS, BYTE_DONE);
    }

    /** The device is not busy for ever. */
    ghost predicate Settles() { forall m: nat :: IdleAfter(m) }

    ghost predicate IdleAfter(m: nat) { exists k: nat :: k >= m && Idle(k) }

    /** Clears the host after a length that no block can have. */
    method Recover()
      requires Settles()
      modifies this
      ensures OnlyControl(old(log), log) && |log| >= |old(log)| + 2
      ensures BusyPairs(log[..|log| - 2], |old(log)|)
      ensures Polled(log[|log| - 2]) && log[|log| - 2].value & 0x01 == 0 && log[|log| - 1] == Write(HSTSTS, 0x02)
    {
      hide TrafficOf, ViewOf, BusyPairs;
      assert IdleAfter(polls);
      ghost var idle: nat :| idle >= polls && Idle(idle);
      ghost var pairs := log;
      assert BusyPairs(pairs, |old(log)|) by { NoPairs(log); }
      var v := ReadPort(HSTSTS);
      while v & HOST_BUSY != 0
        invariant OnlyControl(old(log), log) && polls > 0 && v == reply(polls - 1) && polls - 1 <= idle
        invariant log == pairs + [Read(HSTSTS, v)] && |pairs| >= |old(log)| && BusyPairs(pairs, |old(log)|)
        decreases idle - polls
      {
        assert Idle(idle) && polls - 1 != idle;
        OnePair(pairs, |old(log)|, Read(HSTSTS, v), Write(HSTSTS, 0x80));
        WritePort(HSTSTS, BYTE_DONE);
        pairs := log;
        v := ReadPort(HSTSTS);
      }
      WritePort(HSTSTS, INTR);
      assert log[..|log| - 2] == pairs;
    }

    /** The length that an SMBus block read announces before its data. */
    method ReadLength(block: array<bv8>, ghost from: nat) returns (len: nat, ok: bool)
      requires block.Length == BLOCK_MAX + 2 && Settles()
      requires Paced(log, from) && |log| > 0 && CleanPoll(log[|log| - 1])
      modifies this, block
      ensures ok == (1 <= len <= BLOCK_MAX) && len < 0x100 && (ok ==> MayFollow(log))
      ensures block[..] == if ok then old(block[..])[0 := len as bv8] else old(block[..])
      ensures ok ==> TrafficOf(log) == TrafficOf(old(log))
      ensures Paced(log, from) && (!ok ==> Recovered(log))
      ensures var v := ViewOf(old(log)); ViewOf(log) == v.(lengthGot := v.lengthGot + [len as bv8])
    {
      hide TrafficOf, ViewOf, Paced;
      ghost var was := log;
      var v := ReadPort(DAT0);
      PacedStep(was, Read(DAT0, v), from);
      len := v as nat;
      ok := 1 <= len <= BLOCK_MAX;
      if ok {
        block[0] := v;
      } else {
        ghost var mid := log;
        Recover();
        PacedControl(mid, log, from);
        assert log[|mid| - 1] == mid[|mid| - 1];
        assert RecoveredFrom(log, |mid|);
      }
    }

    /** The second half of the loop body, once byte `i` is there: for the first byte of an SMBus block read the length,
        then the data. Not `ok` when the length is no length. */
    method TakeByte(block: array<bv8>, i: nat, len: nat, write: bool, kind: Kind, ghost from: nat, ghost was: View,
                    ghost before: seq<bv8>, ghost n: nat, ghost announced: seq<bv8>)
        returns (newLen: nat, ok: bool, ghost m: nat, ghost length: seq<bv8>)
      requires block.Length == BLOCK_MAX + 2 && i <= len
      requires !write && kind == SmbusBlock && i == 1 ==> Settles()
      requires Paced(log, from) && |log| > 0 && CleanPoll(log[|log| - 1])
      requires Progress(was, ViewOf(log), before, block[..], write, kind, i, len, n, announced)
      modifies this, block
      ensures Paced(log, from)
      ensures ok ==> Progress(was, ViewOf(log), before, block[..], write, kind, i + 1, newLen, m, length)
      ensures !ok ==> !write && ReadIn(was, ViewOf(log), before, block[..], kind, 0, length, Failed(EPROTO))
      ensures !ok ==> Recovered(log)
      ensures var t := TrafficOf(old(log)); ok ==> TrafficOf(log) == t.(acks := t.acks + [BYTE_DONE])
      ensures i > 1 || write || kind == I2cBlock ==> newLen == len
    {
      hide TrafficOf, ViewOf, Paced, MayFollow, Progress, ReadyToRead, ReadIn, Recovered;
      newLen, ok, m, length := len, true, n, announced;
      ghost var now, after := ViewOf(log), block[..];
      ProgressBounds(was, now, before, after, write, kind, i, len, n, announced);
      if i == 1 && !write && kind != I2cBlock {
        newLen, ok := ReadLength(block, from);
        length := [newLen as bv8];
        LengthTaken(was, now, before, after, len, n, announced, newLen as bv8);
        if !ok { return; }
      } else {
        AfterPoll(log);
        if !write { ReadOn(was, now, before, after, kind, i, len, n, announced); }
      }
      now, after := ViewOf(log), block[..];
      MoveByte(block, i, newLen, write, from);
      if write {
        WriteTaken(was, now, before, after, kind, i, len, n, announced);
      } else {
        ReadTaken(was, now, before, after, kind, i, newLen, n, length, block[i]);
      }
      if !write || i < len { m := m + 1; }
    }

    /** The body of the loop for byte `i`. A status other than zero ends the loop before the byte is there. */
    method OneByte(block: array<bv8>, i: nat, len: nat, write: bool, kind: Kind, command: bv8, ghost from: nat,
                   ghost was: View, ghost t0: Traffic, ghost before: seq<bv8>, ghost n: nat, ghost announced: seq<bv8>,
                   ghost trace: Trace)
        returns (status: Status, newLen: nat, ok: bool, ghost m: nat, ghost length: seq<bv8>, ghost next: Trace)
      requires block.Length == BLOCK_MAX + 2 && 1 <= i <= len <= BLOCK_MAX && Paced(log, from)
      requires !write && kind == SmbusBlock ==> Settles()
      requires Progress(was, ViewOf(log), before, block[..], write, kind, i, len, n, announced)
      requires Conducted(t0, TrafficOf(log), write, kind, len, i - 1, trace) && trace.start & START != 0
      requires command == if i == len && !write then Base(write, kind) | LAST_BYTE else Base(write, kind)
      requires !write && kind == SmbusBlock && i == 1 ==> len == BLOCK_MAX
      modifies this, block
      ensures Paced(log, from) && (status.Flags? ==> status.flags & ERROR_FLAGS == status.flags)
      ensures status != Flags(0) ==>
                && Waited(log, status) && newLen == len && m == n && length == announced && next == trace
                && block[..] == old(block[..])
                && Progress(was, ViewOf(log), before, block[..], write, kind, i, len, n, announced)
      ensures status == Flags(0) && ok ==>
                && Progress(was, ViewOf(log), before, block[..], write, kind, i + 1, newLen, m, length)
                && Conducted(t0, TrafficOf(log), write, kind, newLen, i, next) && next.start & START != 0
                && (i > 1 || write || kind == I2cBlock ==> newLen == len)
      ensures status == Flags(0) && !ok ==>
                !write && ReadIn(was, ViewOf(log), before, block[..], kind, 0, length, Failed(EPROTO)) && Recovered(log)
    {
      hide TrafficOf, ViewOf, Paced, Progress, ReadIn, Conducted, Command, Base, MayFollow, Recovered;
      ghost var t1 := TrafficOf(log);
      newLen, ok, m, length, next := len, true, n, announced, trace;
      ghost var issued;
      status, issued := StartByte(i, command, from);
      if status != Flags(0) { return; }
      newLen, ok, m, length := TakeByte(block, i, len, write, kind, from, was, before, n, announced);
      if !ok { return; }
      ghost var start := if i == 1 then issued[1] else trace.start;
      CommandIs(write, kind, len, newLen, i, command);
      ConductStep(t0, t1, TrafficOf(log), write, kind, len, newLen, i, trace, issued, start);
      next := trace.(start := start);
    }

    /** The transfer, byte by byte; `n` bytes have been moved when it ends, and `announced` is what was read as length.
        */
    method BlockTransactionByteByByte(block: array<bv8>, write: bool, kind: Kind)
        returns (result: Result, ghost n: nat, ghost announced: seq<bv8>, ghost trace: Trace)
      requires block.Length == BLOCK_MAX + 2 && 1 <= block[0] as int <= BLOCK_MAX
      requires !write && kind == SmbusBlock ==> block[0] == 32 && Settles()
      modifies this, block
      ensures Paced(log, |old(log)|)
      ensures write ==> block[..] == old(block[..]) && Written(ViewOf(old(log)), ViewOf(log), block[..], n, result)
      ensures !write ==>
                ReadIn(ViewOf(old(log)), ViewOf(log), old(block[..]), block[..], kind, n, announced, result)
      ensures result == Done ==>
                Completed(TrafficOf(old(log)), TrafficOf(log), write, kind, block[0] as nat, trace)
      ensures result == Failed(EBUSY) <==> Refuses(old(polls))
      ensures result == Failed(EBUSY) ==> n == 0 && ViewOf(log) == ViewOf(old(log))
      ensures result != Failed(EBUSY) && result != Failed(EPROTO) ==> Reported(log, result)
      ensures result == Failed(EPROTO) ==> Recovered(log)
    {
      hide TrafficOf, ViewOf, Paced, Progress, Written, ReadIn, Conducted, Completed, Command, Refuses, Reported, Waited,
           Settles, Recovered, Base, MayFollow, Seeing, Passing;
      ghost var from, v0, t0, b0 := |log|, ViewOf(log), TrafficOf(log), block[..];
      n, announced, trace := 0, [], Trace(START, [], 0);
      NothingPaced(log);
      NothingMoved(v0, b0, kind);
      ghost var stale;
      result, stale := CheckPre(from);
      if result.Failed? { return; }
      trace := trace.(stale := stale);
      var len: nat := block[0] as nat;
      if write { SendFirst(block[0], block[1], from); }
      var command := Base(write, kind);
      var i := 1;
      n := if write then 1 else 0;
      ProgressStarts(v0, b0, write, kind, len);
      ConductStarts(t0, TrafficOf(log), write, kind, len, trace);
      var status := Flags(0);
      while i <= len
        invariant 1 <= i <= len + 1 && len <= BLOCK_MAX && Paced(log, from) && status == Flags(0)
        invariant Progress(v0, ViewOf(log), b0, block[..], write, kind, i, len, n, announced)
        invariant Conducted(t0, TrafficOf(log), write, kind, len, i - 1, trace) && trace.start & START != 0
        invariant i <= len ==> command == Base(write, kind)
        invariant !write && kind == SmbusBlock && i == 1 ==> len == BLOCK_MAX
        decreases BLOCK_MAX + 1 - i
      {
        if i == len && !write { command := command | LAST_BYTE; }
        var ok;
        status, len, ok, n, announced, trace :=
          OneByte(block, i, len, write, kind, command, from, v0, t0, b0, n, announced, trace);
        if status != Flags(0) { break; }
        if !ok { return Failed(EPROTO), 0, announced, trace; }
        i := i + 1;
        ProgressBounds(v0, ViewOf(log), b0, block[..], write, kind, i, len, n, announced);
      }
      ghost var t2 := TrafficOf(log);
      ghost var last;
      result, last := Finish(status, from);
      ProgressEnds(v0, ViewOf(log), b0, block[..], write, kind, i, len, n, announced, result);
      ProgressLength(v0, ViewOf(log), b0, block[..], write, kind, i, len, n, announced);
      if result == Done {
        ConductEnds(t0, t2, TrafficOf(log), write, kind, len, trace, last.flags);
        trace := trace.(last := last.flags);
      }
    }

    /** i801_block_transaction: the length is forced between 1 and 32 first. */
    method BlockTransaction(block: array<bv8>, write: bool, kind: Kind)
        returns (result: Result, ghost n: nat, ghost announced: seq<bv8>, ghost trace: Trace)
      requires block.Length == BLOCK_MAX + 2 && (!write && kind == SmbusBlock ==> Settles())
      modifies this, block
      ensures Paced(log, |old(log)|)
      ensures var b := old(block[..])[0 := Clamped(old(block[0]), write, kind)];
              if write then block[..] == b && Written(ViewOf(old(log)), ViewOf(log), b, n, result)
              else ReadIn(ViewOf(old(log)), ViewOf(log), b, block[..], kind, n, announced, result)
      ensures result == Done ==>
                Completed(TrafficOf(old(log)), TrafficOf(log), write, kind, block[0] as nat, trace)
      ensures result == Failed(EBUSY) <==> Refuses(old(polls))
      ensures result == Failed(EBUSY) ==> n == 0 && ViewOf(log) == ViewOf(old(log))
      ensures result != Failed(EBUSY) && result != Failed(EPROTO) ==> Reported(log, result)
      ensures result == Failed(EPROTO) ==> Recovered(log)
    {
      hide TrafficOf, ViewOf, Paced, Written, ReadIn, Completed, Recovered;
      if write || kind == I2cBlock {
        if block[0] < 1 { block[0] := 1; }
        if block[0] > 32 { block[0] := 32; }
      } else {
        block[0] := 32;
      }
      assert block[..] == old(block[..])[0 := Clamped(old(block[0]), write, kind)];
      result, n, announced, trace := BlockTransactionByteByByte(block, write, kind);
    }
  }

  function Clamped(length: bv8, write: bool, kind: Kind): (r: bv8)
    ensures 1 <= r as nat <= BLOCK_MAX
    ensures if !write && kind == SmbusBlock then r == 32
            else if 1 <= length as nat <= BLOCK_MAX then r == length
            else r as nat == if length == 0 then 1 else BLOCK_MAX
  {
    if !write && kind == SmbusBlock then 32 else if length < 1 then 1 else if length > 32 then 32 else length
  }

  function Base(write: bool, kind: Kind): bv8 { if kind == I2cBlock && !write then I2C_BLOCK_DATA else BLOCK_DATA }

  /** The command for byte `i` of `len`: a read says which byte is the last one, but the first byte of an SMBus block
      is started before its length is known. */
  function Command(write: bool, kind: Kind, len: nat, i: nat): bv8 {
    if !write && i == len && (kind == I2cBlock || i > 1) then Base(write, kind) | LAST_BYTE else Base(write, kind)
  }

  /** The commands of the first `n` bytes; `start` is written after the first of them. */
  function Commands(write: bool, kind: Kind, len: nat, n: nat, start: bv8): seq<bv8> {
    if n == 0 then []
    else Commands(write, kind, len, n - 1, start) + [Command(write, kind, len, n)] + if n == 1 then [start] else []
  }

  /** The commands of a whole transfer, as numbers: the start bit after the first one; a read marks its last byte, but
      an SMBus block of one byte is started before that is known. */
  lemma {:induction false} CommandsAre(write: bool, kind: Kind, len: nat, n: nat, start: bv8)
    requires 1 <= n <= len
    ensures var cs := Commands(write, kind, len, n, start);
            && |cs| == n + 1 && cs[1] == start
            && cs[0] == (if !write && kind == I2cBlock then if len == 1 then 0x38 else 0x18 else 0x14)
            && forall i :: 2 <= i <= n ==>
                 cs[i] == if write then 0x14
                          else if kind == I2cBlock then if i == len then 0x38 else 0x18
                          else if i == len then 0x34 else 0x14
  {
    if n > 1 {
      CommandsAre(write, kind, len, n - 1, start);
    } else {
      assert Commands(write, kind, len, 0, start) == [];
    }
  }

  function Repeat(v: bv8, n: nat): (r: seq<bv8>)
    ensures |r| == n && forall k :: 0 <= k < n ==> r[k] == v
  {
    if n == 0 then [] else Repeat(v, n - 1) + [v]
  }

  /** What a transfer writes besides data: the start bit, stale flags it clears first, and the final status. */
  datatype Trace = Trace(start: bv8, stale: seq<bv8>, last: bv8)

  /** After `n` bytes: every command so far, the start bit once; and one acknowledgement a byte. */
  predicate Conducted(was: Traffic, now: Traffic, write: bool, kind: Kind, len: nat, n: nat, trace: Trace) {
    && now.commands == was.commands + Commands(write, kind, len, n, trace.start)
    && now.acks == was.acks + trace.stale + Repeat(BYTE_DONE, n)
    && |trace.stale| <= 1 && (n > 0 ==> trace.start & START != 0)
  }

  /** A transfer of `len` bytes up to the final status, which carries no error and is acknowledged last. */
  predicate Completed(was: Traffic, now: Traffic, write: bool, kind: Kind, len: nat, trace: Trace) {
    && trace.last & ERROR_FLAGS == 0 && trace.last & INTR != 0 && now.acks != []
    && now.acks[|now.acks| - 1] == trace.last
    && Conducted(was, now.(acks := now.acks[..|now.acks| - 1]), write, kind, len, len, trace)
  }

  lemma ConductStarts(was: Traffic, now: Traffic, write: bool, kind: Kind, len: nat, trace: Trace)
    requires |trace.stale| <= 1 && now == was.(acks := was.acks + trace.stale)
    ensures Conducted(was, now, write, kind, len, 0, trace)
  {
    assert was.commands + [] == was.commands && now.acks + [] == now.acks;
  }

  lemma SameCommands(write: bool, kind: Kind, len: nat, newLen: nat, n: nat, start: bv8, newStart: bv8)
    requires n > 0 ==> len == newLen && start == newStart
    ensures Commands(write, kind, len, n, start) == Commands(write, kind, newLen, n, newStart)
  {
  }

  lemma ConductStep(was: Traffic, now: Traffic, next: Traffic, write: bool, kind: Kind, len: nat, newLen: nat, i: nat,
                    trace: Trace, issued: seq<bv8>, start: bv8)
    requires i > 0 && Conducted(was, now, write, kind, len, i - 1, trace)
    requires i > 1 ==> len == newLen && start == trace.start
    requires issued == [Command(write, kind, newLen, i)] + if i == 1 then [start] else []
    requires start & START != 0
    requires next == Traffic(now.commands + issued, now.acks + [BYTE_DONE])
    ensures Conducted(was, next, write, kind, newLen, i, trace.(start := start))
  {
    SameCommands(write, kind, len, newLen, i - 1, trace.start, start);
    var before := Commands(write, kind, newLen, i - 1, start);
    assert was.commands + before + issued == was.commands + (before + issued);
    assert was.acks + trace.stale + Repeat(BYTE_DONE, i - 1) + [BYTE_DONE]
           == was.acks + trace.stale + (Repeat(BYTE_DONE, i - 1) + [BYTE_DONE]);
    assert before + issued == before + [Command(write, kind, newLen, i)] + if i == 1 then [start] else [];
  }

  lemma ConductEnds(was: Traffic, now: Traffic, next: Traffic, write: bool, kind: Kind, len: nat, trace: Trace,
                    last: bv8)
    requires Conducted(was, now, write, kind, len, len, trace) && last & ERROR_FLAGS == 0 && last & INTR != 0
    requires next == now.(acks := now.acks + [last])
    ensures Completed(was, next, write, kind, len, trace.(last := last))
  {
    hide Commands, Repeat;
  }

  /** Before byte `i`. */
  predicate Progress(was: View, now: View, before: seq<bv8>, after: seq<bv8>, write: bool, kind: Kind, i: nat, len: nat,
                     n: nat, announced: seq<bv8>)
  {
    && |before| == |after| == BLOCK_MAX + 2 && 1 <= i <= len + 1 && 1 <= len == after[0] as nat <= BLOCK_MAX
    && if write then
         after == before && n == (if i <= len then i else len) && Written(was, now, after, n, Failed(EBUSY))
       else
         && n == i - 1 && ReadSoFar(was, now, before, after, n, announced)
         && Sized(kind, before[0], after[0], announced)
         && if kind == SmbusBlock && i > 1 then LengthFits(announced) else announced == []
  }

  lemma ProgressBounds(was: View, now: View, before: seq<bv8>, after: seq<bv8>, write: bool, kind: Kind, i: nat,
                       len: nat, n: nat, announced: seq<bv8>)
    requires Progress(was, now, before, after, write, kind, i, len, n, announced)
    ensures |before| == |after| == BLOCK_MAX + 2 && 1 <= i <= len + 1 && len <= BLOCK_MAX
  {
  }

  /** Byte `i` of a read is ready, and the length is known. */
  predicate ReadyToRead(was: View, now: View, before: seq<bv8>, after: seq<bv8>, kind: Kind, i: nat, len: nat, n: nat,
                        announced: seq<bv8>)
  {
    && |before| == |after| == BLOCK_MAX + 2 && 1 <= i <= len == after[0] as nat <= BLOCK_MAX && n == i - 1
    && ReadSoFar(was, now, before, after, n, announced) && Sized(kind, before[0], after[0], announced)
    && if kind == SmbusBlock then LengthFits(announced) else announced == []
  }

  lemma ReadOn(was: View, now: View, before: seq<bv8>, after: seq<bv8>, kind: Kind, i: nat, len: nat, n: nat,
               announced: seq<bv8>)
    requires Progress(was, now, before, after, false, kind, i, len, n, announced)
    requires i <= len && (i > 1 || kind == I2cBlock)
    ensures ReadyToRead(was, now, before, after, kind, i, len, n, announced)
  {
    hide ReadSoFar;
  }

  lemma LengthTaken(was: View, now: View, before: seq<bv8>, after: seq<bv8>, len: nat, n: nat, announced: seq<bv8>,
                    x: bv8)
    requires Progress(was, now, before, after, false, SmbusBlock, 1, len, n, announced)
    ensures n == 0 && |after| == BLOCK_MAX + 2
    ensures var t := now.(lengthGot := now.lengthGot + [x]);
            if 1 <= x as nat <= BLOCK_MAX
            then ReadyToRead(was, t, before, after[0 := x], SmbusBlock, 1, x as nat, 0, [x])
            else ReadIn(was, t, before, after, SmbusBlock, 0, [x], Failed(EPROTO))
  {
    hide ReadSoFar;
    NothingRead(was, now, before, after, SmbusBlock);
    LengthStep(was, now, before, after, x);
    LengthStep(was, now, before, after[0 := x], x);
  }

  lemma WriteTaken(was: View, now: View, before: seq<bv8>, after: seq<bv8>, kind: Kind, i: nat, len: nat, n: nat,
                   announced: seq<bv8>)
    requires Progress(was, now, before, after, true, kind, i, len, n, announced) && i <= len
    ensures var t := if i < len then now.(sent := now.sent + [after[i + 1]]) else now;
            Progress(was, t, before, after, true, kind, i + 1, len, if i < len then n + 1 else n, announced)
  {
    hide Written;
    if i < len { WriteStep(was, now, after, i); }
  }

  lemma ReadTaken(was: View, now: View, before: seq<bv8>, after: seq<bv8>, kind: Kind, i: nat, len: nat, n: nat,
                  announced: seq<bv8>, x: bv8)
    requires ReadyToRead(was, now, before, after, kind, i, len, n, announced)
    ensures Progress(was, now.(got := now.got + [x]), before, after[i := x], false, kind, i + 1, len, n + 1, announced)
  {
    hide ReadSoFar;
    ReadStep(was, now, before, after, n, announced, x);
  }

  lemma ProgressStarts(was: View, block: seq<bv8>, write: bool, kind: Kind, len: nat)
    requires |block| == BLOCK_MAX + 2 && 1 <= len == block[0] as nat <= BLOCK_MAX
    ensures var now := if !write then was
                       else was.(lengthSent := was.lengthSent + [block[0]], sent := was.sent + [block[1]]);
            Progress(was, now, block, block, write, kind, 1, len, if write then 1 else 0, [])
  {
    hide Written, ReadSoFar;
    WriteStarts(was, block);
    ReadStarts(was, block);
  }

  lemma NothingMoved(was: View, block: seq<bv8>, kind: Kind)
    requires |block| == BLOCK_MAX + 2 && 1 <= block[0] as nat <= BLOCK_MAX
    ensures Written(was, was, block, 0, Failed(EBUSY)) && ReadIn(was, was, block, block, kind, 0, [], Failed(EBUSY))
  {
    hide Written, ReadSoFar;
    WriteStarts(was, block);
    ReadStarts(was, block);
  }

  lemma ProgressEnds(was: View, now: View, before: seq<bv8>, after: seq<bv8>, write: bool, kind: Kind, i: nat, len: nat,
                     n: nat, announced: seq<bv8>, result: Result)
    requires Progress(was, now, before, after, write, kind, i, len, n, announced)
    requires result != Failed(EPROTO) && (result == Done ==> i == len + 1)
    ensures write ==> after == before && Written(was, now, after, n, result)
    ensures !write ==> |before| == |after| == BLOCK_MAX + 2 &&
                       ReadIn(was, now, before, after, kind, n, announced, result)
  {
    hide ReadSoFar;
    if write {
      WriteEnds(was, now, after, n, result);
    } else {
    }
  }

  lemma ProgressLength(was: View, now: View, before: seq<bv8>, after: seq<bv8>, write: bool, kind: Kind, i: nat,
                       len: nat, n: nat, announced: seq<bv8>)
    requires Progress(was, now, before, after, write, kind, i, len, n, announced)
    ensures |after| == BLOCK_MAX + 2 && len == after[0] as nat
  {
  }

  /** The command the loop has in hand is the one for byte `i` of the length known in the end. */
  lemma CommandIs(write: bool, kind: Kind, len: nat, newLen: nat, i: nat, command: bv8)
    requires command == if i == len && !write then Base(write, kind) | LAST_BYTE else Base(write, kind)
    requires i > 0 && if !write && kind == SmbusBlock && i == 1 then len == BLOCK_MAX else newLen == len
    ensures command == Command(write, kind, newLen, i)
  {
    hide Base;
  }

  lemma NothingRead(was: View, now: View, before: seq<bv8>, after: seq<bv8>, kind: Kind)
    requires |before| == |after| == BLOCK_MAX + 2 && ReadSoFar(was, now, before, after, 0, [])
    requires Sized(kind, before[0], after[0], [])
    ensures after == before
  {
    assert before == [before[0]] + before[1..] && after == [after[0]] + after[1..];
  }

  lemma NothingPaced(log: seq<Access>)
    ensures Paced(log, |log|)
  {
  }

  lemma AfterLength(log: seq<Access>)
    requires |log| > 0 && log[|log| - 1].Write? && log[|log| - 1].port == DAT0
    ensures MayFollow(log)
  {
  }

  lemma AfterPoll(log: seq<Access>)
    requires |log| > 0 && CleanPoll(log[|log| - 1])
    ensures MayFollow(log)
  {
  }
}
