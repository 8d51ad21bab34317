// The touch-controller daemon: the SPI "Z2" transactions it exchanges with
// the kernel driver (`/dev/hx-touch`), the bootloader that streams a
// firmware item list, report reads and writes, the firmware-list file, and
// the start-up sequence with its retries.
//
// The driver is an oracle.
// - Every call the daemon makes on it (an ioctl, a write, a read, open,
//   close) is one `Op`.
// - A `Link` says which call succeeds: the call at position `t` of the
//   trace fails when `t` is in `fails`.
// - A read of `n` bytes at position `t` returns the first `n` bytes of
//   `answers(t)`; it is short, and so fails, when `answers(t)` holds fewer.
module HxTouchd {
  import opened Wrappers
  import opened Bytes
  import opened MtfwFrame

  // ---------------------------------------------------------------------------
  // Commands and driver requests

  const MAX_DATA_CHUNK: nat := 16384

  const CMD_LAST: Byte := 0xE1
  const REP_INFO: Byte := 0xE3
  const CTRL_WRITE_SHORT: Byte := 0xE4
  const CTRL_READ_SHORT: Byte := 0xE6
  const CTRL_READ_LONG: Byte := 0xE7
  const WAKE_CMD: Byte := 0xEE

  /** The rectangle handed to the driver with `HXT_IOC_METRICS`. */
  datatype Metrics = Metrics(left: int, right: int, top: int, bottom: int)

  /** The driver's ioctl requests, with their argument. */
  datatype Req = SetCs(level: nat) | Reset | Ready | SetupIrq | WaitIrq(ms: nat) | SetMetrics(m: Metrics)

  /** One call on the driver. */
  datatype Op = Ioctl(req: Req) | Write(data: seq<Byte>) | Read(n: nat) | Open | Close

  /** How the driver answers: which calls fail, and what each read returns. */
  datatype Link = Link(fails: set<nat>, answers: nat -> seq<Byte>)

  /** The call `op`, made at trace position `t`, succeeds. */
  predicate Ok(l: Link, t: nat, op: Op)
  {
    t !in l.fails && (op.Read? ==> |l.answers(t)| >= op.n)
  }

  /** The `n` bytes a successful read at position `t` delivers. */
  function Reply(l: Link, t: nat, n: nat): (r: seq<Byte>)
    ensures |r| == n
  {
    if |l.answers(t)| >= n then l.answers(t)[..n] else Zeros(n)
  }

  /** The calls made and whether all succeeded. */
  datatype Run = Run(ops: seq<Op>, ok: bool)

  /**
   * A sequence of calls where any failure ends the sequence (the daemon
   * returns on it), started at trace position `t`.
   */
  function Exec(l: Link, t: nat, ops: seq<Op>): Run
    decreases |ops|
  {
    if ops == [] then Run([], true)
    else if !Ok(l, t, ops[0]) then Run([ops[0]], false)
    else
      var rest := Exec(l, t + 1, ops[1..]);
      Run([ops[0]] + rest.ops, rest.ok)
  }

  /** `a` followed, if it succeeded, by `b`. */
  function Then(a: Run, b: Run): (r: Run)
    ensures r.ok ==> a.ok && b.ok
  {
    if a.ok then Run(a.ops + b.ops, b.ok) else a
  }

  /**
   * What `Exec` means when it succeeds: exactly when each call succeeds, and
   * then every call is made.
   */
  lemma {:induction false} ExecMeaning(l: Link, t: nat, ops: seq<Op>)
    ensures Exec(l, t, ops).ok <==> forall k | 0 <= k < |ops| :: Ok(l, t + k, ops[k])
    ensures Exec(l, t, ops).ok ==> Exec(l, t, ops).ops == ops
    decreases |ops|
  {
    if ops != [] && Ok(l, t, ops[0]) {
      ExecMeaning(l, t + 1, ops[1..]);
      assert forall k | 1 <= k < |ops| :: ops[k] == ops[1..][k - 1];
    }
  }

  /**
   * What `Exec` means when it fails: the calls made are those up to and
   * including the first that fails.
   */
  lemma {:induction false} ExecFailure(l: Link, t: nat, ops: seq<Op>)
    ensures !Exec(l, t, ops).ok ==> Failed(l, t, ops, |Exec(l, t, ops).ops|) && Exec(l, t, ops).ops == ops[..|Exec(l, t, ops).ops|]
    decreases |ops|
  {
    if ops != [] && Ok(l, t, ops[0]) {
      ExecFailure(l, t + 1, ops[1..]);
      var r := Exec(l, t + 1, ops[1..]);
      if !r.ok {
        var n := |r.ops|;
        FailedShift(l, t, ops, n);
        assert [ops[0]] + ops[1..][..n] == ops[..n + 1];
      }
    }
  }

  /** The first `n` calls are made and the last of them is the first failure. */
  predicate Failed(l: Link, t: nat, ops: seq<Op>, n: nat)
  {
    0 < n <= |ops| && !Ok(l, t + n - 1, ops[n - 1]) && forall k | 0 <= k < n - 1 :: Ok(l, t + k, ops[k])
  }

  lemma FailedShift(l: Link, t: nat, ops: seq<Op>, n: nat)
    requires ops != [] && Ok(l, t, ops[0]) && Failed(l, t + 1, ops[1..], n)
    ensures Failed(l, t, ops, n + 1)
  {
    assert forall k | 1 <= k < n + 1 :: ops[k] == ops[1..][k - 1];
  }

  /** Running `a + b` is running `a`, then `b` after it if `a` succeeded. */
  lemma {:induction false} ExecAppend(l: Link, t: nat, a: seq<Op>, b: seq<Op>)
    ensures Exec(l, t, a + b) == Then(Exec(l, t, a), Exec(l, t + |a|, b))
    decreases |a|
  {
    if a == [] {
      assert a + b == b;
    } else {
      assert (a + b)[1..] == a[1..] + b;
      if Ok(l, t, a[0]) {
        ExecAppend(l, t + 1, a[1..], b);
      }
    }
  }

  // ---------------------------------------------------------------------------
  // The driver

  /** The open device: the trace of calls made on it so far. */
  class Device {
    const link: Link
    var trace: seq<Op>

    constructor(link: Link)
      ensures this.link == link && trace == []
    {
      this.link := link;
      trace := [];
    }

    /** Makes one call; a read returns the bytes it delivered. */
    method Call(op: Op) returns (ok: bool, data: seq<Byte>)
      modifies this
      ensures trace == old(trace) + [op]
      ensures ok == Ok(link, |old(trace)|, op)
      ensures data == if ok && op.Read? then Reply(link, |old(trace)|, op.n) else []
    {
      ok := Ok(link, |trace|, op);
      data := if ok && op.Read? then Reply(link, |trace|, op.n) else [];
      trace := trace + [op];
    }
  }

  /**
   * Makes the calls `ops` in order, stopping at the first that fails; when the
   * last call is a read that succeeds, returns what it delivered.
   */
  method Transact(dev: Device, ops: seq<Op>) returns (ok: bool, data: seq<Byte>)
    requires ops != []
    modifies dev
    ensures dev.trace == old(dev.trace) + Exec(dev.link, |old(dev.trace)|, ops).ops
    ensures ok == Exec(dev.link, |old(dev.trace)|, ops).ok
    ensures ok && ops[|ops| - 1].Read? ==>
      data == Reply(dev.link, |old(dev.trace)| + |ops| - 1, ops[|ops| - 1].n)
    decreases |ops|
  {
    ok, data := dev.Call(ops[0]);
    if ok && |ops| > 1 {
      ok, data := Transact(dev, ops[1..]);
    }
  }

  // ---------------------------------------------------------------------------
  // Little-endian fields and the Z2 frame

  /** `put16le`: the low byte of `v` at `off`, the next byte at `off + 1`. */
  method Put16le(buf: array<Byte>, off: nat, v: nat)
    requires off + 1 < buf.Length
    modifies buf
    ensures buf[..] == old(buf[..])[off := v % 256][off + 1 := (v / 256) % 256]
    ensures GetLe16(buf[off], buf[off + 1]) == v % U16
  {
    buf[off] := v % 256;
    buf[off + 1] := (v / 256) % 256;
    Le16RoundTrip(v);
  }

  /** The 16-byte frame: the first 14 command bytes and their sum, little-endian. */
  function Framed(cmd: seq<Byte>): (f: seq<Byte>)
    requires |cmd| >= 14
    ensures |f| == 16 && f[..14] == cmd[..14]
  {
    cmd[..14] + Le16(Sum(cmd[..14]))
  }

  /** The last two bytes of a frame decode to the sum of its first 14, modulo 2^16. */
  lemma FrameChecksum(cmd: seq<Byte>)
    requires |cmd| >= 14
    ensures GetLe16(Framed(cmd)[14], Framed(cmd)[15]) == Sum(Framed(cmd)[..14]) % U16
  {
    Le16RoundTrip(Sum(cmd[..14]));
  }

  /** A frame without a command: sixteen zero bytes. */
  lemma NullFrame()
    ensures Framed(Zeros(16)) == Zeros(16)
  {
    var z := Zeros(16);
    SumZeros(14);
    assert z[..14] == Zeros(14);
    assert Le16(0) == [0, 0];
    assert z == z[..14] + [0, 0];
  }

  lemma {:induction false} SumZeros(n: nat)
    ensures Sum(Zeros(n)) == 0
  {
    if n > 0 {
      assert Zeros(n)[..n - 1] == Zeros(n - 1);
      SumZeros(n - 1);
    }
  }

  /** One SPI transfer: chip select, `out` written, `n` bytes read back, deselect. */
  function Xfer(out: seq<Byte>, n: nat): seq<Op>
  {
    [Ioctl(SetCs(1)), Write(out), Read(n), Ioctl(SetCs(0))]
  }

  /** A Z2 transaction: the transfer of a 16-byte frame. */
  function Z2(frame: seq<Byte>): seq<Op>
  {
    Xfer(frame, 16)
  }

  /** The Z2 transaction of a command, started at position `t`. */
  function Z2Run(l: Link, t: nat, cmd: seq<Byte>): Run
    requires |cmd| >= 14
  {
    Exec(l, t, Z2(Framed(cmd)))
  }

  /** The response of the Z2 transaction at `t` reached its read. */
  predicate Answered(l: Link, t: nat, frame: seq<Byte>)
  {
    Ok(l, t, Ioctl(SetCs(1))) && Ok(l, t + 1, Write(frame)) && Ok(l, t + 2, Read(16))
  }

  /** A frame depends only on the first 14 command bytes. */
  lemma FramedPrefix(a: seq<Byte>, b: seq<Byte>)
    requires |a| >= 14 && |b| >= 14 && forall k | 0 <= k < 14 :: a[k] == b[k]
    ensures Framed(a) == Framed(b)
  {
    assert a[..14] == b[..14];
  }

  /**
   * `send_z2`: stores the checksum into bytes 14-15 of the command in place
   * (a missing command is a zero frame), sends the frame and reads 16 bytes
   * into the response buffer (dropped when there is none).
   */
  method SendZ2(dev: Device, cmd: array?<Byte>, rsp: array?<Byte>) returns (r: int)
    requires cmd != null ==> cmd.Length == 16
    requires rsp != null ==> rsp.Length == 16 && rsp != cmd
    modifies dev, cmd, rsp
    ensures var f := Framed(if cmd == null then Zeros(16) else old(cmd[..]));
      var run := Z2Run(dev.link, |old(dev.trace)|, if cmd == null then Zeros(16) else old(cmd[..]));
      && dev.trace == old(dev.trace) + run.ops
      && (r == 0 <==> run.ok) && (r == 0 || r == 1)
      && (cmd != null ==> cmd[..] == f)
      && (rsp != null ==>
            rsp[..] == if Answered(dev.link, |old(dev.trace)|, f) then Reply(dev.link, |old(dev.trace)| + 2, 16) else old(rsp[..]))
  {
    var buf := new Byte[16](_ => 0);
    var c := if cmd == null then buf else cmd;
    assert cmd == null ==> c[..] == Zeros(16);
    Stamp(c);
    r := Exchange(dev, c[..], rsp);
  }

  /** Puts the checksum of the first 14 bytes into bytes 14-15. */
  method Stamp(c: array<Byte>)
    requires c.Length == 16
    modifies c
    ensures c[..] == Framed(old(c[..]))
  {
    var csum := Checksum(c);
    Put16le(c, 14, csum);
  }

  /** The four calls of a Z2 transaction of `frame`, the response read into `rsp`. */
  method Exchange(dev: Device, f: seq<Byte>, rsp: array?<Byte>) returns (r: int)
    requires rsp != null ==> rsp.Length == 16
    modifies dev, rsp
    ensures var run := Exec(dev.link, |old(dev.trace)|, Z2(f));
      && dev.trace == old(dev.trace) + run.ops
      && (r == 0 <==> run.ok) && (r == 0 || r == 1)
      && (rsp != null ==>
            rsp[..] == if Answered(dev.link, |old(dev.trace)|, f) then Reply(dev.link, |old(dev.trace)| + 2, 16) else old(rsp[..]))
  {
    var ok, read, data := Transfer(dev, f, 16);
    if read && rsp != null {
      Fill(rsp, 0, data);
    }
    r := if ok then 0 else 1;
  }

  /** `send_z2` of a command with no response buffer. */
  method Send(dev: Device, cmd: array<Byte>) returns (r: int)
    requires cmd.Length == 16
    modifies dev, cmd
    ensures cmd[..] == Framed(old(cmd[..]))
    ensures var run := Z2Run(dev.link, |old(dev.trace)|, old(cmd[..]));
      dev.trace == old(dev.trace) + run.ops && (r == 0 <==> run.ok)
    ensures (r == 0 || r == 1) && (r == 0 ==> |dev.trace| == |old(dev.trace)| + 4)
  {
    ghost var t := |dev.trace|;
    ghost var c := cmd[..];
    r := SendZ2(dev, cmd, null);
    Z2Done(dev.link, t, c);
  }

  /** `send_z2` of a command whose response is kept in `rsp`. */
  method Ask(dev: Device, cmd: array<Byte>, rsp: array<Byte>) returns (r: int)
    requires cmd.Length == 16 && rsp.Length == 16 && rsp != cmd
    modifies dev, cmd, rsp
    ensures cmd[..] == Framed(old(cmd[..]))
    ensures var run := Z2Run(dev.link, |old(dev.trace)|, old(cmd[..]));
      dev.trace == old(dev.trace) + run.ops && (r == 0 <==> run.ok)
    ensures r == 0 || r == 1
    ensures r == 0 ==> |dev.trace| == |old(dev.trace)| + 4 && rsp[..] == Reply(dev.link, |old(dev.trace)| + 2, 16)
  {
    ghost var t := |dev.trace|;
    ghost var c := cmd[..];
    r := SendZ2(dev, cmd, rsp);
    Z2Done(dev.link, t, c);
  }

  /** A Z2 transaction that succeeded made its four calls and reached its read. */
  lemma Z2Done(l: Link, t: nat, c: seq<Byte>)
    requires |c| >= 14
    ensures Z2Run(l, t, c).ok ==> Z2Run(l, t, c).ops == Z2(Framed(c)) && Answered(l, t, Framed(c))
  {
    var ops := Z2(Framed(c));
    ExecMeaning(l, t, ops);
    if Z2Run(l, t, c).ok {
      assert Ok(l, t + 0, ops[0]) && Ok(l, t + 1, ops[1]) && Ok(l, t + 2, ops[2]);
    }
  }

  /**
   * One SPI transfer; `read` tells whether the read was reached and
   * succeeded, and `data` is what it delivered.
   */
  method Transfer(dev: Device, out: seq<Byte>, n: nat) returns (ok: bool, read: bool, data: seq<Byte>)
    modifies dev
    ensures var run := Exec(dev.link, |old(dev.trace)|, Xfer(out, n));
      dev.trace == old(dev.trace) + run.ops && ok == run.ok
    ensures read == (Ok(dev.link, |old(dev.trace)|, Ioctl(SetCs(1))) && Ok(dev.link, |old(dev.trace)| + 1, Write(out))
      && Ok(dev.link, |old(dev.trace)| + 2, Read(n)))
    ensures read ==> data == Reply(dev.link, |old(dev.trace)| + 2, n)
    ensures ok ==> read
  {
    ghost var t := |dev.trace|;
    var head := [Ioctl(SetCs(1)), Write(out), Read(n)];
    ok, data := Transact(dev, head);
    ExecAppend(dev.link, t, head, [Ioctl(SetCs(0))]);
    assert head + [Ioctl(SetCs(0))] == Xfer(out, n);
    ExecMeaning(dev.link, t, head);
    read := ok;
    if ok {
      var last;
      ok, last := dev.Call(Ioctl(SetCs(0)));
    }
  }

  /** The checksum loop of `send_z2`: the sum of the first 14 command bytes. */
  method Checksum(c: array<Byte>) returns (csum: nat)
    requires c.Length >= 14
    ensures csum == Sum(c[..14])
  {
    var i := 0;
    csum := 0;
    while i < 14
      invariant 0 <= i <= 14
      invariant csum == Sum(c[..i])
    {
      assert c[..i + 1] == c[..i] + [c[i]];
      SumAppend(c[..i], [c[i]]);
      csum := csum + c[i];
      i := i + 1;
    }
  }

  /** `memcpy(dst + off, src, |src|)`. */
  method Fill(dst: array<Byte>, off: nat, src: seq<Byte>)
    requires off + |src| <= dst.Length
    modifies dst
    ensures dst[..] == old(dst[..off]) + src + old(dst[off + |src|..])
  {
    forall k | 0 <= k < |src| {
      dst[off + k] := src[k];
    }
    assert dst[..] == old(dst[..off]) + src + old(dst[off + |src|..]);
  }

  /** A 16-byte command: its opcode, report id, third byte, then zeros. */
  function Cmd(op: Byte, rpt: Byte, arg: Byte): (c: seq<Byte>)
    ensures |c| == 16
  {
    [op, rpt, arg, 0, 0, 0, 0, 0, 0, 0, 0, 0, 0, 0, 0, 0]
  }

  /** `send_wake`: a Z2 transaction of the wake command; the response is dropped. */
  method SendWake(dev: Device) returns (r: int)
    modifies dev
    ensures var run := Z2Run(dev.link, |old(dev.trace)|, Cmd(WAKE_CMD, 0, 0));
      dev.trace == old(dev.trace) + run.ops && (r == 0 <==> run.ok)
  {
    var cmd := new Byte[16](_ => 0);
    cmd[0] := WAKE_CMD;
    assert cmd[..] == Cmd(WAKE_CMD, 0, 0);
    r := SendZ2(dev, cmd, null);
  }

  // ---------------------------------------------------------------------------
  // Reports

  /** The command `write_report` sends first: opcode, report id, length, payload. */
  function WriteCmd(rpt: Byte, payload: seq<Byte>): (c: seq<Byte>)
    requires |payload| <= 13
    ensures |c| == 16
  {
    [CTRL_WRITE_SHORT, rpt, |payload|] + payload + Zeros(13 - |payload|)
  }

  /** The closing command: `c` with its first three bytes replaced by `E1 00 00`. */
  function Terminator(c: seq<Byte>): (e: seq<Byte>)
    requires |c| == 16
    ensures |e| == 16
  {
    [CMD_LAST, 0, 0] + c[3..]
  }

  /**
   * The two frames of `write_report`: the first carries the opcode, the report
   * id, the length and the payload (as far as byte 13; the checksum takes
   * bytes 14-15); the terminator agrees with it on bytes 3-13 and differs
   * only in bytes 0-2 (`E1 00 00`) and in the checksum.
   */
  lemma WriteFrames(rpt: Byte, payload: seq<Byte>)
    requires |payload| <= 13
    ensures var f := Framed(WriteCmd(rpt, payload));
      var e := Framed(Terminator(WriteCmd(rpt, payload)));
      && f[..3] == [CTRL_WRITE_SHORT, rpt, |payload|]
      && (forall k | 3 <= k < 14 && k < 3 + |payload| :: f[k] == payload[k - 3])
      && e[..3] == [CMD_LAST, 0, 0]
      && (forall k | 3 <= k < 14 :: e[k] == f[k])
  {
    var c := WriteCmd(rpt, payload);
    assert forall k | 3 <= k < 3 + |payload| :: c[k] == payload[k - 3];
  }

  /**
   * `write_report`: a Z2 transaction of the report (at most 13 payload bytes
   * fit a frame), then, if it succeeded, one of its terminator.
   */
  method WriteReport(dev: Device, rpt: Byte, payload: seq<Byte>) returns (r: int)
    requires |payload| <= 13
    modifies dev
    ensures var c := WriteCmd(rpt, payload);
      var run := Then(Z2Run(dev.link, |old(dev.trace)|, c), Z2Run(dev.link, |old(dev.trace)| + 4, Terminator(c)));
      dev.trace == old(dev.trace) + run.ops && (r == 0 <==> run.ok) && (r == 0 || r == 1)
  {
    var cmd := NewWriteCmd(rpt, payload);
    ghost var c := cmd[..];
    ghost var t := |dev.trace|;
    r := Send(dev, cmd);
    if r != 0 {
      return;
    }
    ghost var f := cmd[..];
    Relabel(cmd, CMD_LAST, 0, 0);
    TerminatorFrame(c, f);
    r := Send(dev, cmd);
  }

  /** The first command of `write_report`, in a fresh buffer. */
  method NewWriteCmd(rpt: Byte, payload: seq<Byte>) returns (cmd: array<Byte>)
    requires |payload| <= 13
    ensures fresh(cmd) && cmd[..] == WriteCmd(rpt, payload)
  {
    cmd := new Byte[16](_ => 0);
    cmd[0] := CTRL_WRITE_SHORT;
    cmd[1] := rpt;
    cmd[2] := |payload|;
    Fill(cmd, 3, payload);
  }

  /** Overwrites the first three command bytes. */
  method Relabel(cmd: array<Byte>, b0: Byte, b1: Byte, b2: Byte)
    requires cmd.Length == 16
    modifies cmd
    ensures cmd[..] == old(cmd[..])[0 := b0][1 := b1][2 := b2]
  {
    cmd[0] := b0;
    cmd[1] := b1;
    cmd[2] := b2;
  }

  lemma TerminatorFrame(c: seq<Byte>, f: seq<Byte>)
    requires |c| == 16 && f == Framed(c)
    ensures Framed(f[0 := CMD_LAST][1 := 0][2 := 0]) == Framed(Terminator(c))
  {
    FramedPrefix(f[0 := CMD_LAST][1 := 0][2 := 0], Terminator(c));
  }

  /** What `read_report` did: its calls, its result, the length it reported back, the bytes it copied. */
  datatype Reported = Reported(ops: seq<Op>, status: int, len: Option<nat>, data: seq<Byte>)

  function Min(a: nat, b: nat): (m: nat)
    ensures m <= a && m <= b && (m == a || m == b)
  {
    if a < b then a else b
  }

  /** The read-long command: the report-info command with opcode `E7` and the count at bytes 3-4. */
  function LongCmd(c: seq<Byte>, rlen: nat): (d: seq<Byte>)
    requires |c| == 16
    ensures |d| == 16
  {
    c[0 := CTRL_READ_LONG][3 := rlen % 256][4 := (rlen / 256) % 256]
  }

  /** `n` bytes of the `A5` filler clocked out during a long read. */
  function Filler(n: nat): (f: seq<Byte>)
    ensures |f| == n
  {
    seq(n, _ => 0xA5)
  }

  /**
   * The transfer of the report body, `rlen` bytes: two Z2 transactions (read
   * short, then last) when it fits a frame, else the read-long command and a
   * raw transfer of `rlen + 5` bytes.
   */
  function Fetch(l: Link, t: nat, c: seq<Byte>, rlen: nat): Run
    requires |c| == 16
  {
    if rlen <= 11 then Then(Z2Run(l, t, c[0 := CTRL_READ_SHORT]), Z2Run(l, t + 4, c[0 := CMD_LAST][1 := 0]))
    else Then(Z2Run(l, t, LongCmd(c, rlen)), Exec(l, t + 4, Xfer(Filler(rlen + 5), rlen + 5)))
  }

  /** The report body a successful `Fetch` delivers: bytes 3 onwards of its last read. */
  function Fetched(l: Link, t: nat, rlen: nat): (d: seq<Byte>)
    ensures |d| == rlen
  {
    if rlen <= 11 then Reply(l, t + 6, 16)[3..3 + rlen] else Reply(l, t + 6, rlen + 5)[3..3 + rlen]
  }

  /**
   * `read_report` of report `rpt` into a buffer of `cap` bytes, from trace
   * position `t`: the report-info command twice, the second response giving
   * the status (byte 2) and the length (bytes 3-4), then the body.
   */
  function Report(l: Link, t: nat, rpt: Byte, cap: nat): Reported
  {
    Reading(l, t, Cmd(REP_INFO, rpt, 0), cap)
  }

  /** `read_report` with the report-info command `c`. */
  function Reading(l: Link, t: nat, c: seq<Byte>, cap: nat): Reported
    requires |c| == 16
  {
    var a := Then(Z2Run(l, t, c), Z2Run(l, t + 4, c));
    if !a.ok then Reported(a.ops, 1, None, [])
    else
      var x := Answer(l, t + 8, c, Reply(l, t + 6, 16), cap);
      Reported(a.ops + x.ops, x.status, x.len, x.data)
  }

  /**
   * What follows a report-info response `rsp` (from trace position `t` on):
   * a nonzero status byte ends it; otherwise bytes 3-4 give the length, and
   * at most `cap` bytes of the body are fetched.
   */
  function Answer(l: Link, t: nat, c: seq<Byte>, rsp: seq<Byte>, cap: nat): Reported
    requires |c| == 16 && |rsp| == 16
  {
    if rsp[2] != 0 then Reported([], 2, None, [])
    else
      var len := GetLe16(rsp[3], rsp[4]);
      var rlen := Min(len, cap);
      var b := Fetch(l, t, c, rlen);
      Reported(b.ops, if b.ok then 0 else 1, Some(len), if b.ok then Fetched(l, t, rlen) else [])
  }

  /**
   * `read_report`: reads report `rpt` into `buf`, whose capacity `plen` is
   * passed in and replaced by the length the controller reported.
   */
  method ReadReport(dev: Device, rpt: Byte, buf: array<Byte>, plen: nat) returns (r: int, plen': nat)
    requires plen <= buf.Length
    modifies dev, buf
    ensures var R := Report(dev.link, |old(dev.trace)|, rpt, plen);
      && dev.trace == old(dev.trace) + R.ops && r == R.status
      && plen' == (if R.len.Some? then R.len.value else plen)
      && |R.data| <= buf.Length
      && buf[..] == R.data + old(buf[..])[|R.data|..]
  {
    var cmd := NewCmd(REP_INFO, rpt);
    r, plen' := ReadWith(dev, cmd, buf, plen);
  }

  /** `read_report` once the report-info command is built in `cmd`. */
  method ReadWith(dev: Device, cmd: array<Byte>, buf: array<Byte>, plen: nat) returns (r: int, plen': nat)
    requires cmd.Length == 16 && plen <= buf.Length && buf != cmd
    modifies dev, cmd, buf
    ensures var R := Reading(dev.link, |old(dev.trace)|, old(cmd[..]), plen);
      && dev.trace == old(dev.trace) + R.ops && r == R.status
      && plen' == (if R.len.Some? then R.len.value else plen)
      && |R.data| <= buf.Length
      && buf[..] == R.data + old(buf[..])[|R.data|..]
  {
    ghost var t := |dev.trace|;
    ghost var l := dev.link;
    ghost var c := cmd[..];
    var rsp := new Byte[16](_ => 0);
    r := Info(dev, cmd, rsp);
    ghost var a := Then(Z2Run(l, t, c), Z2Run(l, t + 4, c));
    if r != 0 {
      assert buf[..] == [] + old(buf[..])[0..];
      return 1, plen;
    }
    ghost var reply := rsp[..];
    ghost var x := Answer(l, t + 8, c, reply, plen);
    FetchPrefix(l, t + 8, cmd[..], c, plen, reply);
    assert buf[..] == old(buf[..]);
    r, plen' := Respond(dev, cmd, rsp, plen, buf);
    Regroup(old(dev.trace), a.ops, x.ops);
  }

  /** Concatenation of call lists is associative. */
  lemma Regroup(a: seq<Op>, b: seq<Op>, c: seq<Op>)
    ensures a + b + c == a + (b + c)
  {
  }

  /** `read_report` after the report-info response `rsp`. */
  method Respond(dev: Device, cmd: array<Byte>, rsp: array<Byte>, plen: nat, buf: array<Byte>) returns (r: int, plen': nat)
    requires cmd.Length == 16 && rsp.Length == 16 && rsp != cmd
    requires plen <= buf.Length && buf != cmd && buf != rsp
    modifies dev, cmd, rsp, buf
    ensures var x := Answer(dev.link, |old(dev.trace)|, old(cmd[..]), old(rsp[..]), plen);
      && dev.trace == old(dev.trace) + x.ops && r == x.status
      && plen' == (if x.len.Some? then x.len.value else plen)
      && |x.data| <= buf.Length
      && buf[..] == x.data + old(buf[..])[|x.data|..]
  {
    if rsp[2] != 0 {
      return 2, plen;
    }
    var len := GetLe16(rsp[3], rsp[4]);
    var rlen := Min(len, plen);
    plen' := len;
    r := Body(dev, cmd, rsp, rlen, buf);
  }

  lemma FetchPrefix(l: Link, t: nat, a: seq<Byte>, b: seq<Byte>, cap: nat, rsp: seq<Byte>)
    requires |a| == 16 && |b| == 16 && a[..14] == b[..14] && |rsp| == 16
    ensures Answer(l, t, a, rsp, cap) == Answer(l, t, b, rsp, cap)
  {
    var rlen := Min(GetLe16(rsp[3], rsp[4]), cap);
    FramedPrefix(a[0 := CTRL_READ_SHORT], b[0 := CTRL_READ_SHORT]);
    FramedPrefix(a[0 := CMD_LAST][1 := 0], b[0 := CMD_LAST][1 := 0]);
    FramedPrefix(LongCmd(a, rlen), LongCmd(b, rlen));
  }

  /** The report-info command sent twice; the second response is kept. */
  method Info(dev: Device, cmd: array<Byte>, rsp: array<Byte>) returns (r: int)
    requires cmd.Length == 16 && rsp.Length == 16 && rsp != cmd
    modifies dev, cmd, rsp
    ensures cmd[..] == Framed(old(cmd[..]))
    ensures var c := old(cmd[..]);
      var a := Then(Z2Run(dev.link, |old(dev.trace)|, c), Z2Run(dev.link, |old(dev.trace)| + 4, c));
      dev.trace == old(dev.trace) + a.ops && (r == 0 <==> a.ok)
    ensures r == 0 ==> |dev.trace| == |old(dev.trace)| + 8 && rsp[..] == Reply(dev.link, |old(dev.trace)| + 6, 16)
  {
    ghost var c := cmd[..];
    r := Send(dev, cmd);
    if r != 0 {
      return 1;
    }
    FramedPrefix(cmd[..], c);
    r := Ask(dev, cmd, rsp);
  }

  /** A command with an opcode and a report id, in a fresh buffer. */
  method NewCmd(op: Byte, rpt: Byte) returns (cmd: array<Byte>)
    ensures fresh(cmd) && cmd[..] == Cmd(op, rpt, 0)
  {
    cmd := new Byte[16](_ => 0);
    cmd[0] := op;
    cmd[1] := rpt;
  }

  /** The report body of `read_report`, by the short or the long path. */
  method Body(dev: Device, cmd: array<Byte>, rsp: array<Byte>, rlen: nat, buf: array<Byte>) returns (r: int)
    requires cmd.Length == 16 && rsp.Length == 16 && rsp != cmd
    requires rlen <= buf.Length && buf != cmd && buf != rsp
    modifies dev, cmd, rsp, buf
    ensures var b := Fetch(dev.link, |old(dev.trace)|, old(cmd[..]), rlen);
      && dev.trace == old(dev.trace) + b.ops && (r == 0 <==> b.ok) && (r == 0 || r == 1)
      && buf[..] == if b.ok then Fetched(dev.link, |old(dev.trace)|, rlen) + old(buf[..])[rlen..] else old(buf[..])
  {
    if rlen <= 11 {
      r := ShortFetch(dev, cmd, rsp, rlen, buf);
    } else {
      r := LongFetch(dev, cmd, rlen, buf);
    }
  }

  /** The short path of `read_report`: the body comes back in a Z2 response. */
  method ShortFetch(dev: Device, cmd: array<Byte>, rsp: array<Byte>, rlen: nat, buf: array<Byte>) returns (r: int)
    requires cmd.Length == 16 && rsp.Length == 16 && rsp != cmd
    requires rlen <= 11 && rlen <= buf.Length && buf != cmd && buf != rsp
    modifies dev, cmd, rsp, buf
    ensures var b := Fetch(dev.link, |old(dev.trace)|, old(cmd[..]), rlen);
      && dev.trace == old(dev.trace) + b.ops && (r == 0 <==> b.ok) && (r == 0 || r == 1)
      && buf[..] == if b.ok then Fetched(dev.link, |old(dev.trace)|, rlen) + old(buf[..])[rlen..] else old(buf[..])
  {
    ghost var t := |dev.trace|;
    ghost var l := dev.link;
    ghost var c := cmd[..];
    ghost var a := Z2Run(l, t, c[0 := CTRL_READ_SHORT]);
    ghost var b := Z2Run(l, t + 4, c[0 := CMD_LAST][1 := 0]);
    cmd[0] := CTRL_READ_SHORT;
    r := Send(dev, cmd);
    if r != 0 {
      return;
    }
    cmd[0] := CMD_LAST;
    cmd[1] := 0;
    FramedPrefix(cmd[..], c[0 := CMD_LAST][1 := 0]);
    r := Ask(dev, cmd, rsp);
    Extend(old(dev.trace), a, b);
    if r != 0 {
      return;
    }
    ghost var before := buf[..];
    Fill(buf, 0, rsp[3..3 + rlen]);
    assert before[..0] == [];
  }

  /** The long path of `read_report`: the read-long command, then a raw transfer of `rlen + 5` bytes. */
  method LongFetch(dev: Device, cmd: array<Byte>, rlen: nat, buf: array<Byte>) returns (r: int)
    requires cmd.Length == 16 && rlen > 11 && rlen <= buf.Length && buf != cmd
    modifies dev, cmd, buf
    ensures var b := Fetch(dev.link, |old(dev.trace)|, old(cmd[..]), rlen);
      && dev.trace == old(dev.trace) + b.ops && (r == 0 <==> b.ok) && (r == 0 || r == 1)
      && buf[..] == if b.ok then Fetched(dev.link, |old(dev.trace)|, rlen) + old(buf[..])[rlen..] else old(buf[..])
  {
    ghost var t := |dev.trace|;
    ghost var l := dev.link;
    ghost var c := cmd[..];
    cmd[0] := CTRL_READ_LONG;
    Put16le(cmd, 3, rlen);
    assert cmd[..] == LongCmd(c, rlen);
    r := Send(dev, cmd);
    if r != 0 {
      return;
    }
    var ok, read, data := Transfer(dev, Filler(rlen + 5), rlen + 5);
    if !ok {
      return 1;
    }
    Fill(buf, 0, data[3..3 + rlen]);
    r := 0;
  }

  // ---------------------------------------------------------------------------
  // Bootloader

  /** Reset, a four-byte probe, IRQ set-up and a second reset, all fatal on failure. */
  function Prologue(): seq<Op>
  {
    [Ioctl(Reset), Write([0, 0, 0, 0]), Read(4), Ioctl(SetupIrq), Ioctl(Reset)]
  }

  /** The transfers of `d[i..]`, in chunks of at most `MAX_DATA_CHUNK` bytes. */
  function ChunksFrom(d: seq<Byte>, i: nat): seq<Op>
    decreases |d| - i
  {
    if i >= |d| then [] else ChunkAt(d, i) + ChunksFrom(d, i + MAX_DATA_CHUNK)
  }

  /** The transfer of the chunk at `i`: a write of up to `MAX_DATA_CHUNK` bytes and a read of as many. */
  function ChunkAt(d: seq<Byte>, i: nat): seq<Op>
    requires i < |d|
  {
    var n := Min(|d| - i, MAX_DATA_CHUNK);
    [Write(d[i..i + n]), Read(n)]
  }

  /** The bytes a sequence of calls writes, in order. */
  function Written(ops: seq<Op>): seq<Byte>
  {
    if ops == [] then [] else (if ops[0].Write? then ops[0].data else []) + Written(ops[1..])
  }

  /** The calls alternate a write of 1 to `MAX_DATA_CHUNK` bytes and a read of as many. */
  predicate Chunked(ops: seq<Op>)
  {
    |ops| % 2 == 0 &&
    forall k | 0 <= k < |ops| / 2 ::
      ops[2 * k].Write? && 0 < |ops[2 * k].data| <= MAX_DATA_CHUNK && ops[2 * k + 1] == Read(|ops[2 * k].data|)
  }

  /**
   * The chunks cover the payload exactly and in order: their writes put
   * together are `d[i..]`, each holds 1 to 16384 bytes and is answered by a
   * read of the same size.
   */
  lemma ChunksCover(d: seq<Byte>, i: nat)
    requires i <= |d|
    ensures Written(ChunksFrom(d, i)) == d[i..]
    ensures Chunked(ChunksFrom(d, i))
  {
    ChunksWritten(d, i);
    ChunksSized(d, i);
  }

  lemma {:induction false} ChunksWritten(d: seq<Byte>, i: nat)
    requires i <= |d|
    ensures Written(ChunksFrom(d, i)) == d[i..]
    decreases |d| - i
  {
    if i < |d| {
      var n := Min(|d| - i, MAX_DATA_CHUNK);
      if i + MAX_DATA_CHUNK <= |d| {
        ChunksWritten(d, i + MAX_DATA_CHUNK);
      }
      WrittenChunk(d[i..i + n], ChunksFrom(d, i + MAX_DATA_CHUNK));
      SliceSplit(d, i, i + n);
    }
  }

  lemma {:induction false} ChunksSized(d: seq<Byte>, i: nat)
    requires i <= |d|
    ensures Chunked(ChunksFrom(d, i))
    decreases |d| - i
  {
    if i < |d| {
      var n := Min(|d| - i, MAX_DATA_CHUNK);
      if i + MAX_DATA_CHUNK <= |d| {
        ChunksSized(d, i + MAX_DATA_CHUNK);
      }
      ChunkedCons(d[i..i + n], ChunksFrom(d, i + MAX_DATA_CHUNK));
    }
  }

  /** A chunk's transfer writes the chunk. */
  lemma WrittenChunk(p: seq<Byte>, rest: seq<Op>)
    ensures Written([Write(p), Read(|p|)] + rest) == p + Written(rest)
  {
    var ops := [Write(p), Read(|p|)] + rest;
    assert ops[1..] == [Read(|p|)] + rest;
    assert ops[1..][1..] == rest;
  }

  lemma SliceSplit(d: seq<Byte>, i: nat, j: nat)
    requires i <= j <= |d|
    ensures d[i..] == d[i..j] + d[j..]
  {
  }

  lemma ChunkedCons(p: seq<Byte>, rest: seq<Op>)
    requires 0 < |p| <= MAX_DATA_CHUNK && Chunked(rest)
    ensures Chunked([Write(p), Read(|p|)] + rest)
  {
    var ops := [Write(p), Read(|p|)] + rest;
    forall k | 1 <= k < |ops| / 2
      ensures ops[2 * k].Write? && 0 < |ops[2 * k].data| <= MAX_DATA_CHUNK && ops[2 * k + 1] == Read(|ops[2 * k].data|)
    {
      assert ops[2 * k] == rest[2 * (k - 1)] && ops[2 * k + 1] == rest[2 * (k - 1) + 1];
    }
  }

  /** The acknowledgement transfer after a `WRITE_ACK` item. */
  function Ack(): seq<Op>
  {
    Xfer([0x1A, 0xA1], 2)
  }

  /**
   * The calls for one firmware item: a `WRITE` or `WRITE_ACK` item is sent in
   * chunks under one chip select, a `WRITE_ACK` item then gets the
   * acknowledgement transfer; any other item sends nothing.
   */
  function ItemOps(it: Item): seq<Op>
  {
    if it.kind == WRITE || it.kind == WRITE_ACK then
      Wrapped(it.data) + (if it.kind == WRITE_ACK then Ack() else [])
    else []
  }

  /** The chunks of `d` between raising and dropping the chip select. */
  function Wrapped(d: seq<Byte>): seq<Op>
  {
    [Ioctl(SetCs(1))] + ChunksFrom(d, 0) + [Ioctl(SetCs(0))]
  }

  /** The calls for a whole item list, in order. */
  function ItemsOps(items: seq<Item>): seq<Op>
  {
    if items == [] then [] else ItemsOps(items[..|items| - 1]) + ItemOps(items[|items| - 1])
  }

  /**
   * `bootload` from trace position `t`: the prologue; the boot-IRQ wait, whose
   * failure is only reported; a four-byte exchange; then the items.
   */
  function Boot(l: Link, t: nat, items: seq<Item>): Run
  {
    var a := Exec(l, t, Prologue());
    if !a.ok then a
    else
      var b := Exec(l, t + 6, Xfer([0, 0, 0, 0], 4) + ItemsOps(items));
      Run(a.ops + [Ioctl(WaitIrq(500))] + b.ops, b.ok)
  }

  /** What the item calls send: the payloads of the write items, each followed by `1A A1` when acknowledged. */
  function Sent(items: seq<Item>): seq<Byte>
  {
    if items == [] then []
    else
      var it := items[|items| - 1];
      Sent(items[..|items| - 1]) +
        (if it.kind == WRITE || it.kind == WRITE_ACK then it.data + (if it.kind == WRITE_ACK then [0x1A, 0xA1] else []) else [])
  }

  lemma {:induction false} WrittenAppend(a: seq<Op>, b: seq<Op>)
    ensures Written(a + b) == Written(a) + Written(b)
    decreases |a|
  {
    if a == [] {
      assert a + b == b;
    } else {
      assert (a + b)[1..] == a[1..] + b;
      WrittenAppend(a[1..], b);
    }
  }

  /**
   * The bytes the item calls write are exactly the payloads of the `WRITE` and
   * `WRITE_ACK` items, in order, with `1A A1` after each `WRITE_ACK` payload;
   * `WAIT_IRQ` and `SET_TYPE` items contribute nothing.
   */
  lemma {:induction false} ItemsSent(items: seq<Item>)
    ensures Written(ItemsOps(items)) == Sent(items)
  {
    if items != [] {
      var it := items[|items| - 1];
      ItemsSent(items[..|items| - 1]);
      WrittenAppend(ItemsOps(items[..|items| - 1]), ItemOps(it));
      ItemWritten(it);
    }
  }

  /** What one item writes. */
  lemma ItemWritten(it: Item)
    ensures Written(ItemOps(it)) ==
      if it.kind == WRITE || it.kind == WRITE_ACK then it.data + (if it.kind == WRITE_ACK then [0x1A, 0xA1] else []) else []
  {
    if it.kind == WRITE || it.kind == WRITE_ACK {
      var tail := if it.kind == WRITE_ACK then Ack() else [];
      var chunks := ChunksFrom(it.data, 0);
      ChunksCover(it.data, 0);
      assert it.data[0..] == it.data;
      assert ItemOps(it) == [Ioctl(SetCs(1))] + (chunks + ([Ioctl(SetCs(0))] + tail));
      WrittenAppend(chunks, [Ioctl(SetCs(0))] + tail);
      assert ([Ioctl(SetCs(1))] + (chunks + ([Ioctl(SetCs(0))] + tail)))[1..] == chunks + ([Ioctl(SetCs(0))] + tail);
      assert ([Ioctl(SetCs(0))] + tail)[1..] == tail;
      if it.kind == WRITE_ACK {
        AckWritten();
      }
    } else {
      assert ItemOps(it) == [];
    }
  }

  lemma AckWritten()
    ensures Written(Ack()) == [0x1A, 0xA1]
  {
    var a := Ack();
    assert a[1..] == [Write([0x1A, 0xA1]), Read(2), Ioctl(SetCs(0))];
    assert a[1..][1..] == [Read(2), Ioctl(SetCs(0))];
    assert a[1..][1..][1..] == [Ioctl(SetCs(0))];
    assert a[1..][1..][1..][1..] == [];
  }

  /** `bootload`: resets the controller and streams the firmware items to it. */
  method Bootload(dev: Device, items: seq<Item>) returns (r: int)
    modifies dev
    ensures var run := Boot(dev.link, |old(dev.trace)|, items);
      dev.trace == old(dev.trace) + run.ops && (r == 0 <==> run.ok) && (r == 0 || r == 1)
  {
    ghost var t := |dev.trace|;
    ghost var l := dev.link;
    ghost var a := Exec(l, t, Prologue());
    var ok, data := Transact(dev, Prologue());
    if !ok {
      return 1;
    }
    ExecMeaning(l, t, Prologue());
    var waited;
    waited, data := dev.Call(Ioctl(WaitIrq(500)));
    ghost var mid := dev.trace;
    ghost var b := Exec(l, t + 6, Xfer([0, 0, 0, 0], 4) + ItemsOps(items));
    ok := Stream(dev, items);
    assert dev.trace == old(dev.trace) + (a.ops + [Ioctl(WaitIrq(500))] + b.ops);
    r := if ok then 0 else 1;
  }

  /** After the boot-IRQ wait: the four-byte exchange, then the items. */
  method Stream(dev: Device, items: seq<Item>) returns (ok: bool)
    modifies dev
    ensures var run := Exec(dev.link, |old(dev.trace)|, Xfer([0, 0, 0, 0], 4) + ItemsOps(items));
      dev.trace == old(dev.trace) + run.ops && ok == run.ok
  {
    ghost var t := |dev.trace|;
    ghost var l := dev.link;
    ghost var a := Exec(l, t, Xfer([0, 0, 0, 0], 4));
    ghost var b := Exec(l, t + 4, ItemsOps(items));
    ExecAppend(l, t, Xfer([0, 0, 0, 0], 4), ItemsOps(items));
    var read, data;
    ok, read, data := Transfer(dev, [0, 0, 0, 0], 4);
    if !ok {
      return;
    }
    ExecMeaning(l, t, Xfer([0, 0, 0, 0], 4));
    ok := SendItems(dev, items);
    Extend(old(dev.trace), a, b);
  }

  /** The item loop of `bootload`. */
  method SendItems(dev: Device, items: seq<Item>) returns (ok: bool)
    modifies dev
    ensures var run := Exec(dev.link, |old(dev.trace)|, ItemsOps(items));
      dev.trace == old(dev.trace) + run.ops && ok == run.ok
  {
    ghost var t := |dev.trace|;
    ghost var l := dev.link;
    var k := 0;
    while k < |items|
      invariant 0 <= k <= |items| && dev.link == l
      invariant Done(l, t, ItemsOps(items[..k])) && dev.trace == old(dev.trace) + ItemsOps(items[..k])
    {
      ok := NextItem(dev, items, k, old(dev.trace));
      if !ok {
        return;
      }
      k := k + 1;
    }
    assert items[..k] == items;
    ok := true;
  }

  /** One turn of the item loop: item `k`, after the first `k` have gone through. */
  method NextItem(dev: Device, items: seq<Item>, k: nat, ghost base: seq<Op>) returns (ok: bool)
    requires k < |items|
    requires Done(dev.link, |base|, ItemsOps(items[..k])) && dev.trace == base + ItemsOps(items[..k])
    modifies dev
    ensures ok ==> Done(dev.link, |base|, ItemsOps(items[..k + 1])) && dev.trace == base + ItemsOps(items[..k + 1])
    ensures !ok ==> !Exec(dev.link, |base|, ItemsOps(items)).ok && dev.trace == base + Exec(dev.link, |base|, ItemsOps(items)).ops
  {
    ghost var t := |base|;
    ghost var l := dev.link;
    ghost var done := ItemsOps(items[..k]);
    ghost var r := Exec(l, t + |done|, ItemOps(items[k]));
    ok := SendItem(dev, items[k]);
    Extend(base, Run(done, true), r);
    if !ok {
      ItemFailed(l, t, items, k);
      return;
    }
    ItemPassed(l, t, items, k);
  }

  /** An item that fails ends the run of the whole list. */
  lemma ItemFailed(l: Link, t: nat, items: seq<Item>, k: nat)
    requires k < |items| && Done(l, t, ItemsOps(items[..k]))
    requires !Exec(l, t + |ItemsOps(items[..k])|, ItemOps(items[k])).ok
    ensures Exec(l, t, ItemsOps(items)) ==
      Run(ItemsOps(items[..k]) + Exec(l, t + |ItemsOps(items[..k])|, ItemOps(items[k])).ops, false)
  {
    ItemsStep(items, k);
    ExecAppend(l, t, ItemsOps(items[..k]), ItemOps(items[k]));
    RestAfter(l, t, items, k + 1);
  }

  /** An item that succeeds extends the successful run. */
  lemma ItemPassed(l: Link, t: nat, items: seq<Item>, k: nat)
    requires k < |items| && Done(l, t, ItemsOps(items[..k]))
    requires Exec(l, t + |ItemsOps(items[..k])|, ItemOps(items[k])).ok
    ensures ItemsOps(items[..k + 1]) == ItemsOps(items[..k]) + ItemOps(items[k])
    ensures Done(l, t, ItemsOps(items[..k + 1]))
    ensures Exec(l, t + |ItemsOps(items[..k])|, ItemOps(items[k])).ops == ItemOps(items[k])
  {
    ItemsStep(items, k);
    Grow(l, t, ItemsOps(items[..k]), ItemOps(items[k]));
  }

  /** The calls of the first `k + 1` items: those of the first `k`, then item `k`'s. */
  lemma ItemsStep(items: seq<Item>, k: nat)
    requires k < |items|
    ensures ItemsOps(items[..k + 1]) == ItemsOps(items[..k]) + ItemOps(items[k])
  {
    assert items[..k + 1][..k] == items[..k];
  }

  /** The calls `ops`, made from position `t`, all succeeded. */
  predicate Done(l: Link, t: nat, ops: seq<Op>)
  {
    Exec(l, t, ops) == Run(ops, true)
  }

  /** Once the first `k` items have failed, the run of the whole list is the run of those. */
  lemma RestAfter(l: Link, t: nat, items: seq<Item>, k: nat)
    requires k <= |items| && !Exec(l, t, ItemsOps(items[..k])).ok
    ensures Exec(l, t, ItemsOps(items)) == Exec(l, t, ItemsOps(items[..k]))
  {
    ItemsSplit(items, k);
    ExecAppend(l, t, ItemsOps(items[..k]), ItemsRest(items, k));
  }

  /** The calls of the items from `k` on. */
  function ItemsRest(items: seq<Item>, k: nat): seq<Op>
    requires k <= |items|
    decreases |items| - k
  {
    if k == |items| then [] else ItemOps(items[k]) + ItemsRest(items, k + 1)
  }

  lemma {:induction false} ItemsSplit(items: seq<Item>, k: nat)
    requires k <= |items|
    ensures ItemsOps(items) == ItemsOps(items[..k]) + ItemsRest(items, k)
    decreases |items| - k
  {
    if k < |items| {
      ItemsSplit(items, k + 1);
      ItemsStep(items, k);
      var a, b, c := ItemsOps(items[..k]), ItemOps(items[k]), ItemsRest(items, k + 1);
      assert ItemsRest(items, k) == b + c;
      assert a + b + c == a + (b + c);
    } else {
      assert items[..k] == items;
    }
  }

  /** One item of the `bootload` loop. */
  method SendItem(dev: Device, it: Item) returns (ok: bool)
    modifies dev
    ensures var run := Exec(dev.link, |old(dev.trace)|, ItemOps(it));
      dev.trace == old(dev.trace) + run.ops && ok == run.ok
  {
    if it.kind == WRITE {
      assert ItemOps(it) == Wrapped(it.data) + [];
      assert Wrapped(it.data) + [] == Wrapped(it.data);
      ok := WriteItem(dev, it.data);
    } else if it.kind == WRITE_ACK {
      ok := WriteAcked(dev, it.data);
    } else {
      ok := true;
    }
  }

  /** A WRITE_ACK item: the payload as a write item, then the two-byte `1A A1` transfer. */
  method WriteAcked(dev: Device, d: seq<Byte>) returns (ok: bool)
    modifies dev
    ensures var run := Exec(dev.link, |old(dev.trace)|, Wrapped(d) + Ack());
      dev.trace == old(dev.trace) + run.ops && ok == run.ok
  {
    ghost var t := |dev.trace|;
    ghost var l := dev.link;
    ghost var o := dev.trace;
    ghost var r1 := Exec(l, t, Wrapped(d));
    ghost var r2 := Exec(l, t + |Wrapped(d)|, Ack());
    ExecAppend(l, t, Wrapped(d), Ack());
    ok := WriteItem(dev, d);
    if !ok {
      return;
    }
    ExecMeaning(l, t, Wrapped(d));
    var read, data;
    ok, read, data := Transfer(dev, [0x1A, 0xA1], 2);
    Extend(o, r1, r2);
  }

  /** A write item's payload in chunks, under one chip select. */
  method WriteItem(dev: Device, d: seq<Byte>) returns (ok: bool)
    modifies dev
    ensures var run := Exec(dev.link, |old(dev.trace)|, Wrapped(d));
      dev.trace == old(dev.trace) + run.ops && ok == run.ok
  {
    ghost var t := |dev.trace|;
    ghost var l := dev.link;
    ghost var o := dev.trace;
    ghost var chunks := ChunksFrom(d, 0);
    ghost var r1 := Exec(l, t, [Ioctl(SetCs(1))]);
    ghost var r2 := Exec(l, t + 1, chunks);
    ghost var r3 := Exec(l, t + 1 + |chunks|, [Ioctl(SetCs(0))]);
    WrappedRun(l, t, d);
    assert Exec(l, t, Wrapped(d)) == Then(r1, Then(r2, r3));
    var data;
    ok, data := Transact(dev, [Ioctl(SetCs(1))]);
    if !ok {
      return;
    }
    ExecMeaning(l, t, [Ioctl(SetCs(1))]);
    ok := SendChunks(dev, d);
    Extend(o, r1, r2);
    if !ok {
      return;
    }
    ExecMeaning(l, t + 1, chunks);
    ghost var o2 := dev.trace;
    ok, data := Transact(dev, [Ioctl(SetCs(0))]);
    Extend(o, r1, Then(r2, r3));
    Extend(o + r1.ops, r2, r3);
  }

  /** How the run of a wrapped write splits into its three parts. */
  lemma WrappedRun(l: Link, t: nat, d: seq<Byte>)
    ensures var chunks := ChunksFrom(d, 0);
      Exec(l, t, Wrapped(d)) ==
        Then(Exec(l, t, [Ioctl(SetCs(1))]), Then(Exec(l, t + 1, chunks), Exec(l, t + 1 + |chunks|, [Ioctl(SetCs(0))])))
  {
    var chunks := ChunksFrom(d, 0);
    assert Wrapped(d) == [Ioctl(SetCs(1))] + (chunks + [Ioctl(SetCs(0))]);
    ExecAppend(l, t, [Ioctl(SetCs(1))], chunks + [Ioctl(SetCs(0))]);
    ExecAppend(l, t + 1, chunks, [Ioctl(SetCs(0))]);
  }

  /** Appending the calls of a step to a trace that already holds a successful run. */
  lemma Extend(o: seq<Op>, a: Run, b: Run)
    requires a.ok
    ensures o + a.ops + b.ops == o + Then(a, b).ops
  {
  }

  /** A run that has succeeded so far, continued by a step that fails: the run ends there. */
  lemma Cut(l: Link, t: nat, done: seq<Op>, step: seq<Op>, rest: seq<Op>)
    requires Done(l, t, done) && !Exec(l, t + |done|, step).ok
    ensures Exec(l, t, done + (step + rest)) == Run(done + Exec(l, t + |done|, step).ops, false)
  {
    ExecAppend(l, t, done, step + rest);
    ExecAppend(l, t + |done|, step, rest);
  }

  /** A run that has succeeded so far, continued by a step that succeeds, has succeeded. */
  lemma Grow(l: Link, t: nat, done: seq<Op>, step: seq<Op>)
    requires Done(l, t, done) && Exec(l, t + |done|, step).ok
    ensures Done(l, t, done + step) && Exec(l, t + |done|, step).ops == step
  {
    ExecAppend(l, t, done, step);
    ExecMeaning(l, t + |done|, step);
  }

  /** The chunk loop of `bootload`. */
  method SendChunks(dev: Device, d: seq<Byte>) returns (ok: bool)
    modifies dev
    ensures var run := Exec(dev.link, |old(dev.trace)|, ChunksFrom(d, 0));
      dev.trace == old(dev.trace) + run.ops && ok == run.ok
  {
    ghost var t := |dev.trace|;
    ghost var l := dev.link;
    ghost var done: seq<Op> := [];
    var i := 0;
    while i < |d|
      invariant dev.link == l
      invariant done + ChunksFrom(d, i) == ChunksFrom(d, 0)
      invariant Done(l, t, done) && dev.trace == old(dev.trace) + done
      decreases |d| - i
    {
      ok, done := NextChunk(dev, d, i, old(dev.trace), done);
      if !ok {
        return;
      }
      i := i + MAX_DATA_CHUNK;
    }
    assert done == ChunksFrom(d, 0);
    ok := true;
  }

  /** One turn of the chunk loop: the chunk at `i`, after the calls `done` have gone through. */
  method NextChunk(dev: Device, d: seq<Byte>, i: nat, ghost base: seq<Op>, ghost done: seq<Op>)
    returns (ok: bool, ghost done': seq<Op>)
    requires i < |d| && done + ChunksFrom(d, i) == ChunksFrom(d, 0)
    requires Done(dev.link, |base|, done) && dev.trace == base + done
    modifies dev
    ensures ok ==>
      done' + ChunksFrom(d, i + MAX_DATA_CHUNK) == ChunksFrom(d, 0) && Done(dev.link, |base|, done') && dev.trace == base + done'
    ensures !ok ==>
      !Exec(dev.link, |base|, ChunksFrom(d, 0)).ok && dev.trace == base + Exec(dev.link, |base|, ChunksFrom(d, 0)).ops
  {
    ghost var t := |base|;
    ghost var l := dev.link;
    var n := Min(|d| - i, MAX_DATA_CHUNK);
    ghost var step := ChunkAt(d, i);
    assert step == [Write(d[i..i + n]), Read(n)];
    ok := SendChunk(dev, d[i..i + n]);
    ghost var r := Exec(l, t + |done|, step);
    assert dev.trace == base + done + r.ops;
    Extend(base, Run(done, true), r);
    done' := done + step;
    if !ok {
      ChunkFailed(l, t, d, i, done);
      return;
    }
    ChunkPassed(l, t, d, i, done);
  }

  /** A chunk that fails ends the run of all the chunks. */
  lemma ChunkFailed(l: Link, t: nat, d: seq<Byte>, i: nat, done: seq<Op>)
    requires i < |d| && done + ChunksFrom(d, i) == ChunksFrom(d, 0) && Done(l, t, done)
    requires !Exec(l, t + |done|, ChunkAt(d, i)).ok
    ensures Exec(l, t, ChunksFrom(d, 0)) == Run(done + Exec(l, t + |done|, ChunkAt(d, i)).ops, false)
  {
    Cut(l, t, done, ChunkAt(d, i), ChunksFrom(d, i + MAX_DATA_CHUNK));
  }

  /** A chunk that succeeds extends the successful run. */
  lemma ChunkPassed(l: Link, t: nat, d: seq<Byte>, i: nat, done: seq<Op>)
    requires i < |d| && done + ChunksFrom(d, i) == ChunksFrom(d, 0) && Done(l, t, done)
    requires Exec(l, t + |done|, ChunkAt(d, i)).ok
    ensures done + ChunkAt(d, i) + ChunksFrom(d, i + MAX_DATA_CHUNK) == ChunksFrom(d, 0)
    ensures Done(l, t, done + ChunkAt(d, i)) && Exec(l, t + |done|, ChunkAt(d, i)).ops == ChunkAt(d, i)
  {
    Advance(l, t, done, ChunkAt(d, i), ChunksFrom(d, i + MAX_DATA_CHUNK), ChunksFrom(d, 0));
  }

  /** A step that succeeds after a successful run moves the boundary between done and to do. */
  lemma Advance(l: Link, t: nat, done: seq<Op>, step: seq<Op>, rest: seq<Op>, whole: seq<Op>)
    requires done + (step + rest) == whole && Done(l, t, done) && Exec(l, t + |done|, step).ok
    ensures done + step + rest == whole && Done(l, t, done + step) && Exec(l, t + |done|, step).ops == step
  {
    Grow(l, t, done, step);
    assert done + step + rest == done + (step + rest);
  }

  /** One chunk: the write of `p`, then a read of as many bytes. */
  method SendChunk(dev: Device, p: seq<Byte>) returns (ok: bool)
    modifies dev
    ensures var run := Exec(dev.link, |old(dev.trace)|, [Write(p), Read(|p|)]);
      dev.trace == old(dev.trace) + run.ops && ok == run.ok
  {
    var data;
    ok, data := Transact(dev, [Write(p), Read(|p|)]);
  }
}
