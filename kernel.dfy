/** The Linux kernel copy of the NCS8801S bring-up (kernel/ncs8801s.c): bounded-retry
    register read, single-attempt register write, table playback and the init
    routine with its "already initialised" guard. */
module Kernel {
  import opened Regs
  import opened Bus

  /** ncs8801s_read tries a transfer at most this many times. */
  const ReadTries := 3

  /** The ID1 registers holding the input horizontal-active count. */
  const HActiveHigh: byte := 0xE4
  const HActiveLow: byte := 0xE5

  /** The driver's private struct (struct ncs8801s), as probe and parse_dt leave it. */
  class Ncs8801s {
    var i2c: bool      // false stands for a NULL i2c client
    var rstPin: int
    var pwdPin: int
    var screenW: int
    var screenH: int

    constructor (i2c: bool, rstPin: int, pwdPin: int, screenW: int, screenH: int)
      ensures this.i2c == i2c && this.rstPin == rstPin && this.pwdPin == pwdPin
      ensures this.screenW == screenW && this.screenH == screenH
    {
      this.i2c, this.rstPin, this.pwdPin := i2c, rstPin, pwdPin;
      this.screenW, this.screenH := screenW, screenH;
    }

    function State(): DevState
      reads this
    {
      DevState(i2c, rstPin, pwdPin, screenW, screenH)
    }
  }

  /** The fields of the struct that init reads. */
  datatype DevState = DevState(i2c: bool, rstPin: int, pwdPin: int, screenW: int, screenH: int)

  /** The events of one call of ncs8801s_read, its return value, and the byte the
      successful transfer stored into *val, if one did. */
  datatype ReadRun = ReadRun(events: seq<Event>, ret: int, got: Option<byte>)

  /** The read attempts made from attempt number `retries` on, after history `h`. */
  function ReadLoop(chip: Chip, h: seq<Event>, addr: byte, reg: byte, retries: nat): (r: ReadRun)
    requires retries < ReadTries
    decreases ReadTries - retries
  {
    var e := ReadXfer(addr, reg);
    var rep := Answer(chip, h + [e]);
    if rep.code == 2 then ReadRun([e], 2, Some(rep.data))
    else if retries + 1 == ReadTries then ReadRun([e], rep.code, None)
    else
      var rest := ReadLoop(chip, h + [e], addr, reg, retries + 1);
      ReadRun([e] + rest.events, rest.ret, rest.got)
  }

  /** The read loop makes at least one and at most the remaining number of attempts,
      all of them the same transfer; every attempt but the last returned something
      other than 2; it gives up only when no attempt is left; it returns the last
      attempt's result, and *val is filled exactly when that result is 2. */
  lemma {:induction false} ReadLoopAttempts(chip: Chip, h: seq<Event>, addr: byte, reg: byte, retries: nat)
    requires retries < ReadTries
    decreases ReadTries - retries
    ensures var r := ReadLoop(chip, h, addr, reg, retries);
      1 <= |r.events| <= ReadTries - retries &&
      (forall i :: 0 <= i < |r.events| ==> r.events[i] == ReadXfer(addr, reg)) &&
      r.ret == Answer(chip, h + r.events).code &&
      (forall k :: 1 <= k < |r.events| ==> Answer(chip, h + r.events[..k]).code != 2) &&
      (r.ret != 2 ==> |r.events| == ReadTries - retries) &&
      r.got == if r.ret == 2 then Some(Answer(chip, h + r.events).data) else None
  {
    var e := ReadXfer(addr, reg);
    var rep := Answer(chip, h + [e]);
    if rep.code != 2 && retries + 1 < ReadTries {
      var rest := ReadLoop(chip, h + [e], addr, reg, retries + 1);
      ReadLoopAttempts(chip, h + [e], addr, reg, retries + 1);
      var r := ReadLoop(chip, h, addr, reg, retries);
      assert r.events == [e] + rest.events;
      forall k | 1 <= k < |r.events| ensures Answer(chip, h + r.events[..k]).code != 2 {
        if k > 1 {
          assert h + r.events[..k] == (h + [e]) + rest.events[..k - 1];
        } else {
          assert h + r.events[..k] == h + [e];
        }
      }
      assert h + r.events == (h + [e]) + rest.events;
    }
  }

  /** The byte a caller's variable holds after the read, when it held 0 before. */
  function Latched(r: ReadRun): byte {
    if r.got.Some? then r.got.value else 0
  }

  /** A read that never got a transfer through leaves the caller's 0 in place. */
  lemma FailedReadLatchesZero(chip: Chip, h: seq<Event>, addr: byte, reg: byte)
    ensures var r := ReadLoop(chip, h, addr, reg, 0);
      r.ret != 2 ==> Latched(r) == 0 && |r.events| == ReadTries
  {
    ReadLoopAttempts(chip, h, addr, reg, 0);
  }

  /** One turn of the read loop, seen from a caller that has already made the
      attempts `before`: the attempt at `t + [e]`, then either the end or the rest. */
  lemma ReadLoopNext(chip: Chip, t: seq<Event>, addr: byte, reg: byte, retries: nat, before: seq<Event>, spec: ReadRun)
    requires retries < ReadTries
    requires var rest := ReadLoop(chip, t, addr, reg, retries);
      spec == ReadRun(before + rest.events, rest.ret, rest.got)
    ensures var e := ReadXfer(addr, reg);
      var rep := Answer(chip, t + [e]);
      if rep.code == 2 then spec == ReadRun(before + [e], 2, Some(rep.data))
      else if retries + 1 == ReadTries then spec == ReadRun(before + [e], rep.code, None)
      else var rest := ReadLoop(chip, t + [e], addr, reg, retries + 1);
        spec == ReadRun((before + [e]) + rest.events, rest.ret, rest.got)
  {
    var e := ReadXfer(addr, reg);
    if Answer(chip, t + [e]).code != 2 && retries + 1 < ReadTries {
      var rest := ReadLoop(chip, t + [e], addr, reg, retries + 1);
      assert before + ([e] + rest.events) == (before + [e]) + rest.events;
    }
  }

  /** ncs8801s_read: up to three transfer attempts, stopping at the first one that
      returns 2; returns the last attempt's result. */
  method Read(board: Board, addr: byte, reg: byte, val: byte) returns (ret: int, val': byte)
    modifies board
    ensures var r := ReadLoop(board.chip, old(board.trace), addr, reg, 0);
      board.trace == old(board.trace) + r.events && ret == r.ret &&
      val' == if r.got.Some? then r.got.value else val
  {
    ret := -1;
    val' := val;
    var retries := 0;
    ghost var h0 := board.trace;
    ghost var done: seq<Event> := [];
    ghost var spec := ReadLoop(board.chip, h0, addr, reg, 0);
    while retries < ReadTries
      invariant 0 <= retries <= ReadTries
      invariant board.trace == h0 + done && val' == val
      invariant retries < ReadTries ==>
        var rest := ReadLoop(board.chip, board.trace, addr, reg, retries);
        spec == ReadRun(done + rest.events, rest.ret, rest.got)
      invariant retries == ReadTries ==> spec == ReadRun(done, ret, None)
    {
      ReadLoopNext(board.chip, board.trace, addr, reg, retries, done, spec);
      var rep := board.Transfer(ReadXfer(addr, reg));
      done := done + [ReadXfer(addr, reg)];
      ret := rep.code;
      if ret == 2 {
        val' := rep.data;  // the read message filled *val
        break;
      }
      retries := retries + 1;
    }
  }

  /** ncs8801s_write: nothing and -1 without a client; otherwise exactly one
      transfer of [reg, val] to addr, whose result is returned as it is. */
  method Write(board: Board, i2c: bool, addr: byte, reg: byte, val: byte) returns (ret: int)
    modifies board
    ensures !i2c ==> ret == -1 && board.trace == old(board.trace)
    ensures i2c ==> board.trace == old(board.trace) + [WriteXfer(RegWrite(addr, reg, val))]
    ensures i2c ==> ret == Answer(board.chip, board.trace).code
  {
    ret := -1;
    if !i2c {
      return;
    }
    var rep := board.Transfer(WriteXfer(RegWrite(addr, reg, val)));
    ret := rep.code;
  }

  /** ncs8801s_write_list: plays the first ListLen entries of `list` in order, one
      write each, whatever each write returns; always returns 0. */
  method WriteList(dev: Ncs8801s, board: Board, hdr: Header, addr: byte, list: seq<RegData>) returns (ret: int)
    requires ListLen(hdr, addr, dev.screenW) <= |list|
    modifies board
    ensures ret == 0
    ensures board.trace == old(board.trace) +
      if dev.i2c then Xfers(Segment(addr, list, ListLen(hdr, addr, dev.screenW))) else []
  {
    var len := ListLen(hdr, addr, dev.screenW);
    var n := len;
    var i := 0;   // how far the list pointer has advanced
    ghost var h0 := board.trace;
    while n != 0
      invariant i + n == len
      invariant board.trace == h0 + if dev.i2c then Xfers(Segment(addr, list, i)) else []
    {
      n := n - 1;
      ghost var t := board.trace;
      var rc := Write(board, dev.i2c, addr, list[i].reg, list[i].val);
      // a negative rc is only logged
      ghost var x := RegWrite(addr, list[i].reg, list[i].val);
      assert board.trace == h0 + if dev.i2c then Xfers(Segment(addr, list, i + 1)) else [] by {
        if dev.i2c {
          assert Segment(addr, list, i + 1) == Segment(addr, list, i) + [x];
          XfersAppend(Segment(addr, list, i), [x]);
          AppendAssoc(h0, Xfers(Segment(addr, list, i)), [WriteXfer(x)]);
        }
      }
      i := i + 1;
    }
    ret := 0;
  }

  /** The horizontal-active count, low | (high << 8). */
  function HActive(high: byte, low: byte): bv16 {
    (low as bv16) | ((high as bv16) << 8)
  }

  /** The guard value is zero exactly when both bytes read are zero. */
  lemma HActiveZero(high: byte, low: byte)
    ensures HActive(high, low) == 0 <==> high == 0 && low == 0
  {
  }

  /** The two guard reads init makes, from history `h`. */
  function GuardReads(chip: Chip, h: seq<Event>, hdr: Header): (ReadRun, ReadRun) {
    var hi := ReadLoop(chip, h, hdr.id1, HActiveHigh, 0);
    var lo := ReadLoop(chip, h + hi.events, hdr.id1, HActiveLow, 0);
    (hi, lo)
  }

  /** The power-up sequence: pwd low, rst low, then rst high. */
  function ResetOps(s: DevState): seq<Event> {
    [GpioOutput(s.pwdPin, 0), GpioOutput(s.rstPin, 0), GpioSetValue(s.rstPin, 1)]
  }

  /** Whether both guard reads left zero, so that init goes on to the bring-up. */
  predicate GuardClear(chip: Chip, h: seq<Event>, hdr: Header) {
    var g := GuardReads(chip, h, hdr);
    HActive(Latched(g.0), Latched(g.1)) == 0
  }

  /** What init requires: a present singleton has its client, and when the guard
      lets init reach write_list, tables that cover the lengths write_list will
      use for the configured resolution. */
  predicate InitPre(chip: Chip, h: seq<Event>, dev: Option<DevState>, hdr: Header) {
    dev.Some? ==>
      dev.value.i2c && (GuardClear(chip, h, hdr) ==> TablesFit(hdr, dev.value.screenW, dev.value.screenH))
  }

  /** The trace of ncs8801s_init for singleton `dev` (None for NULL) after history `h`. */
  function InitTrace(chip: Chip, h: seq<Event>, dev: Option<DevState>, hdr: Header): (t: seq<Event>)
    requires InitPre(chip, h, dev, hdr)
  {
    match dev
    case None => []
    case Some(s) =>
      var g := GuardReads(chip, h, hdr);
      var hi, lo := g.0, g.1;
      var guard := hi.events + lo.events;
      if HActive(Latched(hi), Latched(lo)) != 0 then guard
      else guard + ResetOps(s) + Xfers(Plan(hdr, s.screenW, s.screenH))
  }

  /** The write plan, one transfer per write, cut where init calls write_list and write. */
  lemma XfersOfPlan(hdr: Header, w: int, h: int)
    requires TablesFit(hdr, w, h)
    ensures IsFullHd(w, h) ==>
      Xfers(Plan(hdr, w, h)) ==
        Xfers(Segment(hdr.id1, hdr.id1Regs1920, ListLen(hdr, hdr.id1, w))) +
        Xfers(Segment(hdr.id2, hdr.id2Regs1920, ListLen(hdr, hdr.id2, w))) +
        [WriteXfer(Override0F(hdr))] +
        Xfers(Segment(hdr.id3, hdr.id3Regs1920, ListLen(hdr, hdr.id3, w))) +
        [WriteXfer(Fixup71(hdr))]
    ensures !IsFullHd(w, h) ==>
      Xfers(Plan(hdr, w, h)) ==
        Xfers(Segment(hdr.id1, hdr.id1Regs1366, ListLen(hdr, hdr.id1, w))) +
        Xfers(Segment(hdr.id2, hdr.id2Regs1366, ListLen(hdr, hdr.id2, w))) +
        [WriteXfer(Override0F(hdr))]
  {
    assert Xfers([Override0F(hdr)]) == [WriteXfer(Override0F(hdr))];
    assert Xfers([Fixup71(hdr)]) == [WriteXfer(Fixup71(hdr))];
    if IsFullHd(w, h) {
      var s1 := Segment(hdr.id1, hdr.id1Regs1920, ListLen(hdr, hdr.id1, w));
      var s2 := Segment(hdr.id2, hdr.id2Regs1920, ListLen(hdr, hdr.id2, w));
      var s3 := Segment(hdr.id3, hdr.id3Regs1920, ListLen(hdr, hdr.id3, w));
      XfersAppend(s1 + s2 + [Override0F(hdr)] + s3, [Fixup71(hdr)]);
      XfersAppend(s1 + s2 + [Override0F(hdr)], s3);
      XfersAppend(s1 + s2, [Override0F(hdr)]);
      XfersAppend(s1, s2);
    } else {
      var s1 := Segment(hdr.id1, hdr.id1Regs1366, ListLen(hdr, hdr.id1, w));
      var s2 := Segment(hdr.id2, hdr.id2Regs1366, ListLen(hdr, hdr.id2, w));
      XfersAppend(s1 + s2, [Override0F(hdr)]);
      XfersAppend(s1, s2);
    }
  }

  lemma InitTraceUnfold(chip: Chip, h: seq<Event>, s: DevState, hdr: Header)
    requires InitPre(chip, h, Some(s), hdr)
    ensures var g := GuardReads(chip, h, hdr);
      InitTrace(chip, h, Some(s), hdr) ==
        if HActive(Latched(g.0), Latched(g.1)) != 0 then g.0.events + g.1.events
        else g.0.events + g.1.events + ResetOps(s) + Xfers(Plan(hdr, s.screenW, s.screenH))
  {
  }

  /** The register-writing tail of ncs8801s_init: the plan for the configured
      resolution, one transfer per write. */
  method WritePlan(dev: Ncs8801s, board: Board, hdr: Header)
    requires dev.i2c && TablesFit(hdr, dev.screenW, dev.screenH)
    modifies board
    ensures board.trace == old(board.trace) + Xfers(Plan(hdr, dev.screenW, dev.screenH))
  {
    var rc: int;
    ghost var t := board.trace;
    ghost var w, h := dev.screenW, dev.screenH;
    ghost var o, f := [WriteXfer(Override0F(hdr))], [WriteXfer(Fixup71(hdr))];
    if dev.screenW == 1920 && dev.screenH == 1080 {
      ghost var x1 := Xfers(Segment(hdr.id1, hdr.id1Regs1920, ListLen(hdr, hdr.id1, w)));
      ghost var x2 := Xfers(Segment(hdr.id2, hdr.id2Regs1920, ListLen(hdr, hdr.id2, w)));
      ghost var x3 := Xfers(Segment(hdr.id3, hdr.id3Regs1920, ListLen(hdr, hdr.id3, w)));
      rc := WriteList(dev, board, hdr, hdr.id1, hdr.id1Regs1920);
      ghost var t1 := board.trace;
      rc := WriteList(dev, board, hdr, hdr.id2, hdr.id2Regs1920);
      ghost var t2 := board.trace;
      rc := Write(board, dev.i2c, hdr.id1, 0x0F, 0x00);
      ghost var t3 := board.trace;
      rc := WriteList(dev, board, hdr, hdr.id3, hdr.id3Regs1920);
      ghost var t4 := board.trace;
      rc := Write(board, dev.i2c, hdr.id1, 0x71, 0x09);
      assert board.trace == t + Xfers(Plan(hdr, w, h)) by {
        assert t1 == t + x1 && t2 == t1 + x2 && t3 == t2 + o && t4 == t3 + x3 && board.trace == t4 + f;
        AppendAssoc(t, x1, x2);
        AppendAssoc(t, x1 + x2, o);
        AppendAssoc(t, x1 + x2 + o, x3);
        AppendAssoc(t, x1 + x2 + o + x3, f);
        XfersOfPlan(hdr, w, h);
      }
    } else {
      ghost var x1 := Xfers(Segment(hdr.id1, hdr.id1Regs1366, ListLen(hdr, hdr.id1, w)));
      ghost var x2 := Xfers(Segment(hdr.id2, hdr.id2Regs1366, ListLen(hdr, hdr.id2, w)));
      rc := WriteList(dev, board, hdr, hdr.id1, hdr.id1Regs1366);
      ghost var t1 := board.trace;
      rc := WriteList(dev, board, hdr, hdr.id2, hdr.id2Regs1366);
      ghost var t2 := board.trace;
      rc := Write(board, dev.i2c, hdr.id1, 0x0F, 0x00);
      assert board.trace == t + Xfers(Plan(hdr, w, h)) by {
        assert t1 == t + x1 && t2 == t1 + x2 && board.trace == t2 + o;
        AppendAssoc(t, x1, x2);
        AppendAssoc(t, x1 + x2, o);
        XfersOfPlan(hdr, w, h);
      }
    }
  }

  /** ncs8801s_init: with a singleton, reads the guard; when it is zero, resets
      the chip and plays the write plan for the configured resolution. Returns 0. */
  method Init(dev: Ncs8801s?, board: Board, hdr: Header) returns (ret: int)
    requires InitPre(board.chip, board.trace, if dev == null then None else Some(dev.State()), hdr)
    modifies board
    ensures ret == 0
    ensures board.trace == old(board.trace) +
      InitTrace(board.chip, old(board.trace), if dev == null then None else Some(dev.State()), hdr)
  {
    if dev != null {
      ghost var h0 := board.trace;
      var high: byte := 0;
      var low: byte := 0;
      var rc: int;
      rc, high := Read(board, hdr.id1, HActiveHigh, high);
      rc, low := Read(board, hdr.id1, HActiveLow, low);
      ghost var g := GuardReads(board.chip, h0, hdr);
      ghost var guard := g.0.events + g.1.events;
      assert board.trace == h0 + guard by {
        AppendAssoc(h0, g.0.events, g.1.events);
      }
      var hactive := HActive(high, low);
      if hactive == 0 {
        board.Emit(GpioOutput(dev.pwdPin, 0));
        board.Emit(GpioOutput(dev.rstPin, 0));
        board.Emit(GpioSetValue(dev.rstPin, 1));
        ghost var reset := ResetOps(dev.State());
        ghost var t := board.trace;
        assert t == h0 + (guard + reset) by {
          AppendThree(h0 + guard, GpioOutput(dev.pwdPin, 0), GpioOutput(dev.rstPin, 0), GpioSetValue(dev.rstPin, 1));
          AppendAssoc(h0, guard, reset);
        }
        WritePlan(dev, board, hdr);
        ghost var w, h := dev.screenW, dev.screenH;
        assert board.trace == h0 + InitTrace(board.chip, h0, Some(dev.State()), hdr) by {
          AppendAssoc(h0, guard + reset, Xfers(Plan(hdr, w, h)));
          InitTraceUnfold(board.chip, h0, dev.State(), hdr);
        }
      } else {
        InitTraceUnfold(board.chip, h0, dev.State(), hdr);
      }
    }
    ret := 0;
  }

  /** The power-up sequence is three GPIO operations and no register write. */
  lemma ResetOpsEffects(s: DevState)
    ensures RegWrites(ResetOps(s)) == [] && GpioOps(ResetOps(s)) == ResetOps(s)
  {
    var r := ResetOps(s);
    var r1, r2 := [r[0]], [r[0], r[1]];
    assert r1[..0] == [] && r1[0].GpioOutput?;
    assert GpioOps(r1) == [] + [r1[0]] == r1;
    assert RegWrites(r1) == [];
    assert r2[..1] == r1;
    assert RegWrites(r2) == [] && GpioOps(r2) == r2;
    assert r[..2] == r2;
  }

  /** The shape of init's trace: the high-byte read attempts, the low-byte read
      attempts, and, only when both bytes came back zero, the power-up sequence and
      then the write plan, one transfer per entry. */
  lemma InitOrder(chip: Chip, h: seq<Event>, s: DevState, hdr: Header)
    requires InitPre(chip, h, Some(s), hdr)
    ensures var g := GuardReads(chip, h, hdr);
      var t := InitTrace(chip, h, Some(s), hdr);
      var n1, n2 := |g.0.events|, |g.1.events|;
      1 <= n1 <= ReadTries && 1 <= n2 <= ReadTries && n1 + n2 <= |t| &&
      (forall i :: 0 <= i < n1 ==> t[i] == ReadXfer(hdr.id1, HActiveHigh)) &&
      (forall i :: n1 <= i < n1 + n2 ==> t[i] == ReadXfer(hdr.id1, HActiveLow)) &&
      (Latched(g.0) != 0 || Latched(g.1) != 0 ==> |t| == n1 + n2) &&
      (Latched(g.0) == 0 && Latched(g.1) == 0 ==>
        var p := Plan(hdr, s.screenW, s.screenH);
        |t| == n1 + n2 + 3 + |p| && t[n1 + n2..n1 + n2 + 3] == ResetOps(s) &&
        forall k :: 0 <= k < |p| ==> t[n1 + n2 + 3 + k] == WriteXfer(p[k]))
  {
    var g := GuardReads(chip, h, hdr);
    ReadLoopAttempts(chip, h, hdr.id1, HActiveHigh, 0);
    ReadLoopAttempts(chip, h + g.0.events, hdr.id1, HActiveLow, 0);
    HActiveZero(Latched(g.0), Latched(g.1));
    InitTraceUnfold(chip, h, s, hdr);
    if Latched(g.0) == 0 && Latched(g.1) == 0 {
      XfersAt(Plan(hdr, s.screenW, s.screenH));
    }
  }

  /** The guard reads touch neither a register nor a GPIO line. */
  lemma GuardReadsOnly(chip: Chip, h: seq<Event>, hdr: Header)
    ensures var g := GuardReads(chip, h, hdr);
      RegWrites(g.0.events + g.1.events) == [] && GpioOps(g.0.events + g.1.events) == []
  {
    var g := GuardReads(chip, h, hdr);
    var guard := g.0.events + g.1.events;
    ReadLoopAttempts(chip, h, hdr.id1, HActiveHigh, 0);
    ReadLoopAttempts(chip, h + g.0.events, hdr.id1, HActiveLow, 0);
    forall i | 0 <= i < |guard| ensures guard[i].ReadXfer? {
      if i < |g.0.events| { assert guard[i] == g.0.events[i]; }
      else { assert guard[i] == g.1.events[i - |g.0.events|]; }
    }
    ReadsOnly(guard);
  }

  /** What init does to the chip: with both guard bytes zero it makes exactly the
      power-up GPIO operations and exactly the plan's register writes; otherwise
      none of either. A NULL singleton does nothing at all. */
  lemma InitEffects(chip: Chip, h: seq<Event>, dev: Option<DevState>, hdr: Header)
    requires InitPre(chip, h, dev, hdr)
    ensures dev.None? ==> InitTrace(chip, h, dev, hdr) == []
    ensures dev.Some? ==>
      var g := GuardReads(chip, h, hdr);
      var t := InitTrace(chip, h, dev, hdr);
      var up := Latched(g.0) == 0 && Latched(g.1) == 0;
      GpioOps(t) == (if up then ResetOps(dev.value) else []) &&
      RegWrites(t) == (if up then Plan(hdr, dev.value.screenW, dev.value.screenH) else [])
  {
    if dev.Some? {
      var s := dev.value;
      var g := GuardReads(chip, h, hdr);
      var guard := g.0.events + g.1.events;
      GuardReadsOnly(chip, h, hdr);
      HActiveZero(Latched(g.0), Latched(g.1));
      InitTraceUnfold(chip, h, s, hdr);
      if Latched(g.0) == 0 && Latched(g.1) == 0 {
        var p := Plan(hdr, s.screenW, s.screenH);
        ResetOpsEffects(s);
        RegWritesOfXfers(p);
        RegWritesAppend(guard, ResetOps(s));
        RegWritesAppend(guard + ResetOps(s), Xfers(p));
      }
    }
  }
}
