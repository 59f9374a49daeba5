/** The U-Boot copy of the NCS8801S bring-up (uboot/ncs8801s.c): a register write
    retried once, table playback, the device-tree parse with its reset and probe,
    and the init routine, which has no "already initialised" guard. */
module Uboot {
  import opened Regs
  import opened Bus

  /** ncs8801s_write starts with `retry = 2`. */
  const WriteTries: nat := 2

  /** The errno value ENODEV (U-Boot's errno.h). */
  const ENODEV := 19

  /** Defaults fdtdec_get_int falls back to when screen-w or screen-h is absent. */
  const DefaultW := 1920
  const DefaultH := 1080

  /** A decoded GPIO: the number, and gpio_is_valid's verdict on it. */
  datatype Gpio = Gpio(gpio: int, valid: bool)

  /** What fdt_get_i2c_info reports: its return value, the bus and the address. */
  datatype I2cInfo = I2cInfo(ret: int, bus: int, addr: int)

  /** The "newcosemi,ncs8801s" node of the device tree, as parse_dt's lookups see it:
      whether fdt_device_is_available holds, the screen-w and screen-h properties
      when present, the two decoded GPIOs, and the I2C information. */
  datatype Node = Node(available: bool, screenW: Option<int>, screenH: Option<int>,
                       rst: Gpio, pwd: Gpio, i2c: I2cInfo)

  /** The FDT blob: the compatible node, or None when fdt_node_offset_by_compatible
      finds none. */
  datatype Blob = Blob(node: Option<Node>)

  /** The fields of the static struct ncs8801s. */
  datatype DevState = DevState(screenW: int, screenH: int, rstPin: Gpio, pwdPin: Gpio)

  /** The static struct ncs8801s, which parse_dt fills and init reads. */
  class Ncs8801s {
    var screenW: int
    var screenH: int
    var rstPin: Gpio
    var pwdPin: Gpio

    /** A static struct starts zeroed. Whether gpio_is_valid(0) holds depends on
        the platform; `false` here is a placeholder, since parse_dt overwrites both
        pins before it tests them and init reads them nowhere else. */
    constructor ()
      ensures State() == DevState(0, 0, Gpio(0, false), Gpio(0, false))
    {
      screenW, screenH := 0, 0;
      rstPin, pwdPin := Gpio(0, false), Gpio(0, false);
    }

    function State(): DevState
      reads this
    {
      DevState(screenW, screenH, rstPin, pwdPin)
    }
  }

  // ---------------------------------------------------------------- write

  /** The attempts ncs8801s_write makes with `retry` attempts left, after history `h`:
      an attempt returning 0 ends the loop with 0; running out of attempts gives -1. */
  function WriteLoop(chip: Chip, h: seq<Event>, w: RegWrite, retry: nat): (r: WriteRun)
    decreases retry
  {
    if retry == 0 then WriteRun([], -1)
    else
      var e := WriteXfer(w);
      if Answer(chip, h + [e]).code == 0 then WriteRun([e], 0)
      else
        var rest := WriteLoop(chip, h + [e], w, retry - 1);
        WriteRun([e] + rest.events, rest.ret)
  }

  /** The write loop makes at most `retry` attempts, at least one when any is left,
      all of the same write; it returns 0 exactly when its last attempt succeeded
      and -1 otherwise; every earlier attempt failed; and -1 means every attempt
      was used. */
  lemma {:induction false} WriteLoopAttempts(chip: Chip, h: seq<Event>, w: RegWrite, retry: nat)
    decreases retry
    ensures var r := WriteLoop(chip, h, w, retry);
      |r.events| <= retry && (retry > 0 ==> 1 <= |r.events|) &&
      (forall i :: 0 <= i < |r.events| ==> r.events[i] == WriteXfer(w)) &&
      (r.ret == 0 || r.ret == -1) &&
      (r.ret == 0 <==> 0 < |r.events| && Answer(chip, h + r.events).code == 0) &&
      (forall k :: 1 <= k < |r.events| ==> Answer(chip, h + r.events[..k]).code != 0) &&
      (r.ret == -1 ==> |r.events| == retry)
  {
    if retry > 0 {
      var e := WriteXfer(w);
      if Answer(chip, h + [e]).code != 0 {
        var rest := WriteLoop(chip, h + [e], w, retry - 1);
        WriteLoopAttempts(chip, h + [e], w, retry - 1);
        var r := WriteLoop(chip, h, w, retry);
        assert r.events == [e] + rest.events;
        forall k | 1 <= k < |r.events| ensures Answer(chip, h + r.events[..k]).code != 0 {
          if k > 1 {
            assert h + r.events[..k] == (h + [e]) + rest.events[..k - 1];
          } else {
            assert h + r.events[..k] == h + [e];
          }
        }
        assert h + r.events == (h + [e]) + rest.events;
      }
    }
  }

  /** One turn of the write loop, seen from a caller that has already made the
      attempts `done`: the attempt at `t + [e]`, then either success or the rest. */
  lemma WriteLoopNext(chip: Chip, t: seq<Event>, w: RegWrite, retry: nat, done: seq<Event>, spec: WriteRun)
    requires retry > 0
    requires var rest := WriteLoop(chip, t, w, retry);
      spec == WriteRun(done + rest.events, rest.ret)
    ensures var e := WriteXfer(w);
      if Answer(chip, t + [e]).code == 0 then spec == WriteRun(done + [e], 0)
      else var rest := WriteLoop(chip, t + [e], w, retry - 1);
        spec == WriteRun((done + [e]) + rest.events, rest.ret)
  {
    var e := WriteXfer(w);
    if Answer(chip, t + [e]).code != 0 {
      var rest := WriteLoop(chip, t + [e], w, retry - 1);
      assert done + ([e] + rest.events) == (done + [e]) + rest.events;
    }
  }

  /** ncs8801s_write: up to two attempts of i2c_write, stopping at the first that
      returns 0; returns 0 then, and -1 when both fail. */
  method Write(board: Board, addr: byte, reg: byte, val: byte) returns (ret: int)
    modifies board
    ensures var r := WriteLoop(board.chip, old(board.trace), RegWrite(addr, reg, val), WriteTries);
      board.trace == old(board.trace) + r.events && ret == r.ret
  {
    var retry := WriteTries;
    ret := -1;
    var w := RegWrite(addr, reg, val);
    ghost var h0 := board.trace;
    ghost var done: seq<Event> := [];
    ghost var spec := WriteLoop(board.chip, h0, w, WriteTries);
    while retry != 0
      invariant board.trace == h0 + done && ret == -1
      invariant var rest := WriteLoop(board.chip, board.trace, w, retry);
        spec == WriteRun(done + rest.events, rest.ret)
    {
      WriteLoopNext(board.chip, board.trace, w, retry, done, spec);
      retry := retry - 1;
      var rep := board.Transfer(WriteXfer(w));
      done := done + [WriteXfer(w)];
      if rep.code == 0 {
        ret := 0;
        break;
      }
      // udelay(10) between attempts is not modelled
    }
    assert ret == spec.ret;
  }

  // ---------------------------------------------------------------- playback

  /** The attempts of writing `ws` in order with ncs8801s_write, after history `h`. */
  function Play(chip: Chip, h: seq<Event>, ws: seq<RegWrite>): (es: seq<Event>)
    decreases |ws|
  {
    if ws == [] then []
    else
      var p := Play(chip, h, ws[..|ws| - 1]);
      p + WriteLoop(chip, h + p, ws[|ws| - 1], WriteTries).events
  }

  /** `es` is the attempts of the writes `ws`: each write, in order, attempted once
      or twice in a row. */
  predicate Expands(es: seq<Event>, ws: seq<RegWrite>)
    decreases |ws|
  {
    if ws == [] then es == []
    else
      var x, ws' := ws[|ws| - 1], ws[..|ws| - 1];
      1 <= |es| && es[|es| - 1] == WriteXfer(x) &&
      (Expands(es[..|es| - 1], ws') ||
       (2 <= |es| && es[|es| - 2] == WriteXfer(x) && Expands(es[..|es| - 2], ws')))
  }

  /** Playback attempts every write once or twice, in order and nothing else. */
  lemma {:induction false} PlayExpands(chip: Chip, h: seq<Event>, ws: seq<RegWrite>)
    decreases |ws|
    ensures Expands(Play(chip, h, ws), ws)
  {
    if ws != [] {
      var ws' := ws[..|ws| - 1];
      var p := Play(chip, h, ws');
      PlayExpands(chip, h, ws');
      var r := WriteLoop(chip, h + p, ws[|ws| - 1], WriteTries);
      WriteLoopAttempts(chip, h + p, ws[|ws| - 1], WriteTries);
      var es := p + r.events;
      if |r.events| == 1 {
        assert es[..|es| - 1] == p;
      } else {
        assert es[..|es| - 2] == p;
      }
    }
  }

  /** Attempts of the writes `ws` number between |ws| and 2|ws|, and every one of
      them is a register write of one of `ws`. */
  lemma {:induction false} ExpandsBounds(es: seq<Event>, ws: seq<RegWrite>)
    requires Expands(es, ws)
    decreases |ws|
    ensures |ws| <= |es| <= 2 * |ws|
    ensures forall i :: 0 <= i < |es| ==> es[i].WriteXfer? && es[i].w in ws
  {
    if ws != [] {
      var x, ws' := ws[|ws| - 1], ws[..|ws| - 1];
      var k := if Expands(es[..|es| - 1], ws') then 1 else 2;
      var es' := es[..|es| - k];
      ExpandsBounds(es', ws');
      assert ws == ws' + [x];
      forall i | 0 <= i < |es| ensures es[i].WriteXfer? && es[i].w in ws {
        if i < |es'| {
          assert es[i] == es'[i];
          assert es'[i].w in ws';
        } else {
          assert es[i] == WriteXfer(x);
          assert ws[|ws| - 1] == x;
        }
      }
    }
  }

  /** A chip that takes every write the first time sees each write exactly once, as
      the kernel copy would issue them. */
  lemma {:induction false} PlayHealthy(chip: Chip, h: seq<Event>, ws: seq<RegWrite>)
    requires chip.rest.code == 0
    requires forall i :: 0 <= i < |chip.script| ==> chip.script[i].code == 0
    decreases |ws|
    ensures Play(chip, h, ws) == Xfers(ws)
  {
    if ws != [] {
      var ws' := ws[..|ws| - 1];
      PlayHealthy(chip, h, ws');
      var p := Play(chip, h, ws');
      var e := WriteXfer(ws[|ws| - 1]);
      assert Answer(chip, h + p + [e]).code == 0;
    }
  }

  /** Playing `a` and then `b` is playing `a + b`. */
  lemma {:induction false} PlayAppend(chip: Chip, h: seq<Event>, a: seq<RegWrite>, b: seq<RegWrite>)
    decreases |b|
    ensures Play(chip, h, a + b) == Play(chip, h, a) + Play(chip, h + Play(chip, h, a), b)
  {
    var pa := Play(chip, h, a);
    if b == [] {
      assert a + b == a;
    } else {
      var b', x := b[..|b| - 1], b[|b| - 1];
      assert (a + b)[..|a + b| - 1] == a + b';
      PlayAppend(chip, h, a, b');
      var pb' := Play(chip, h + pa, b');
      AppendAssoc(h, pa, pb');
      AppendAssoc(pa, pb', WriteLoop(chip, h + (pa + pb'), x, WriteTries).events);
    }
  }

  /** The trace after `done` has been played from `t0`, extended by playing `b`. */
  lemma PlayExtend(chip: Chip, t0: seq<Event>, done: seq<RegWrite>, b: seq<RegWrite>)
    ensures var t := t0 + Play(chip, t0, done);
      t + Play(chip, t, b) == t0 + Play(chip, t0, done + b)
  {
    PlayAppend(chip, t0, done, b);
    AppendAssoc(t0, Play(chip, t0, done), Play(chip, t0 + Play(chip, t0, done), b));
  }

  /** One write played alone is one call of the write loop. */
  lemma PlayOne(chip: Chip, h: seq<Event>, w: RegWrite)
    ensures Play(chip, h, [w]) == WriteLoop(chip, h, w, WriteTries).events
  {
    assert [w][..0] == [];
    assert h + [] == h;
  }

  /** ncs8801s_write_list: plays the first ListLen entries of `list` in order,
      whatever each write returns; always returns 0. */
  method WriteList(dev: Ncs8801s, board: Board, hdr: Header, addr: byte, list: seq<RegData>) returns (ret: int)
    requires ListLen(hdr, addr, dev.screenW) <= |list|
    modifies board
    ensures ret == 0
    ensures board.trace == old(board.trace) +
      Play(board.chip, old(board.trace), Segment(addr, list, ListLen(hdr, addr, dev.screenW)))
  {
    var len := ListLen(hdr, addr, dev.screenW);
    var n := len;
    var i := 0;   // how far the list pointer has advanced
    ghost var h0 := board.trace;
    while n != 0
      invariant i + n == len
      invariant board.trace == h0 + Play(board.chip, h0, Segment(addr, list, i))
    {
      n := n - 1;
      ghost var t := board.trace;
      var rc := Write(board, addr, list[i].reg, list[i].val);
      // a negative rc is only logged
      ghost var seg := Segment(addr, list, i + 1);
      assert seg[..|seg| - 1] == Segment(addr, list, i);
      AppendAssoc(h0, Play(board.chip, h0, Segment(addr, list, i)),
                  WriteLoop(board.chip, t, RegWrite(addr, list[i].reg, list[i].val), WriteTries).events);
      i := i + 1;
    }
    ret := 0;
  }

  // ---------------------------------------------------------------- parse_dt

  /** The power-up sequence parse_dt drives: pwd low, rst low, then rst high,
      all three with gpio_direction_output. */
  function ResetOps(rst: Gpio, pwd: Gpio): seq<Event> {
    [GpioOutput(pwd.gpio, 0), GpioOutput(rst.gpio, 0), GpioOutput(rst.gpio, 1)]
  }

  /** The power-up sequence is three GPIO operations and no register write. */
  lemma ResetOpsEffects(rst: Gpio, pwd: Gpio)
    ensures RegWrites(ResetOps(rst, pwd)) == [] && GpioOps(ResetOps(rst, pwd)) == ResetOps(rst, pwd)
  {
    var r := ResetOps(rst, pwd);
    var r1, r2 := [r[0]], [r[0], r[1]];
    assert r1[..0] == [] && r1[0].GpioOutput?;
    assert GpioOps(r1) == [] + [r1[0]] == r1;
    assert RegWrites(r1) == [];
    assert r2[..1] == r1;
    assert RegWrites(r2) == [] && GpioOps(r2) == r2;
    assert r[..2] == r2;
  }

  /** fdtdec_get_int: the property when present, the default otherwise. */
  function GetInt(prop: Option<int>, default: int): int {
    if prop.Some? then prop.value else default
  }

  /** The events of one call of ncs8801s_parse_dt, its return value, and the struct
      it leaves. */
  datatype ParseRun = ParseRun(events: seq<Event>, ret: int, dev: DevState)

  /** ncs8801s_parse_dt on `blob` from struct `d`, after history `h`. */
  function ParseDtRun(chip: Chip, h: seq<Event>, blob: Blob, d: DevState): (r: ParseRun) {
    match blob.node
    case None => ParseRun([], -ENODEV, d)
    case Some(n) =>
      if !n.available then ParseRun([], -1, d)
      else
        var d' := DevState(GetInt(n.screenW, DefaultW), GetInt(n.screenH, DefaultH), n.rst, n.pwd);
        var reset := if n.rst.valid && n.pwd.valid then ResetOps(n.rst, n.pwd) else [];
        if n.i2c.ret < 0 then ParseRun(reset, n.i2c.ret, d')
        else
          var e := ProbeXfer(n.i2c.addr);
          var code := Answer(chip, h + reset + [e]).code;
          ParseRun(reset + [e], if code < 0 then -ENODEV else 0, d')
  }

  /** ncs8801s_parse_dt: finds the node, fills the struct, resets the chip when
      both GPIOs are valid, reads the I2C information and probes the bridge. */
  method ParseDt(dev: Ncs8801s, board: Board, blob: Blob) returns (ret: int)
    modifies dev, board
    ensures var r := ParseDtRun(board.chip, old(board.trace), blob, old(dev.State()));
      board.trace == old(board.trace) + r.events && ret == r.ret && dev.State() == r.dev
  {
    if blob.node.None? {
      return -ENODEV;
    }
    var n := blob.node.value;
    if !n.available {
      return -1;
    }
    dev.screenW := GetInt(n.screenW, DefaultW);
    dev.screenH := GetInt(n.screenH, DefaultH);
    dev.rstPin := n.rst;
    dev.pwdPin := n.pwd;
    ghost var h0 := board.trace;
    if dev.rstPin.valid && dev.pwdPin.valid {
      board.Emit(GpioOutput(dev.pwdPin.gpio, 0));
      board.Emit(GpioOutput(dev.rstPin.gpio, 0));
      board.Emit(GpioOutput(dev.rstPin.gpio, 1));
      AppendThree(h0, GpioOutput(dev.pwdPin.gpio, 0), GpioOutput(dev.rstPin.gpio, 0), GpioOutput(dev.rstPin.gpio, 1));
    }
    if n.i2c.ret < 0 {
      return n.i2c.ret;
    }
    // i2c_set_bus_num and i2c_init configure the host side only
    var rep := board.Transfer(ProbeXfer(n.i2c.addr));
    if rep.code < 0 {
      return -ENODEV;
    }
    ret := 0;
  }

  /** parse_dt's outcomes: -ENODEV without a node, -1 for a disabled node, the I2C
      lookup's own error when it fails, -ENODEV when the probe fails, and 0 only
      when the probe went through. */
  lemma ParseDtOutcomes(chip: Chip, h: seq<Event>, blob: Blob, d: DevState)
    ensures var r := ParseDtRun(chip, h, blob, d);
      (blob.node.None? ==> r == ParseRun([], -ENODEV, d)) &&
      (blob.node.Some? && !blob.node.value.available ==> r == ParseRun([], -1, d)) &&
      (blob.node.Some? && blob.node.value.available && blob.node.value.i2c.ret < 0 ==>
        r.ret == blob.node.value.i2c.ret && forall i :: 0 <= i < |r.events| ==> !r.events[i].ProbeXfer?) &&
      ((blob.node.Some? && blob.node.value.available && blob.node.value.i2c.ret >= 0 &&
        Answer(chip, h + r.events).code < 0) ==> r.ret == -ENODEV) &&
      (r.ret == 0 <==>
        blob.node.Some? && blob.node.value.available && blob.node.value.i2c.ret >= 0 &&
        Answer(chip, h + r.events).code >= 0 && r.events[|r.events| - 1] == ProbeXfer(blob.node.value.i2c.addr))
  {
    if blob.node.Some? && blob.node.value.available {
      var n := blob.node.value;
      var reset := if n.rst.valid && n.pwd.valid then ResetOps(n.rst, n.pwd) else [];
      assert forall i :: 0 <= i < |reset| ==> reset[i].GpioOutput?;
    }
  }

  /** parse_dt never writes a register. */
  lemma ParseDtNoWrites(chip: Chip, h: seq<Event>, blob: Blob, d: DevState)
    ensures RegWrites(ParseDtRun(chip, h, blob, d).events) == []
  {
    if blob.node.Some? && blob.node.value.available {
      var n := blob.node.value;
      var reset := if n.rst.valid && n.pwd.valid then ResetOps(n.rst, n.pwd) else [];
      ResetOpsEffects(n.rst, n.pwd);
      if n.i2c.ret >= 0 {
        var e := ProbeXfer(n.i2c.addr);
        assert (reset + [e])[..|reset + [e]| - 1] == reset;
      }
    }
  }

  /** parse_dt resets the chip exactly when the node is enabled and both GPIOs are
      valid, and then the reset comes first: before the probe, which is the only
      other thing parse_dt does. */
  lemma ParseDtReset(chip: Chip, h: seq<Event>, blob: Blob, d: DevState)
    ensures var r := ParseDtRun(chip, h, blob, d);
      var up := blob.node.Some? && blob.node.value.available &&
        blob.node.value.rst.valid && blob.node.value.pwd.valid;
      (up ==>
         3 <= |r.events| && r.events[..3] == ResetOps(blob.node.value.rst, blob.node.value.pwd) &&
         forall i :: 3 <= i < |r.events| ==> r.events[i] == ProbeXfer(blob.node.value.i2c.addr)) &&
      (!up ==> forall i :: 0 <= i < |r.events| ==> r.events[i].ProbeXfer?)
  {
  }

  /** parse_dt fills the struct from an enabled node, the screen size falling back
      to 1920x1080 property by property, and leaves it alone otherwise. */
  lemma ParseDtFills(chip: Chip, h: seq<Event>, blob: Blob, d: DevState)
    ensures var r := ParseDtRun(chip, h, blob, d);
      (blob.node.None? || !blob.node.value.available ==> r.dev == d) &&
      (blob.node.Some? && blob.node.value.available ==>
        var n := blob.node.value;
        r.dev.rstPin == n.rst && r.dev.pwdPin == n.pwd &&
        (n.screenW.None? ==> r.dev.screenW == 1920) && (n.screenW.Some? ==> r.dev.screenW == n.screenW.value) &&
        (n.screenH.None? ==> r.dev.screenH == 1080) && (n.screenH.Some? ==> r.dev.screenH == n.screenH.value))
  {
  }

  // ---------------------------------------------------------------- init

  /** The events of one call of ncs8801s_init and its return value. */
  datatype InitRun = InitRun(events: seq<Event>, ret: int)

  /** What init requires: when parse_dt succeeds and init goes on to write_list,
      the tables cover the lengths write_list will use for the parsed size. */
  predicate InitPre(chip: Chip, h: seq<Event>, blob: Option<Blob>, d: DevState, hdr: Header) {
    blob.Some? ==>
      var p := ParseDtRun(chip, h, blob.value, d);
      p.ret >= 0 ==> TablesFit(hdr, p.dev.screenW, p.dev.screenH)
  }

  /** ncs8801s_init on blob `blob` (None for a NULL gd->fdt_blob) from struct `d`. */
  function InitRunOf(chip: Chip, h: seq<Event>, blob: Option<Blob>, d: DevState, hdr: Header): (r: InitRun)
    requires InitPre(chip, h, blob, d, hdr)
  {
    match blob
    case None => InitRun([], -1)
    case Some(b) =>
      var p := ParseDtRun(chip, h, b, d);
      if p.ret < 0 then InitRun(p.events, -1)
      else InitRun(p.events + Play(chip, h + p.events, Plan(hdr, p.dev.screenW, p.dev.screenH)), 0)
  }

  /** The 1920x1080 branch of ncs8801s_init's write phase: ID1, ID2, the 0x0F
      override, ID3 and the 0x71 fix-up, each through ncs8801s_write's retry. */
  method WriteFullHd(dev: Ncs8801s, board: Board, hdr: Header)
    requires IsFullHd(dev.screenW, dev.screenH) && TablesFit(hdr, dev.screenW, dev.screenH)
    modifies board
    ensures board.trace == old(board.trace) + Play(board.chip, old(board.trace), Plan(hdr, dev.screenW, dev.screenH))
  {
    var rc: int;
    ghost var t0 := board.trace;
    ghost var w := dev.screenW;
    ghost var c := board.chip;
    ghost var s1 := Segment(hdr.id1, hdr.id1Regs1920, ListLen(hdr, hdr.id1, w));
    ghost var s2 := Segment(hdr.id2, hdr.id2Regs1920, ListLen(hdr, hdr.id2, w));
    ghost var s3 := Segment(hdr.id3, hdr.id3Regs1920, ListLen(hdr, hdr.id3, w));
    ghost var o, f := [Override0F(hdr)], [Fixup71(hdr)];
    rc := WriteList(dev, board, hdr, hdr.id1, hdr.id1Regs1920);
    assert board.trace == t0 + Play(c, t0, s1) by {
      PlayExtend(c, t0, [], s1);
      assert [] + s1 == s1;
    }
    rc := WriteList(dev, board, hdr, hdr.id2, hdr.id2Regs1920);
    assert board.trace == t0 + Play(c, t0, s1 + s2) by { PlayExtend(c, t0, s1, s2); }
    ghost var t2 := board.trace;
    rc := Write(board, hdr.id1, 0x0F, 0x00);
    assert board.trace == t0 + Play(c, t0, s1 + s2 + o) by {
      PlayOne(c, t2, Override0F(hdr));
      PlayExtend(c, t0, s1 + s2, o);
    }
    rc := WriteList(dev, board, hdr, hdr.id3, hdr.id3Regs1920);
    assert board.trace == t0 + Play(c, t0, s1 + s2 + o + s3) by { PlayExtend(c, t0, s1 + s2 + o, s3); }
    ghost var t4 := board.trace;
    rc := Write(board, hdr.id1, 0x71, 0x09);
    assert board.trace == t0 + Play(c, t0, s1 + s2 + o + s3 + f) by {
      PlayOne(c, t4, Fixup71(hdr));
      PlayExtend(c, t0, s1 + s2 + o + s3, f);
    }
  }

  /** The other branch of ncs8801s_init's write phase: ID1, ID2 and the 0x0F
      override. */
  method WriteOther(dev: Ncs8801s, board: Board, hdr: Header)
    requires !IsFullHd(dev.screenW, dev.screenH) && TablesFit(hdr, dev.screenW, dev.screenH)
    modifies board
    ensures board.trace == old(board.trace) + Play(board.chip, old(board.trace), Plan(hdr, dev.screenW, dev.screenH))
  {
    var rc: int;
    ghost var t0 := board.trace;
    ghost var w := dev.screenW;
    ghost var c := board.chip;
    ghost var s1 := Segment(hdr.id1, hdr.id1Regs1366, ListLen(hdr, hdr.id1, w));
    ghost var s2 := Segment(hdr.id2, hdr.id2Regs1366, ListLen(hdr, hdr.id2, w));
    ghost var o := [Override0F(hdr)];
    rc := WriteList(dev, board, hdr, hdr.id1, hdr.id1Regs1366);
    assert board.trace == t0 + Play(c, t0, s1) by {
      PlayExtend(c, t0, [], s1);
      assert [] + s1 == s1;
    }
    rc := WriteList(dev, board, hdr, hdr.id2, hdr.id2Regs1366);
    assert board.trace == t0 + Play(c, t0, s1 + s2) by { PlayExtend(c, t0, s1, s2); }
    ghost var t2 := board.trace;
    rc := Write(board, hdr.id1, 0x0F, 0x00);
    assert board.trace == t0 + Play(c, t0, s1 + s2 + o) by {
      PlayOne(c, t2, Override0F(hdr));
      PlayExtend(c, t0, s1 + s2, o);
    }
  }

  /** ncs8801s_init: -1 without a blob or when parse_dt fails; otherwise the write
      plan for the parsed size, and 0 whatever the writes returned. */
  method Init(dev: Ncs8801s, board: Board, hdr: Header, blob: Option<Blob>) returns (ret: int)
    requires InitPre(board.chip, board.trace, blob, dev.State(), hdr)
    modifies dev, board
    ensures var r := InitRunOf(board.chip, old(board.trace), blob, old(dev.State()), hdr);
      board.trace == old(board.trace) + r.events && ret == r.ret
    ensures blob.None? ==> dev.State() == old(dev.State())
    ensures blob.Some? ==> dev.State() == ParseDtRun(board.chip, old(board.trace), blob.value, old(dev.State())).dev
  {
    if blob.None? {
      return -1;
    }
    ghost var h0 := board.trace;
    ret := ParseDt(dev, board, blob.value);
    if ret < 0 {
      return -1;
    }
    ghost var t := board.trace;
    if dev.screenW == 1920 && dev.screenH == 1080 {
      WriteFullHd(dev, board, hdr);
    } else {
      WriteOther(dev, board, hdr);
    }
    AppendAssoc(h0, t[|h0|..], Play(board.chip, t, Plan(hdr, dev.screenW, dev.screenH)));
    assert t == h0 + t[|h0|..];
    ret := 0;
  }

  /** Init's effects: nothing without a blob; on a failed parse at most the reset
      and the probe, and no register write; after a successful parse, the writes of
      the plan for the parsed size, each attempted once or twice, in order. */
  lemma InitEffects(chip: Chip, h: seq<Event>, blob: Option<Blob>, d: DevState, hdr: Header)
    requires InitPre(chip, h, blob, d, hdr)
    ensures var r := InitRunOf(chip, h, blob, d, hdr);
      (blob.None? ==> r == InitRun([], -1)) &&
      (r.ret == -1 || r.ret == 0) &&
      (blob.Some? ==>
        var p := ParseDtRun(chip, h, blob.value, d);
        |p.events| <= |r.events| && r.events[..|p.events|] == p.events &&
        (p.ret < 0 ==> r.ret == -1 && RegWrites(r.events) == []) &&
        (p.ret >= 0 ==>
           r.ret == 0 && Expands(r.events[|p.events|..], Plan(hdr, p.dev.screenW, p.dev.screenH))))
    ensures blob.Some? ==>
      var r := InitRunOf(chip, h, blob, d, hdr);
      var n, p := blob.value.node, ParseDtRun(chip, h, blob.value, d);
      var aborts := n.None? || !n.value.available || n.value.i2c.ret < 0 || Answer(chip, h + p.events).code < 0;
      (aborts <==> r.ret == -1) &&
      (aborts ==> r.events == p.events && RegWrites(r.events) == [])
  {
    if blob.Some? {
      var p := ParseDtRun(chip, h, blob.value, d);
      ParseDtOutcomes(chip, h, blob.value, d);
      ParseDtNoWrites(chip, h, blob.value, d);
      if p.ret >= 0 {
        var r := InitRunOf(chip, h, blob, d, hdr);
        var q := Play(chip, h + p.events, Plan(hdr, p.dev.screenW, p.dev.screenH));
        assert r.events[|p.events|..] == q;
        PlayExpands(chip, h + p.events, Plan(hdr, p.dev.screenW, p.dev.screenH));
      }
    }
  }
}
