/** The board as the driver sees it: two GPIO lines and an I2C bus, with the
    NCS8801S behind the bus treated as an oracle. Every effect the driver has is
    recorded, in order, as an event of a trace. */
module Bus {
  import opened Regs

  datatype Event =
    | GpioOutput(pin: int, level: int)    // gpio_direction_output(pin, level)
    | GpioSetValue(pin: int, level: int)  // gpio_set_value(pin, level)
    | ReadXfer(addr: byte, reg: byte)     // one write-register-then-read-byte transfer attempt
    | WriteXfer(w: RegWrite)              // one register-write transfer attempt
    | ProbeXfer(target: int)              // one device probe (i2c_probe) of bus address `target`

  /** What the bus reports for one transfer: the return code of the transfer call
      and, for a read, the data byte the chip drives. */
  datatype Reply = Reply(code: int, data: byte)

  /** The chip and bus as an oracle: `script[n]` is the reply to a transfer that
      lands at position n of the trace, and `rest` the reply to any transfer
      beyond the script. The driver is deterministic given the replies, so every
      run against any chip is the run against some script. */
  datatype Chip = Chip(script: seq<Reply>, rest: Reply)

  /** The reply to the transfer that ends trace `t`. */
  function Answer(chip: Chip, t: seq<Event>): Reply {
    if 0 < |t| <= |chip.script| then chip.script[|t| - 1] else chip.rest
  }

  /** The events and the return value of one call of a write routine. */
  datatype WriteRun = WriteRun(events: seq<Event>, ret: int)

  class Board {
    const chip: Chip
    var trace: seq<Event>

    constructor (chip: Chip)
      ensures this.chip == chip && trace == []
    {
      this.chip := chip;
      trace := [];
    }

    /** A GPIO operation: recorded, no reply. */
    method Emit(e: Event)
      modifies this
      ensures trace == old(trace) + [e]
    {
      trace := trace + [e];
    }

    /** A bus transfer: recorded, then answered by the chip. */
    method Transfer(e: Event) returns (r: Reply)
      modifies this
      ensures trace == old(trace) + [e]
      ensures r == Answer(chip, trace)
    {
      trace := trace + [e];
      r := Answer(chip, trace);
    }
  }

  lemma AppendAssoc<T>(a: seq<T>, b: seq<T>, c: seq<T>)
    ensures (a + b) + c == a + (b + c)
  {
  }

  lemma AppendThree<T>(s: seq<T>, a: T, b: T, c: T)
    ensures s + [a] + [b] + [c] == s + [a, b, c]
  {
  }

  /** The events of a run of write attempts, one per write, in order. */
  function Xfers(ws: seq<RegWrite>): (es: seq<Event>)
    ensures |es| == |ws|
  {
    if ws == [] then [] else Xfers(ws[..|ws| - 1]) + [WriteXfer(ws[|ws| - 1])]
  }

  /** The i-th event is the attempt of the i-th write. */
  lemma {:induction false} XfersAt(ws: seq<RegWrite>)
    ensures forall i :: 0 <= i < |ws| ==> Xfers(ws)[i] == WriteXfer(ws[i])
    decreases |ws|
  {
    if ws != [] {
      XfersAt(ws[..|ws| - 1]);
    }
  }

  lemma XfersAppend(a: seq<RegWrite>, b: seq<RegWrite>)
    ensures Xfers(a + b) == Xfers(a) + Xfers(b)
  {
    var l, r := Xfers(a + b), Xfers(a) + Xfers(b);
    XfersAt(a + b);
    XfersAt(a);
    XfersAt(b);
    forall i | 0 <= i < |l| ensures l[i] == r[i] {
      if i < |a| { assert (a + b)[i] == a[i]; } else { assert (a + b)[i] == b[i - |a|]; }
    }
  }

  /** The register writes of a trace, in the order they were attempted. */
  function RegWrites(t: seq<Event>): seq<RegWrite> {
    if t == [] then []
    else RegWrites(t[..|t| - 1]) + (if t[|t| - 1].WriteXfer? then [t[|t| - 1].w] else [])
  }

  /** The GPIO operations of a trace, in order. */
  function GpioOps(t: seq<Event>): seq<Event> {
    if t == [] then []
    else GpioOps(t[..|t| - 1]) + (if t[|t| - 1].GpioOutput? || t[|t| - 1].GpioSetValue? then [t[|t| - 1]] else [])
  }

  lemma {:induction false} RegWritesAppend(a: seq<Event>, b: seq<Event>)
    ensures RegWrites(a + b) == RegWrites(a) + RegWrites(b)
    ensures GpioOps(a + b) == GpioOps(a) + GpioOps(b)
    decreases |b|
  {
    if b != [] {
      var b' := b[..|b| - 1];
      assert (a + b)[..|a + b| - 1] == a + b';
      RegWritesAppend(a, b');
    } else {
      assert a + b == a;
    }
  }

  /** Writing `ws` one attempt each leaves exactly `ws` as the register writes and no GPIO operation. */
  lemma {:induction false} RegWritesOfXfers(ws: seq<RegWrite>)
    ensures RegWrites(Xfers(ws)) == ws
    ensures GpioOps(Xfers(ws)) == []
    decreases |ws|
  {
    if ws != [] {
      var ws' := ws[..|ws| - 1];
      RegWritesOfXfers(ws');
      RegWritesAppend(Xfers(ws'), [WriteXfer(ws[|ws| - 1])]);
      assert [WriteXfer(ws[|ws| - 1])][..0] == [];
      assert ws == ws' + [ws[|ws| - 1]];
    }
  }

  /** A trace of reads only holds no register write and no GPIO operation. */
  lemma {:induction false} ReadsOnly(t: seq<Event>)
    requires forall i :: 0 <= i < |t| ==> t[i].ReadXfer?
    ensures RegWrites(t) == [] && GpioOps(t) == []
    decreases |t|
  {
    if t != [] {
      ReadsOnly(t[..|t| - 1]);
    }
  }
}
