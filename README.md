# NCS8801S bridge bring-up, modelled in Dafny

The NCS8801S is an LVDS/eDP display bridge. The I2C driver for it exists in two
near-identical copies, one for the Linux kernel and one for U-Boot. Each copy
resets the chip through two GPIO lines (power-down and reset). It then programs
the chip's three sub-blocks (bus addresses ID1, ID2 and ID3) from register tables.
The tables are chosen by screen size: 1920x1080, or 1366x768 for anything else.
There are two single-register overrides. For 1920x1080 the order is: the ID1 and
ID2 tables, ID1[0x0F] = 0, the ID3 table, and ID1[0x71] = 9 last. For any other
size it is the ID1 and ID2 tables, then ID1[0x0F] = 0 last.

This project models the decision and ordering logic of both copies. The chip and
the bus are an oracle. The board (`Bus.Board`) records every effect in a trace,
in order:
- a GPIO operation;
- a register-write attempt `(addr, reg, val)`;
- a register-read attempt;
- a device probe.

The chip's answer to each transfer is looked up by the position of that transfer
in the trace (`Bus.Chip`, `Bus.Answer`). Any behaviour of a real chip is therefore
one script.

Files and modules:
- `regs.dfy`, module `Regs`:
  - the header constants as a `Header` value: sub-block addresses, the five tables and their five lengths;
  - the entry count `write_list` uses (`ListLen`);
  - `Plan`, the logical sequence of register writes of the write phase, which is the same in both copies.
- `bus.dfy`, module `Bus`:
  - the event type, the oracle, the `Board` class and projections of a trace (`RegWrites`, `GpioOps`).
- `kernel.dfy`, module `Kernel`:
  - `ncs8801s_read` (up to three attempts), `ncs8801s_write` (one attempt), `ncs8801s_write_list` and `ncs8801s_init`.
  - `ncs8801s_init` includes the "already initialised" guard on `hactive = low | (high << 8)`.
- `uboot.dfy`, module `Uboot`:
  - `ncs8801s_write` (up to two attempts), `ncs8801s_write_list` and `ncs8801s_parse_dt`;
  - `ncs8801s_init`, which aborts when there is no blob or parse_dt fails, and has no guard.

Each C function with a loop or with side effects is a method over `Board` and the
driver's struct. Each method is proved against a function of the old trace that
gives the run's events and return value. The properties are lemmas about those
functions.

The register writes of a kernel init run are `Plan` exactly when the singleton
exists and both guard bytes read zero; otherwise there is no register write. After
parse_dt succeeds, the writes of a U-Boot init run expand `Plan`: each write is
attempted once or twice, in order (`Uboot.Expands`). When the blob is missing or
parse_dt fails, there is no register write.

The tables must hold at least as many entries as `write_list` will read
(`Regs.TablesFit`). This can fail at 1920 x h for any h other than 1080. In that
case init takes the 1366x768 branch and passes the 1366 tables. `write_list` still
uses the 1920 lengths, because it tests only `screen_w == 1920`. Each init method
requires `TablesFit` only on the runs that reach `write_list`. In the kernel copy
that means both guard bytes read zero. In the U-Boot copy it means parse_dt
succeeded. `Regs.MixedWidthOverrunsTable` gives a header for which `TablesFit`
fails.

## Model

| member | source | states |
|---|---|---|
| Regs.ListLenOnlyTestsWidth | kernel/ncs8801s.c:65-72 | the entry count depends only on the sub-block address and on whether the width is 1920 |
| Regs.SegmentAt | kernel/ncs8801s.c:74-79 | write k of a table playback is entry k of the table, sent to the sub-block's address |
| Regs.FullHdPlanOrder | kernel/ncs8801s.c:101-108 | 1920x1080 plan: ID1 1920 table, ID2 1920 table, ID1[0x0F]=0, ID3 table, ID1[0x71]=9 last; lengths and positions exact |
| Regs.FullHdId3Window | kernel/ncs8801s.c:103-108 | at 1920x1080 with distinct addresses, a write goes to ID3 exactly when it lies between the 0x0F override and the 0x71 fix-up |
| Regs.OtherPlanOrder | kernel/ncs8801s.c:109-114 | other sizes: ID1 1366 table, ID2 1366 table, ID1[0x0F]=0 last; with distinct addresses no ID3 write |
| Regs.SizedHeaderFits | kernel/ncs8801s.c:101-114 | with lengths equal to table sizes the tables fit except at 1920 x h with h != 1080, where they fit exactly when each 1366 table is at least as long as its 1920 table |
| Regs.MixedWidthOverrunsTable | kernel/ncs8801s.c:66-69 | a sized header where 1920x1200 makes write_list read past the end of the ID1 1366 table |
| Kernel.ReadLoopAttempts | kernel/ncs8801s.c:33-38 | between 1 and 3 attempts, all the same transfer; every attempt before the last returned something other than 2; fewer than 3 only when the last returned 2; returns the last attempt's result; the byte is stored exactly when that result is 2 |
| Kernel.Read | kernel/ncs8801s.c:17-39 | the trace grows by exactly the read loop's attempts, and the method returns the loop's result and byte |
| Kernel.FailedReadLatchesZero | kernel/ncs8801s.c:86-90 | a read that never returned 2 used all three attempts and leaves the 0 the variable started with |
| Kernel.Write | kernel/ncs8801s.c:41-61 | no client: -1 and no transfer; otherwise exactly one attempt of [reg, val] to addr, whose result is returned |
| Kernel.WriteList | kernel/ncs8801s.c:63-81 | the first ListLen entries are written in table order, one transfer each, whatever each write returns; returns 0 |
| Kernel.HActiveZero | kernel/ncs8801s.c:91-93 | low \| (high << 8) is zero exactly when both bytes are zero |
| Kernel.WritePlan | kernel/ncs8801s.c:101-114 | the write phase adds exactly one transfer per entry of the plan for the configured size |
| Kernel.Init | kernel/ncs8801s.c:83-119 | returns 0; a NULL singleton does nothing; otherwise the trace is the guard reads followed, when hactive is zero, by the reset and the plan; the tables must fit only when hactive is zero |
| Kernel.InitOrder | kernel/ncs8801s.c:85-114 | init's trace: 1-3 reads of 0xE4, then 1-3 reads of 0xE5; if either byte is nonzero nothing more; otherwise pwd:=0, rst:=0, rst:=1, then one write per plan entry in plan order |
| Kernel.ResetOpsEffects | kernel/ncs8801s.c:95-98 | the power-up sequence holds three GPIO operations and no register write |
| Kernel.GuardReadsOnly | kernel/ncs8801s.c:89-90 | the guard reads contain no register write and no GPIO operation |
| Kernel.InitEffects | kernel/ncs8801s.c:85-118 | NULL singleton: empty trace; otherwise the GPIO operations are the power-up sequence and the register writes are the plan when both guard bytes are zero, and neither happens otherwise |
| Uboot.WriteLoopAttempts | uboot/ncs8801s.c:24-37 | at most `retry` attempts, at least one when any is left, all of the same write; returns 0 exactly when the last attempt returned 0, else -1; earlier attempts all failed; -1 only after every attempt |
| Uboot.Write | uboot/ncs8801s.c:23-38 | the trace grows by exactly the attempts of the two-try loop, and its result is returned |
| Uboot.PlayExpands | uboot/ncs8801s.c:51-56 | playing a list attempts each write once or twice in a row, in list order, and nothing else |
| Uboot.ExpandsBounds | uboot/ncs8801s.c:51-56 | a playback of n writes has between n and 2n attempts, each a register write of one of them |
| Uboot.PlayHealthy | uboot/ncs8801s.c:27-31 | when every transfer succeeds, each write is attempted exactly once, as in the kernel copy |
| Uboot.PlayAppend | uboot/ncs8801s.c:52-55 | playing a then b is playing a + b |
| Uboot.WriteList | uboot/ncs8801s.c:40-58 | the first ListLen entries are played in table order through the retrying write, whatever each returns; returns 0 |
| Uboot.Ncs8801s.constructor | uboot/ncs8801s.c:21 | the static struct starts zeroed |
| Uboot.ResetOpsEffects | uboot/ncs8801s.c:81-84 | the power-up sequence holds three GPIO operations and no register write |
| Uboot.ParseDt | uboot/ncs8801s.c:60-102 | trace, return value and new struct are those of the parse run: node lookup, availability, struct fill, conditional reset, I2C info, probe |
| Uboot.ParseDtOutcomes | uboot/ncs8801s.c:65-101 | no node gives -ENODEV and no events; a disabled node gives -1 and no events; a failed I2C lookup returns its own code before any probe; a probe returning a negative value gives -ENODEV; 0 exactly when the probe was made and did not return a negative value |
| Uboot.ParseDtNoWrites | uboot/ncs8801s.c:60-102 | parse_dt never writes a register |
| Uboot.ParseDtReset | uboot/ncs8801s.c:79-97 | the reset pwd:=0, rst:=0, rst:=1 happens exactly when the node is enabled and both GPIOs are valid, and it comes first; the only other event is the probe |
| Uboot.ParseDtFills | uboot/ncs8801s.c:70-78 | an enabled node sets the pins and the screen size, each dimension defaulting to 1920 or 1080 when absent; otherwise the struct is unchanged |
| Uboot.WriteFullHd | uboot/ncs8801s.c:114-120 | the 1920x1080 branch plays the 1920x1080 plan through the retrying write |
| Uboot.WriteOther | uboot/ncs8801s.c:121-125 | the other branch plays the 1366x768 plan through the retrying write |
| Uboot.Init | uboot/ncs8801s.c:104-127 | trace and return value are those of the init run; the struct is what parse_dt leaves |
| Uboot.InitEffects | uboot/ncs8801s.c:107-126 | no blob: -1 and nothing; the parse events come first; init returns -1 exactly when there is no node, the node is disabled, the I2C lookup fails or the probe returns a negative value, and then the trace is parse_dt's alone with no register write; otherwise 0 and the rest of the trace expands the plan for the parsed size |

## Left out

- Logging (`dev_dbg`, `dev_info`, `dev_err`, `printf`): it has no effect on the trace. The one exception is noted below under Kernel.WriteList.
- Delays (`usleep_range`, `udelay`): timing is not observable in a trace.
- Module glue is not part of this model: `ncs8801s_i2c_probe`, `remove`, module init and exit, and the driver tables.
- Kernel `ncs8801s_parse_dt`, GPIO requests and allocation are also not modelled. Init takes the struct as probe leaves it.
- Header contents: ncs8801s.h is not part of this model. Addresses, tables and lengths are an arbitrary `Header`.
- The number of bytes a transfer moves and the I2C message flags (`i2c->flags`, `I2C_M_RD`) are not modelled. A transfer is one event, and the bus is the oracle that answers it.
- The read buffer is assumed to be filled only by a transfer that returns 2. A failed transfer that still stores a byte is not modelled.
- `char` is modelled as unsigned, as on ARM. With a signed `char` a negative high byte would sign-extend in `high << 8`. In either case the combined value is zero exactly when both bytes are zero.
- U-Boot bus setup (`i2c_set_bus_num`, `i2c_init`) configures the host side only and leaves no event.
- `i2c_probe`'s return value is an oracle reply. Only a negative value counts as failure, as written.
- Device-tree lookups (`fdt_node_offset_by_compatible`, `fdt_device_is_available`, `fdtdec_get_int`, `fdtdec_decode_gpio`, `gpio_is_valid`, `fdt_get_i2c_info`) are inputs: their outcomes are fields of `Uboot.Node`.
- Kernel.Init: requires a non-NULL client whenever the singleton exists, because ncs8801s_read goes through `i2c->adapter` without a check. It also requires `TablesFit` when both guard bytes read zero, because write_list then reads the tables. Reading through NULL, or past a table's end, is undefined in C, so those runs are not modelled.
- Uboot.Init: requires `TablesFit` only when parse_dt succeeds, because write_list reads past a short table's end.
- Kernel.WriteList: with a NULL client, the source's `dev_err(&ncs8801s->i2c->dev, …)` after a failed write goes through NULL. The model does not capture that crash. It treats the log call as effect-free, so no event is recorded and 0 is returned. Init never calls write_list without a client.
- Kernel.WritePlan, Uboot.WriteFullHd, Uboot.WriteOther: the write phase of each init is a separate method with the same calls in the same order. The trace the methods produce is the same.
