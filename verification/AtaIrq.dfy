/** The interrupt-driven ATA driver: one request, advanced by ticks, with interrupts landing
    between any two accesses and a device that answers anything. */
module AtaIrq {
  import opened Words
  import opened AtaStatus
  import opened AtaWire

  datatype Step =
    | Idle
    | InitSelect | InitIdentifyCmd | InitIdentifyWait | InitIdentifyXfer
    | InitSetmultCmd | InitSetmultWait | InitDone | InitFail
    | IoIssueSelect | IoIssueTaskfile | IoIssueBatch | IoWaitIrq | IoXferBlock | IoWaitDone
    | IoDone | IoFail

  datatype Ctx = Ctx(fired: bool, last: u8, op: Op, step: Step, delay: nat,
                     lba: u64, left: u32, batch: u32, ptr: nat, trace: seq<Event>)

  const START: Ctx := Ctx(false, 0, OpNone, Idle, 0, 0, 0, 0, 0, [])

  // What the world does during one tick: the alternate statuses it answers, and the statuses
  // that interrupts read after the k-th point of the tick.
  datatype Env = Env(delaySt: u8, st1: u8, st2: u8, irqs: nat -> seq<u8>)

  // ---- Interrupts and accesses ----

  function IrqEvents(st: u8): seq<Event> { [IrqStatusIn(st), IrqOut(0xA0, 0x20), IrqOut(0x20, 0x20)] }

  function Irq(c: Ctx, st: u8): Ctx { c.(last := st, fired := true, trace := c.trace + IrqEvents(st)) }

  function Irqs(c: Ctx, sts: seq<u8>): Ctx
    decreases |sts|
  {
    if sts == [] then c else Irqs(Irq(c, sts[0]), sts[1..])
  }

  function Put(c: Ctx, e: Event, sts: seq<u8>): Ctx { Irqs(c.(trace := c.trace + [e]), sts) }

  // The same with interrupts before the access as well.
  function PutLate(c: Ctx, before: seq<u8>, e: Event, after: seq<u8>): Ctx { Put(Irqs(c, before), e, after) }

  function PutAll(c: Ctx, es: seq<Event>, k: nat, irqs: nat -> seq<u8>): Ctx
    decreases |es|
  {
    if es == [] then c else PutAll(Put(c, es[0], irqs(k)), es[1..], k + 1, irqs)
  }

  // Clearing irq_fired and then last_status, with room for an interrupt between them.
  function ResetFlags(c: Ctx, sts: seq<u8>): Ctx { Irqs(c.(fired := false), sts).(last := 0) }

  // ---- The handlers ----

  function FinishIo(c: Ctx, success: bool): Ctx { c.(step := if success then IoDone else IoFail, op := OpNone) }

  function FinishInit(c: Ctx, success: bool): Ctx { c.(step := if success then InitDone else InitFail, op := OpNone) }

  function SelectByte(c: Ctx): nat {
    if IsShort(c.op) then DriveByte(c.lba % 0x1_0000_0000) else DH_LBA_MASTER
  }

  function IssueSelect(c: Ctx, env: Env): Ctx {
    DriveByteIs(c.lba % 0x1_0000_0000);
    Put(c, Out(REG_DRIVE_SEL, SelectByte(c)), env.irqs(1)).(delay := 4, step := IoIssueTaskfile)
  }

  function TaskfileLba(c: Ctx): nat { if IsShort(c.op) then c.lba % 0x1_0000_0000 else c.lba }

  function IssueTaskfile(c: Ctx, env: Env): Ctx
    requires IsIo(c.op)
  {
    if c.left == 0 then FinishIo(c, true) else
      var c1 := PutAll(c.(batch := 1), Taskfile(c.op, TaskfileLba(c)), 1, env.irqs);
      ResetFlags(c1, env.irqs(20)).(step := IoWaitIrq)
  }

  function Judge(c: Ctx, st: u8, env: Env): Ctx {
    if Bad(st) then FinishIo(c, false)
    else if Drq(st) then c.(step := IoXferBlock)
    else if c.batch == 0 then (if c.left == 0 then FinishIo(c, true) else c.(step := IoIssueSelect))
    else
      var c2 := PutLate(c, env.irqs(4), AltIn(env.st2), env.irqs(2));
      if Bad(env.st2) then FinishIo(c2, false)
      else if Drq(env.st2) then c2.(step := IoXferBlock)
      else c2
  }

  function WaitIrq(c: Ctx, env: Env): Ctx {
    if c.fired then
      var c1 := Irqs(c.(fired := false), env.irqs(1));
      Judge(c1, c1.last, env)
    else if c.batch != 0 then c
    else Judge(PutLate(c, env.irqs(3), AltIn(env.st1), env.irqs(1)), env.st1, env)
  }

  function XferBlock(c: Ctx, env: Env): Ctx
    requires c.batch <= c.left
  {
    var n := if c.batch < 1 then c.batch else 1;
    if n == 0 then c.(step := IoWaitIrq) else
      var e := if IsRead(c.op) then InWords(c.ptr, n * 256) else OutWords(c.ptr, n * 256);
      Put(c, e, env.irqs(1)).(ptr := c.ptr + n * 256, lba := Add64(c.lba, n),
                              batch := c.batch - n, left := c.left - n, step := IoWaitIrq)
  }

  function InitSelectTick(c: Ctx, env: Env): Ctx {
    PutAll(c, [Out(REG_CONTROL, 0), Out(REG_DRIVE_SEL, DH_LBA_MASTER)], 1, env.irqs)
    .(delay := 4, step := InitIdentifyCmd)
  }

  const IDENTIFY_EVENTS: seq<Event> := [Out(REG_SECCOUNT, 0), Out(REG_LBA_LOW, 0), Out(REG_LBA_MID, 0),
                                        Out(REG_LBA_HIGH, 0), Out(REG_COMMAND, CMD_IDENTIFY)]

  function InitCmdTick(c: Ctx, env: Env): Ctx {
    ResetFlags(PutAll(c, IDENTIFY_EVENTS, 1, env.irqs), env.irqs(20)).(step := InitIdentifyWait)
  }

  function InitWaitTick(c: Ctx, env: Env): Ctx {
    if !c.fired then c else
      var c1 := Irqs(c.(fired := false), env.irqs(1));
      if Bad(c1.last) then FinishInit(c1, false)
      else if Drq(c1.last) then c1.(step := InitIdentifyXfer)
      else
        var c2 := PutLate(c1, env.irqs(4), AltIn(env.st2), env.irqs(2));
        if Bad(env.st2) then FinishInit(c2, false)
        else if Drq(env.st2) then c2.(step := InitIdentifyXfer)
        else c2
  }

  function InitXferTick(c: Ctx, env: Env): Ctx { FinishInit(Put(c, InIdentify(256), env.irqs(1)), true) }

  predicate IsInit(op: Op) { op.Init28? || op.Init48? }

  // What a driver state needs for its tick to make sense.
  predicate Sane(c: Ctx) { c.batch <= c.left && (c.step.IoIssueTaskfile? && !IsInit(c.op) ==> IsIo(c.op)) }

  function Dispatch(c: Ctx, env: Env): Ctx
    requires Sane(c)
  {
    if IsInit(c.op) then
      match c.step
      case InitSelect => InitSelectTick(c, env)
      case InitIdentifyCmd => InitCmdTick(c, env)
      case InitIdentifyWait => InitWaitTick(c, env)
      case InitIdentifyXfer => InitXferTick(c, env)
      case _ => c
    else
      match c.step
      case IoIssueSelect => IssueSelect(c, env)
      case IoIssueTaskfile => IssueTaskfile(c, env)
      case IoWaitIrq => WaitIrq(c, env)
      case IoXferBlock => XferBlock(c, env)
      case _ => c
  }

  // One alternate-status read of the 400 ns delay.
  function DelayTick(c: Ctx, env: Env): Ctx
    requires c.delay > 0
  {
    Put(c, AltIn(env.delaySt), env.irqs(0)).(delay := c.delay - 1)
  }

  function Tick(c: Ctx, env: Env): Ctx
    requires Sane(c)
  {
    if c.delay == 0 then Dispatch(c, env) else
      var c1 := DelayTick(c, env);
      IrqsQuiet(c.(trace := c.trace + [AltIn(env.delaySt)]), env.irqs(0));
      if c1.delay != 0 then c1 else Dispatch(c1, env)
  }

  // ---- Beginning a request ----

  // What interrupts read inside a begin call: before the flags are cleared, and between.
  datatype Landing = Landing(before: seq<u8>, between: seq<u8>)

  function BeginInit(c: Ctx, op: Op, at: Landing): Ctx {
    if c.step != Idle then c
    else ResetFlags(Irqs(c.(op := op, step := InitSelect, delay := 0), at.before), at.between)
  }

  function BeginIo(c: Ctx, q: Request, at: Landing): Ctx
    requires q.lba < TWO64 && q.count < 0x1_0000_0000
  {
    if c.step != Idle || q.count == 0 then c
    else
      var c1 := c.(op := q.op, step := IoIssueSelect, lba := q.lba, left := q.count, batch := 0,
                   ptr := q.ptr, delay := 0);
      ResetFlags(Irqs(c1, at.before), at.between)
  }

  // ---- What an interrupt leaves alone ----

  // Two states that differ only in the interrupt flags and in events no register sees.
  ghost predicate Quiet(c: Ctx, c': Ctx) {
    && c' == c.(fired := c'.fired, last := c'.last, trace := c'.trace)
    && Decode(c'.trace) == Decode(c.trace)
  }

  lemma {:induction false} IrqsQuiet(c: Ctx, sts: seq<u8>)
    ensures Quiet(c, Irqs(c, sts))
    decreases |sts|
  {
    if sts != [] {
      IrqQuiet(c, sts[0]);
      IrqsQuiet(Irq(c, sts[0]), sts[1..]);
    }
  }

  lemma IrqQuiet(c: Ctx, st: u8)
    ensures Quiet(c, Irq(c, st))
  {
    var es := IrqEvents(st);
    DecodeMore(c.trace, es);
    Take2(Decode(c.trace), es);
    assert es[2..] == [IrqOut(0x20, 0x20)];
  }
}
