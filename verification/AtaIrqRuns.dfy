/** Every run of the interrupt-driven driver: what is on the wire in every reachable state. */
module AtaIrqRuns {
  import opened Words
  import opened AtaStatus
  import opened AtaWire
  import opened AtaIrq

  const GAP: nat := 4   // alternate-status reads between drive select and command

  // What the arguments of a begin call can be.
  predicate Possible(q: Request) {
    IsIo(q.op) && q.lba < (if IsShort(q.op) then 0x1_0000_0000 else TWO64) && q.count < 0x1_0000_0000
  }

  predicate Fits(q: Request) { Possible(q) && q.count > 0 }

  // A reachable state of request q.
  ghost predicate IoInv(c: Ctx, q: Request) {
    && Fits(q) && c.left <= q.count && c.batch <= 1 && c.batch <= c.left && c.delay <= GAP
    && var done: nat := q.count - c.left;
       var w := Decode(c.trace);
       && c.lba == (q.lba + done) % TWO64
       && c.ptr == q.ptr + 256 * done
       && (c.step.IoDone? || c.step.IoFail? || c.op == q.op)
       && (c.step.IoIssueTaskfile? || c.delay == 0)
       && match c.step
          case IoIssueSelect => c.batch == 0 && c.left > 0 && w.acts == Script(q, GAP, done)
          case IoIssueTaskfile =>
            && c.batch == 0 && c.left > 0 && w.acts == Script(q, GAP, done)
            && w.regs.gap + c.delay == GAP
            && w.regs.drive == DriveOf(q.op, c.lba)
          case IoWaitIrq => InBlock(c, q, done)
          case IoXferBlock => InBlock(c, q, done)
          case IoDone => c.op == OpNone && c.left == 0 && w.acts == Script(q, GAP, q.count)
          case IoFail => c.op == OpNone && (w.acts == Script(q, GAP, done) || CommandOut(c, q, done))
          case _ => false
  }

  ghost predicate CommandOut(c: Ctx, q: Request, done: nat)
    requires IsIo(q.op)
  {
    c.left > 0 && Decode(c.trace).acts == Script(q, GAP, done) + [CmdOf(q, GAP, done)]
  }

  // After a command, before (batch 1) or after (batch 0) its transfer.
  ghost predicate InBlock(c: Ctx, q: Request, done: nat)
    requires IsIo(q.op)
  {
    && (c.batch == 1 ==> CommandOut(c, q, done))
    && (c.batch == 0 ==> done > 0 && Decode(c.trace).acts == Script(q, GAP, done))
  }

  lemma QuietKeeps(c: Ctx, c': Ctx, q: Request)
    requires IoInv(c, q) && Quiet(c, c')
    ensures IoInv(c', q)
  {
  }

  lemma PutTakes(c: Ctx, e: Event, sts: seq<u8>)
    ensures var c' := Put(c, e, sts);
      && c' == c.(fired := c'.fired, last := c'.last, trace := c'.trace)
      && Decode(c'.trace) == Take(Decode(c.trace), e)
  {
    DecodeOne(c.trace, e);
    IrqsQuiet(c.(trace := c.trace + [e]), sts);
  }

  lemma PutLateTakes(c: Ctx, before: seq<u8>, e: Event, after: seq<u8>)
    ensures var c' := PutLate(c, before, e, after);
      && c' == c.(fired := c'.fired, last := c'.last, trace := c'.trace)
      && Decode(c'.trace) == Take(Decode(c.trace), e)
  {
    IrqsQuiet(c, before);
    PutTakes(Irqs(c, before), e, after);
  }

  lemma {:induction false} PutAllTakes(c: Ctx, es: seq<Event>, k: nat, irqs: nat -> seq<u8>)
    ensures var c' := PutAll(c, es, k, irqs);
      && c' == c.(fired := c'.fired, last := c'.last, trace := c'.trace)
      && Decode(c'.trace) == TakeAll(Decode(c.trace), es)
    decreases |es|
  {
    if es != [] {
      PutTakes(c, es[0], irqs(k));
      PutAllTakes(Put(c, es[0], irqs(k)), es[1..], k + 1, irqs);
    }
  }

  lemma ResetQuiet(c: Ctx, sts: seq<u8>)
    ensures Quiet(c, ResetFlags(c, sts))
  {
    IrqsQuiet(c.(fired := false), sts);
  }

  // ---- Each handler keeps the invariant ----

  lemma SelectKeeps(c: Ctx, env: Env, q: Request)
    requires IoInv(c, q) && c.step.IoIssueSelect?
    ensures IoInv(IssueSelect(c, env), q)
  {
    SelectByteIs(c);
    var b: u8 := SelectByte(c);
    PutTakes(c, Out(REG_DRIVE_SEL, b), env.irqs(1));
    Selected(c, Put(c, Out(REG_DRIVE_SEL, b), env.irqs(1)), q, b);
  }

  // Drive 0, LBA mode, and the address bits of a 28-bit request.
  lemma SelectByteIs(c: Ctx)
    ensures SelectByte(c) == DriveOf(c.op, c.lba) < 256
  {
    DriveByteIs(c.lba % 0x1_0000_0000);
    DriveWraps(c.op, c.lba);
  }

  lemma Selected(c: Ctx, c1: Ctx, q: Request, b: u8)
    requires IoInv(c, q) && c.step.IoIssueSelect? && b == DriveOf(c.op, c.lba)
    requires c1 == c.(fired := c1.fired, last := c1.last, trace := c1.trace)
    requires Decode(c1.trace) == Take(Decode(c.trace), Out(REG_DRIVE_SEL, b))
    ensures IoInv(c1.(delay := 4, step := IoIssueTaskfile), q)
  {
  }

  // Which address the task file carries, and which bits of it the drive register.
  lemma TaskfileSpan(c: Ctx, q: Request)
    requires IoInv(c, q) && IsIo(c.op) && c.op == q.op
    ensures var x: nat := q.lba + (q.count - c.left);
      && TaskfileLba(c) % Span(q.op) == x % Span(q.op)
      && DriveOf(q.op, TaskfileLba(c)) == DriveOf(q.op, c.lba) == DriveOf(q.op, x)
  {
    var x: nat := q.lba + (q.count - c.left);
    DriveWraps(q.op, x);
    DriveWraps(q.op, c.lba);
    if IsShort(q.op) { WrapTwice(x); WrapShort(x); } else { WrapLong(x); }
  }

  lemma TaskfileKeeps(c: Ctx, env: Env, q: Request)
    requires IoInv(c, q) && c.step.IoIssueTaskfile? && c.delay == 0
    ensures IoInv(IssueTaskfile(c, env), q)
  {
    var lba := TaskfileLba(c);
    var c0 := c.(batch := 1);
    var c1 := PutAll(c0, Taskfile(c.op, lba), 1, env.irqs);
    PutAllTakes(c0, Taskfile(c.op, lba), 1, env.irqs);
    NextCommand(c, q);
    ResetQuiet(c1, env.irqs(20));
    Issued(c, ResetFlags(c1, env.irqs(20)), q);
  }

  // The task file amounts to the next command of the script.
  lemma NextCommand(c: Ctx, q: Request)
    requires IoInv(c, q) && c.step.IoIssueTaskfile? && c.delay == 0
    ensures var w := Decode(c.trace);
      TakeAll(w, Taskfile(c.op, TaskfileLba(c))).acts == w.acts + [CmdOf(q, GAP, q.count - c.left)]
  {
    TaskfileSpan(c, q);
    TaskfileIssues(Decode(c.trace), c.op, TaskfileLba(c));
  }

  lemma Issued(c: Ctx, c2: Ctx, q: Request)
    requires IoInv(c, q) && c.step.IoIssueTaskfile? && c.delay == 0
    requires c2 == c.(batch := 1, fired := c2.fired, last := c2.last, trace := c2.trace)
    requires Decode(c2.trace).acts == Decode(c.trace).acts + [CmdOf(q, GAP, q.count - c.left)]
    ensures IoInv(c2.(step := IoWaitIrq), q)
  {
  }

  // The next step decided from a status, with what stays the same.
  lemma StepTo(c: Ctx, c': Ctx, q: Request, step: Step)
    requires IoInv(c, q) && c.step.IoWaitIrq? && c' == c.(step := step)
    requires step.IoXferBlock? || (step.IoIssueSelect? && c.batch == 0 && c.left > 0)
    ensures IoInv(c', q)
  {
  }

  lemma FinishKeeps(c: Ctx, q: Request, success: bool)
    requires IoInv(c, q) && c.step.IoWaitIrq? && (success ==> c.batch == 0 && c.left == 0)
    ensures IoInv(FinishIo(c, success), q)
  {
  }

  lemma JudgeKeeps(c: Ctx, st: u8, env: Env, q: Request)
    requires IoInv(c, q) && c.step.IoWaitIrq?
    ensures IoInv(Judge(c, st, env), q)
  {
    if Bad(st) {
      FinishKeeps(c, q, false);
    } else if Drq(st) {
      StepTo(c, c.(step := IoXferBlock), q, IoXferBlock);
    } else if c.batch == 0 {
      if c.left == 0 { FinishKeeps(c, q, true); } else { StepTo(c, c.(step := IoIssueSelect), q, IoIssueSelect); }
    } else {
      JudgeAgain(c, env, q);
    }
  }

  // A read of alternate status, and interrupts around it.
  lemma LookKeeps(c: Ctx, c1: Ctx, q: Request, st: u8)
    requires IoInv(c, q) && c.step.IoWaitIrq? && c1 == c.(fired := c1.fired, last := c1.last, trace := c1.trace)
    requires Decode(c1.trace) == Take(Decode(c.trace), AltIn(st))
    ensures IoInv(c1, q)
  {
  }

  lemma JudgeAgain(c: Ctx, env: Env, q: Request)
    requires IoInv(c, q) && c.step.IoWaitIrq?
    ensures var c2 := PutLate(c, env.irqs(4), AltIn(env.st2), env.irqs(2));
      IoInv(c2, q) && IoInv(FinishIo(c2, false), q) && IoInv(c2.(step := IoXferBlock), q)
  {
    var c2 := PutLate(c, env.irqs(4), AltIn(env.st2), env.irqs(2));
    PutLateTakes(c, env.irqs(4), AltIn(env.st2), env.irqs(2));
    assert IoInv(c2, q);
    FinishKeeps(c2, q, false);
    StepTo(c2, c2.(step := IoXferBlock), q, IoXferBlock);
  }

  lemma WaitKeeps(c: Ctx, env: Env, q: Request)
    requires IoInv(c, q) && c.step.IoWaitIrq?
    ensures IoInv(WaitIrq(c, env), q)
  {
    if c.fired {
      var c1 := Irqs(c.(fired := false), env.irqs(1));
      IrqsQuiet(c.(fired := false), env.irqs(1));
      QuietKeeps(c, c1, q);
      JudgeKeeps(c1, c1.last, env, q);
    } else if c.batch == 0 {
      PutLateTakes(c, env.irqs(3), AltIn(env.st1), env.irqs(1));
      JudgeKeeps(PutLate(c, env.irqs(3), AltIn(env.st1), env.irqs(1)), env.st1, env, q);
    }
  }

  lemma XferKeeps(c: Ctx, env: Env, q: Request)
    requires IoInv(c, q) && c.step.IoXferBlock?
    ensures IoInv(XferBlock(c, env), q)
  {
    if c.batch == 1 {
      var e := if IsRead(c.op) then InWords(c.ptr, 256) else OutWords(c.ptr, 256);
      PutTakes(c, e, env.irqs(1));
      Moved(c, Put(c, e, env.irqs(1)), q);
    }
  }

  lemma Moved(c: Ctx, c1: Ctx, q: Request)
    requires IoInv(c, q) && c.step.IoXferBlock? && c.batch == 1
    requires c1 == c.(fired := c1.fired, last := c1.last, trace := c1.trace)
    requires Decode(c1.trace).acts == Decode(c.trace).acts + [MoveOf(q, q.count - c.left)]
    ensures IoInv(c1.(ptr := c.ptr + 256, lba := Add64(c.lba, 1), batch := 0, left := c.left - 1, step := IoWaitIrq), q)
  {
    var done: nat := q.count - c.left;
    assert Script(q, GAP, done + 1) == Script(q, GAP, done) + [CmdOf(q, GAP, done)] + [MoveOf(q, done)];
    NextAddress(q.lba + done);
  }

  lemma DelayKeeps(c: Ctx, env: Env, q: Request)
    requires IoInv(c, q) && c.delay > 0
    ensures IoInv(DelayTick(c, env), q)
  {
    PutTakes(c, AltIn(env.delaySt), env.irqs(0));
  }

  lemma TickKeeps(c: Ctx, env: Env, q: Request)
    requires IoInv(c, q)
    ensures Sane(c) && IoInv(Tick(c, env), q)
  {
    if c.delay != 0 { DelayKeeps(c, env, q); }
    var c1 := if c.delay == 0 then c else DelayTick(c, env);
    if c1.delay == 0 {
      match c1.step {
        case IoIssueSelect => SelectKeeps(c1, env, q);
        case IoIssueTaskfile => TaskfileKeeps(c1, env, q);
        case IoWaitIrq => WaitKeeps(c1, env, q);
        case IoXferBlock => XferKeeps(c1, env, q);
        case _ =>
      }
    }
  }

  // ---- Initialization ----

  // Device control 0: interrupts are enabled, and no reset.
  const CONTROL: Act := Write(0x3F6, 0)
  const IDENTIFY_CMD: Act := Cmd(0xEC, 0, 256, GAP, 0xE0)

  ghost predicate InitInv(c: Ctx) {
    && c.batch == 0 && c.left == 0 && c.delay <= GAP && (c.step.InitIdentifyCmd? || c.delay == 0)
    && (c.step.InitDone? || c.step.InitFail? || IsInit(c.op))
    && var w := Decode(c.trace);
       match c.step
       case InitSelect => w.acts == []
       case InitIdentifyCmd => w.acts == [CONTROL] && w.regs.gap + c.delay == GAP && w.regs.drive == 0xE0
       case InitIdentifyWait => w.acts == [CONTROL, IDENTIFY_CMD]
       case InitIdentifyXfer => w.acts == [CONTROL, IDENTIFY_CMD]
       case InitDone => c.op == OpNone && w.acts == [CONTROL, IDENTIFY_CMD, Identify(256)]
       case InitFail => c.op == OpNone && w.acts == [CONTROL, IDENTIFY_CMD]
       case _ => false
  }

  lemma InitSelectKeeps(c: Ctx, env: Env)
    requires InitInv(c) && c.step.InitSelect?
    ensures InitInv(InitSelectTick(c, env))
  {
    var es := [Out(REG_CONTROL, 0), Out(REG_DRIVE_SEL, DH_LBA_MASTER)];
    PutAllTakes(c, es, 1, env.irqs);
    Take2(Decode(c.trace), es);
  }

  lemma InitCmdKeeps(c: Ctx, env: Env)
    requires InitInv(c) && c.step.InitIdentifyCmd? && c.delay == 0
    ensures InitInv(InitCmdTick(c, env))
  {
    PutAllTakes(c, IDENTIFY_EVENTS, 1, env.irqs);
    IdentifyIssues(Decode(c.trace));
    ResetQuiet(PutAll(c, IDENTIFY_EVENTS, 1, env.irqs), env.irqs(20));
  }

  lemma IdentifyIssues(w: Wire)
    requires w.acts == [CONTROL] && w.regs.gap == GAP && w.regs.drive == 0xE0
    ensures TakeAll(w, IDENTIFY_EVENTS).acts == [CONTROL, IDENTIFY_CMD]
  {
    Take5(w, IDENTIFY_EVENTS);
  }

  lemma InitWaitKeeps(c: Ctx, env: Env)
    requires InitInv(c) && c.step.InitIdentifyWait?
    ensures InitInv(InitWaitTick(c, env))
  {
    var c1 := Irqs(c.(fired := false), env.irqs(1));
    IrqsQuiet(c.(fired := false), env.irqs(1));
    var c2 := PutLate(c1, env.irqs(4), AltIn(env.st2), env.irqs(2));
    PutLateTakes(c1, env.irqs(4), AltIn(env.st2), env.irqs(2));
    assert c1.delay == 0 && Decode(c1.trace).acts == [CONTROL, IDENTIFY_CMD] && InitInv(c1);
    InitJudged(c1);
    assert InitInv(c2);
    InitJudged(c2);
  }

  // What a waiting initialization can go on to.
  lemma InitJudged(c: Ctx)
    requires InitInv(c) && c.step.InitIdentifyWait?
    ensures InitInv(FinishInit(c, false)) && InitInv(c.(step := InitIdentifyXfer))
  {
  }

  lemma InitTickKeeps(c: Ctx, env: Env)
    requires InitInv(c)
    ensures Sane(c) && InitInv(Tick(c, env))
  {
    if c.delay != 0 { PutTakes(c, AltIn(env.delaySt), env.irqs(0)); }
    var c1 := if c.delay == 0 then c else DelayTick(c, env);
    if c1.delay == 0 {
      match c1.step {
        case InitSelect => InitSelectKeeps(c1, env);
        case InitIdentifyCmd => InitCmdKeeps(c1, env);
        case InitIdentifyWait => InitWaitKeeps(c1, env);
        case InitIdentifyXfer => PutTakes(c1, InIdentify(256), env.irqs(1));
        case _ =>
      }
    }
  }

  // ---- Runs ----

  datatype Input =
    | BeginInitIn(op: Op, at: Landing)
    | BeginIoIn(q: Request, at: Landing)
    | TickIn(env: Env)
    | IrqIn(st: u8)

  predicate Legal(i: Input) {
    match i
    case BeginInitIn(op, _) => IsInit(op)
    case BeginIoIn(q, _) => Possible(q)
    case _ => true
  }

  // What the one request of a run is, and how many begin calls succeeded.
  datatype Phase = Unused | Initializing | Serving(q: Request)
  datatype Sys = Sys(ctx: Ctx, phase: Phase, begun: nat)

  ghost predicate SysInv(s: Sys) {
    match s.phase
    case Unused => s.begun == 0 && s.ctx.step == Idle && s.ctx.op == OpNone && s.ctx.delay == 0
                   && s.ctx.batch == 0 && s.ctx.left == 0 && Decode(s.ctx.trace) == RESET
    case Initializing => s.begun == 1 && InitInv(s.ctx)
    case Serving(q) => s.begun == 1 && IoInv(s.ctx, q)
  }

  function Apply(s: Sys, i: Input): Sys
    requires Sane(s.ctx) && Legal(i)
  {
    match i
    case BeginInitIn(op, at) =>
      if s.ctx.step == Idle then Sys(BeginInit(s.ctx, op, at), Initializing, s.begun + 1) else s
    case BeginIoIn(q, at) =>
      if s.ctx.step == Idle && q.count > 0 then Sys(BeginIo(s.ctx, q, at), Serving(q), s.begun + 1) else s
    case TickIn(env) => s.(ctx := Tick(s.ctx, env))
    case IrqIn(st) => s.(ctx := Irq(s.ctx, st))
  }

  lemma BeginQuiet(c: Ctx, at: Landing)
    ensures Quiet(c, ResetFlags(Irqs(c, at.before), at.between))
  {
    IrqsQuiet(c, at.before);
    ResetQuiet(Irqs(c, at.before), at.between);
  }

  lemma ApplyKeeps(s: Sys, i: Input)
    requires SysInv(s) && Legal(i)
    ensures Sane(s.ctx) && SysInv(Apply(s, i))
  {
    match i
    case BeginInitIn(op, at) => BeginQuiet(s.ctx.(op := op, step := InitSelect, delay := 0), at);
    case BeginIoIn(q, at) =>
      if s.ctx.step == Idle && q.count > 0 {
        BeginQuiet(s.ctx.(op := q.op, step := IoIssueSelect, lba := q.lba, left := q.count, batch := 0,
                          ptr := q.ptr, delay := 0), at);
      }
    case TickIn(env) =>
      if s.phase.Initializing? { InitTickKeeps(s.ctx, env); }
      if s.phase.Serving? { TickKeeps(s.ctx, env, s.phase.q); }
    case IrqIn(st) =>
      IrqQuiet(s.ctx, st);
      if s.phase.Serving? { QuietKeeps(s.ctx, Irq(s.ctx, st), s.phase.q); }
  }

  // The state after any sequence of begin calls, ticks and interrupts.
  ghost function Play(inputs: seq<Input>): (s: Sys)
    requires forall i | i in inputs :: Legal(i)
    ensures SysInv(s)
  {
    if inputs == [] then Sys(START, Unused, 0)
    else
      var s, i := Play(inputs[..|inputs| - 1]), inputs[|inputs| - 1];
      ApplyKeeps(s, i);
      Apply(s, i)
  }
}
