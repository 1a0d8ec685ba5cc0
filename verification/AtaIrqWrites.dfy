/** The interrupt-driven driver counts on interrupts: one for every block, before the block. */
module AtaIrqWrites {
  import opened Words
  import opened AtaStatus
  import opened AtaWire
  import opened AtaIrq
  import opened AtaIrqRuns
  import opened AtaIrqTheorems
  import opened AtaIrqReads

  // The interrupts that a trace shows.
  function IrqCount(trace: seq<Event>): nat {
    if trace == [] then 0 else IrqCount(trace[..|trace| - 1]) + (if trace[|trace| - 1].IrqStatusIn? then 1 else 0)
  }

  lemma CountOne(trace: seq<Event>, e: Event)
    ensures IrqCount(trace + [e]) == IrqCount(trace) + (if e.IrqStatusIn? then 1 else 0)
  {
    assert (trace + [e])[..|trace|] == trace;
  }

  lemma CountIrq(c: Ctx, st: u8)
    ensures IrqCount(Irq(c, st).trace) == IrqCount(c.trace) + 1
  {
    CountOne(c.trace, IrqStatusIn(st));
    var t := c.trace + [IrqStatusIn(st)];
    CountOne(t, IrqOut(0xA0, 0x20));
    CountOne(t + [IrqOut(0xA0, 0x20)], IrqOut(0x20, 0x20));
    assert Irq(c, st).trace == t + [IrqOut(0xA0, 0x20)] + [IrqOut(0x20, 0x20)];
  }

  // The blocks moved, k more owed, and an interrupt still noted: no more than came in.
  ghost predicate Paid(c: Ctx, q: Request, k: nat) {
    c.left <= q.count && (q.count - c.left) + k + (if c.fired then 1 else 0) <= IrqCount(c.trace)
  }

  function Owed(c: Ctx): nat { if c.step.IoXferBlock? && c.batch == 1 then 1 else 0 }

  lemma {:induction false} IrqsPaid(c: Ctx, q: Request, k: nat, sts: seq<u8>)
    requires Paid(c, q, k)
    ensures Paid(Irqs(c, sts), q, k)
    decreases |sts|
  {
    if sts != [] {
      CountIrq(c, sts[0]);
      IrqsPaid(Irq(c, sts[0]), q, k, sts[1..]);
    }
  }

  lemma PutPaid(c: Ctx, q: Request, k: nat, e: Event, sts: seq<u8>)
    requires Paid(c, q, k) && !e.IrqStatusIn?
    ensures Paid(Put(c, e, sts), q, k)
  {
    CountOne(c.trace, e);
    IrqsPaid(c.(trace := c.trace + [e]), q, k, sts);
  }

  lemma PutLatePaid(c: Ctx, q: Request, k: nat, before: seq<u8>, e: Event, after: seq<u8>)
    requires Paid(c, q, k) && !e.IrqStatusIn?
    ensures Paid(PutLate(c, before, e, after), q, k)
  {
    IrqsPaid(c, q, k, before);
    PutPaid(Irqs(c, before), q, k, e, after);
  }

  lemma {:induction false} PutAllPaid(c: Ctx, q: Request, k: nat, es: seq<Event>, j: nat, irqs: nat -> seq<u8>)
    requires Paid(c, q, k) && forall e | e in es :: !e.IrqStatusIn?
    ensures Paid(PutAll(c, es, j, irqs), q, k)
    decreases |es|
  {
    if es != [] {
      PutPaid(c, q, k, es[0], irqs(j));
      PutAllPaid(Put(c, es[0], irqs(j)), q, k, es[1..], j + 1, irqs);
    }
  }

  lemma ResetPaid(c: Ctx, q: Request, k: nat, sts: seq<u8>)
    requires Paid(c, q, k)
    ensures Paid(ResetFlags(c, sts), q, k)
  {
    IrqsPaid(c.(fired := false), q, k, sts);
  }

  // ---- Each handler pays its way ----

  lemma JudgePaid(c: Ctx, st: u8, env: Env, q: Request)
    requires c.step.IoWaitIrq? && c.batch <= 1 && Paid(c, q, c.batch)
    ensures Paid(Judge(c, st, env), q, Owed(Judge(c, st, env)))
  {
    if !Bad(st) && !Drq(st) && c.batch != 0 {
      var c2 := PutLate(c, env.irqs(4), AltIn(env.st2), env.irqs(2));
      PutLateTakes(c, env.irqs(4), AltIn(env.st2), env.irqs(2));
      PutLatePaid(c, q, c.batch, env.irqs(4), AltIn(env.st2), env.irqs(2));
      assert c2.step.IoWaitIrq? && c2.batch == 1 && Paid(c2, q, 1);
    }
  }

  lemma WaitPaid(c: Ctx, env: Env, q: Request)
    requires c.step.IoWaitIrq? && c.batch <= 1 && Paid(c, q, 0)
    ensures Paid(WaitIrq(c, env), q, Owed(WaitIrq(c, env)))
  {
    if c.fired {
      var c0 := c.(fired := false);
      IrqsQuiet(c0, env.irqs(1));
      IrqsPaid(c0, q, c.batch, env.irqs(1));
      JudgePaid(Irqs(c0, env.irqs(1)), Irqs(c0, env.irqs(1)).last, env, q);
    } else if c.batch == 0 {
      PutLateTakes(c, env.irqs(3), AltIn(env.st1), env.irqs(1));
      PutLatePaid(c, q, 0, env.irqs(3), AltIn(env.st1), env.irqs(1));
      JudgePaid(PutLate(c, env.irqs(3), AltIn(env.st1), env.irqs(1)), env.st1, env, q);
    }
  }

  lemma TaskfilePaid(c: Ctx, env: Env, q: Request)
    requires IsIo(c.op) && c.left > 0 && Paid(c, q, 0)
    ensures Paid(IssueTaskfile(c, env), q, 0)
  {
    var c0, es := c.(batch := 1), Taskfile(c.op, TaskfileLba(c));
    PutAllPaid(c0, q, 0, es, 1, env.irqs);
    ResetPaid(PutAll(c0, es, 1, env.irqs), q, 0, env.irqs(20));
  }

  lemma XferPaid(c: Ctx, env: Env, q: Request)
    requires c.step.IoXferBlock? && c.batch <= 1 && c.batch <= c.left && Paid(c, q, c.batch)
    ensures Paid(XferBlock(c, env), q, 0)
  {
    if c.batch == 1 {
      var e := if IsRead(c.op) then InWords(c.ptr, 256) else OutWords(c.ptr, 256);
      PutTakes(c, e, env.irqs(1));
      PutPaid(c, q, 1, e, env.irqs(1));
    }
  }

  lemma DispatchPaid(c: Ctx, env: Env, q: Request)
    requires IoInv(c, q) && Sane(c) && c.delay == 0 && Paid(c, q, Owed(c))
    ensures Paid(Dispatch(c, env), q, Owed(Dispatch(c, env)))
  {
    match c.step {
      case IoIssueSelect =>
        DriveByteIs(c.lba % 0x1_0000_0000);
        PutPaid(c, q, 0, Out(REG_DRIVE_SEL, SelectByte(c)), env.irqs(1));
      case IoIssueTaskfile => TaskfilePaid(c, env, q);
      case IoWaitIrq => WaitPaid(c, env, q);
      case IoXferBlock => XferPaid(c, env, q);
      case _ =>
    }
  }

  lemma TickPaid(c: Ctx, env: Env, q: Request)
    requires IoInv(c, q) && Sane(c) && Paid(c, q, Owed(c))
    ensures Paid(Tick(c, env), q, Owed(Tick(c, env)))
  {
    if c.delay == 0 {
      DispatchPaid(c, env, q);
    } else {
      DelayKeeps(c, env, q);
      PutTakes(c, AltIn(env.delaySt), env.irqs(0));
      PutPaid(c, q, 0, AltIn(env.delaySt), env.irqs(0));
      var c1 := DelayTick(c, env);
      if c1.delay == 0 { DispatchPaid(c1, env, q); }
    }
  }

  lemma BeginPaid(c: Ctx, q: Request, at: Landing)
    requires c.step.Idle? && Fits(q)
    ensures Paid(BeginIo(c, q, at), q, 0) && BeginIo(c, q, at).step.IoIssueSelect?
  {
    var c1 := c.(op := q.op, step := IoIssueSelect, lba := q.lba, left := q.count, batch := 0,
                 ptr := q.ptr, delay := 0);
    IrqsQuiet(c1, at.before);
    ResetQuiet(Irqs(c1, at.before), at.between);
    IrqsPaid(Irqs(c1, at.before).(fired := false), q, 0, at.between);
  }

  lemma ApplyPaid(s: Sys, i: Input, q: Request)
    requires SysInv(s) && Legal(i) && Sane(s.ctx) && Apply(s, i).phase == Serving(q)
    requires s.phase.Serving? ==> Paid(s.ctx, q, Owed(s.ctx))
    ensures Paid(Apply(s, i).ctx, q, Owed(Apply(s, i).ctx))
  {
    match i {
      case TickIn(env) => TickPaid(s.ctx, env, q);
      case IrqIn(st) => CountIrq(s.ctx, st);
      case BeginIoIn(q', at) => if s.phase.Unused? { BeginPaid(s.ctx, q, at); }
      case _ =>
    }
  }

  // In every run no more blocks are moved than interrupts came in.
  lemma {:induction false} OneInterruptABlock(inputs: seq<Input>, q: Request)
    requires AllLegal(inputs) && Play(inputs).phase == Serving(q)
    ensures var c := Play(inputs).ctx; Paid(c, q, Owed(c)) && q.count - c.left <= IrqCount(c.trace)
  {
    var init, i := inputs[..|inputs| - 1], inputs[|inputs| - 1];
    ApplyKeeps(Play(init), i);
    if Play(init).phase.Serving? { OneInterruptABlock(init, q); }
    ApplyPaid(Play(init), i, q);
  }

  // Without interrupts no block moves: at most the first command is on the wire.
  lemma NoInterruptNoBlock(inputs: seq<Input>, q: Request)
    requires AllLegal(inputs) && Play(inputs).phase == Serving(q) && IrqCount(Play(inputs).ctx.trace) == 0
    ensures IsIo(q.op) && (Acts(Play(inputs)) == [] || Acts(Play(inputs)) == [CmdOf(q, GAP, 0)])
    ensures !Play(inputs).ctx.step.IoDone?
  {
    OneInterruptABlock(inputs, q);
    InvActs(Play(inputs).ctx, q);
  }

  // ---- Writes ----

  // A device that interrupts only once a block has been sent to it, as section 9.6 of
  // ATA/ATAPI-6 has it for the first block of a write.
  ghost predicate AfterBlocksOnly(trace: seq<Event>) {
    trace == [] ||
    var init, e := trace[..|trace| - 1], trace[|trace| - 1];
    AfterBlocksOnly(init) && (e.IrqStatusIn? ==> Sends(init))
  }

  ghost predicate Sends(trace: seq<Event>) { exists e :: e in trace && e.OutWords? }

  lemma {:induction false} NothingSentNoIrq(trace: seq<Event>)
    requires AfterBlocksOnly(trace) && !Sends(trace)
    ensures IrqCount(trace) == 0
  {
    if trace != [] {
      var init, e := trace[..|trace| - 1], trace[|trace| - 1];
      assert trace == init + [e];
      assert forall x | x in init :: x in trace;
      NothingSentNoIrq(init);
    }
  }

  // What is sent shows among the acts.
  lemma {:induction false} SendsShow(trace: seq<Event>)
    requires Sends(trace)
    ensures exists a :: a in Decode(trace).acts && a.MoveOut?
  {
    var init, e := trace[..|trace| - 1], trace[|trace| - 1];
    assert trace == init + [e];
    if Sends(init) {
      SendsShow(init);
      var a :| a in Decode(init).acts && a.MoveOut?;
      assert a in Decode(trace).acts;
    } else {
      var x :| x in trace && x.OutWords?;
      assert x == e || x in init;
      assert MoveOut(e.ptr, e.words) in Decode(trace).acts;
    }
  }

  lemma {:induction false} AfterBlocksPrefix(t: seq<Event>, t': seq<Event>)
    requires t <= t' && AfterBlocksOnly(t')
    ensures AfterBlocksOnly(t)
    decreases |t'|
  {
    if t != t' { AfterBlocksPrefix(t, t'[..|t'| - 1]); }
  }

  // A tick that has no block to move moves none.
  lemma TickMovesNone(c: Ctx, env: Env, q: Request)
    requires IoInv(c, q) && Sane(c) && Owed(c) == 0
    ensures Tick(c, env).left == c.left
  {
    if c.delay == 0 {
      DispatchMovesNone(c, env, q);
    } else {
      DelayKeeps(c, env, q);
      PutTakes(c, AltIn(env.delaySt), env.irqs(0));
      if DelayTick(c, env).delay == 0 { DispatchMovesNone(DelayTick(c, env), env, q); }
    }
  }

  lemma DispatchMovesNone(c: Ctx, env: Env, q: Request)
    requires IoInv(c, q) && Sane(c) && Owed(c) == 0 && c.delay == 0
    ensures Dispatch(c, env).left == c.left
  {
    match c.step {
      case IoIssueSelect =>
        DriveByteIs(c.lba % 0x1_0000_0000);
        PutTakes(c, Out(REG_DRIVE_SEL, SelectByte(c)), env.irqs(1));
      case IoIssueTaskfile => TaskfileGetsAhead(c, env);
      case IoWaitIrq => WaitMovesNone(c, env);
      case IoXferBlock =>
      case _ =>
    }
  }

  lemma WaitMovesNone(c: Ctx, env: Env)
    requires c.step.IoWaitIrq?
    ensures WaitIrq(c, env).left == c.left
  {
    if c.fired {
      var c1 := Irqs(c.(fired := false), env.irqs(1));
      IrqsQuiet(c.(fired := false), env.irqs(1));
      JudgeMoves(c1, c1.last, env);
    } else if c.batch == 0 {
      PutLateTakes(c, env.irqs(3), AltIn(env.st1), env.irqs(1));
      JudgeMoves(PutLate(c, env.irqs(3), AltIn(env.st1), env.irqs(1)), env.st1, env);
    }
  }

  // The blocks left after one more call, when none is owed.
  lemma ApplyMovesNone(s: Sys, i: Input, q: Request)
    requires SysInv(s) && Legal(i) && Sane(s.ctx) && Apply(s, i).phase == Serving(q) && IoInv(Apply(s, i).ctx, q)
    requires s.phase.Serving? ==> s.ctx.left == q.count && Owed(s.ctx) == 0
    ensures Apply(s, i).ctx.left == q.count
  {
    match i {
      case TickIn(env) => TickMovesNone(s.ctx, env, q);
      case BeginIoIn(q', at) =>
        if s.phase.Unused? {
          BeginQuiet(s.ctx.(op := q.op, step := IoIssueSelect, lba := q.lba, left := q.count, batch := 0,
                            ptr := q.ptr, delay := 0), at);
        }
      case _ =>
    }
  }

  lemma SilentSends(c: Ctx, q: Request)
    requires IoInv(c, q) && c.left == q.count
    ensures !Sends(c.trace)
  {
    InvActs(c, q);
    if Sends(c.trace) { SendsShow(c.trace); }
  }

  lemma ApplyExtends(s: Sys, i: Input)
    requires SysInv(s) && Legal(i) && Sane(s.ctx)
    ensures s.ctx.trace <= Apply(s, i).ctx.trace
  {
    match i {
      case BeginInitIn(op, at) => BeginGrows(s.ctx.(op := op, step := InitSelect, delay := 0), at);
      case BeginIoIn(q, at) =>
        BeginGrows(s.ctx.(op := q.op, step := IoIssueSelect, lba := q.lba, left := q.count, batch := 0,
                          ptr := q.ptr, delay := 0), at);
      case TickIn(env) => TickGrows(s.ctx, env);
      case IrqIn(st) =>
    }
  }

  lemma BeginGrows(c: Ctx, at: Landing)
    ensures c.trace <= ResetFlags(Irqs(c, at.before), at.between).trace
  {
    IrqsGrow(c, at.before);
    IrqsGrow(Irqs(c, at.before).(fired := false), at.between);
  }

  // Against a device that interrupts only once a block is sent, no interrupt-driven write ever
  // sends one: the driver waits for the interrupt first.
  lemma {:induction false} WriteNeverMoves(inputs: seq<Input>, q: Request)
    requires AllLegal(inputs) && Play(inputs).phase == Serving(q) && AfterBlocksOnly(Play(inputs).ctx.trace)
    ensures Play(inputs).ctx.left == q.count && IrqCount(Play(inputs).ctx.trace) == 0
    ensures IsIo(q.op) && (Acts(Play(inputs)) == [] || Acts(Play(inputs)) == [CmdOf(q, GAP, 0)])
    ensures !Play(inputs).ctx.step.IoDone?
  {
    var init, i := inputs[..|inputs| - 1], inputs[|inputs| - 1];
    var s, s' := Play(init), Play(inputs);
    ApplyKeeps(s, i);
    assert s' == Apply(s, i);
    if s.phase.Serving? {
      ApplyExtends(s, i);
      AfterBlocksPrefix(s.ctx.trace, s'.ctx.trace);
      WriteNeverMoves(init, q);
      OneInterruptABlock(init, q);
    }
    ApplyMovesNone(s, i, q);
    SilentSends(s'.ctx, q);
    NothingSentNoIrq(s'.ctx.trace);
    NoInterruptNoBlock(inputs, q);
  }
}
