/** The interrupt-driven driver against a device that is honest and never shows DRQ with BSY:
    reads arrive. */
module AtaIrqReads {
  import opened Words
  import opened AtaStatus
  import opened AtaWire
  import opened AtaWorld
  import opened AtaIrq
  import opened AtaIrqRuns
  import opened AtaIrqTheorems
  import D = AtaDevice
  import AtaPoll

  ghost predicate CandidTrace(w0: D.World, trace: seq<Event>, chs: nat -> D.Choice) { Shows(Candid, w0, trace, chs) }

  // ---- Traces only grow ----

  lemma {:induction false} IrqsGrow(c: Ctx, sts: seq<u8>)
    ensures c.trace <= Irqs(c, sts).trace
    decreases |sts|
  {
    if sts != [] { IrqsGrow(Irq(c, sts[0]), sts[1..]); }
  }

  lemma PutGrows(c: Ctx, e: Event, sts: seq<u8>)
    ensures c.trace + [e] <= Put(c, e, sts).trace
  {
    IrqsGrow(c.(trace := c.trace + [e]), sts);
  }

  lemma PutLateGrows(c: Ctx, before: seq<u8>, e: Event, after: seq<u8>)
    ensures c.trace <= PutLate(c, before, e, after).trace
  {
    IrqsGrow(c, before);
    PutGrows(Irqs(c, before), e, after);
  }

  // ---- What the driver has last been told ----

  // It is still candid about the device's phase now.
  ghost predicate LastOk(c: Ctx, w0: D.World, chs: nat -> D.Choice) {
    Candid(After(w0, c.trace, chs).dev.phase, c.last)
  }

  lemma IrqLastOk(c: Ctx, st: u8, w0: D.World, chs: nat -> D.Choice)
    requires CandidTrace(w0, Irq(c, st).trace, chs)
    ensures LastOk(Irq(c, st), w0, chs)
  {
    var t, t' := c.trace + [IrqStatusIn(st)], Irq(c, st).trace;
    assert t <= t';
    ShowsPrefix(Candid, w0, t, t', chs);
    ShowsLast(Candid, w0, c.trace, IrqStatusIn(st), chs);
    IrqQuiet(c, st);
    DecodeOne(c.trace, IrqStatusIn(st));
    SameActs(w0, t, t', chs);
    CandidLater(After(w0, t, chs).dev, After(w0, t', chs).dev, st);
  }

  lemma {:induction false} IrqsLastOk(c: Ctx, sts: seq<u8>, w0: D.World, chs: nat -> D.Choice)
    requires LastOk(c, w0, chs) && CandidTrace(w0, Irqs(c, sts).trace, chs)
    ensures LastOk(Irqs(c, sts), w0, chs)
    decreases |sts|
  {
    if sts != [] {
      var c1 := Irq(c, sts[0]);
      IrqsGrow(c1, sts[1..]);
      ShowsPrefix(Candid, w0, c1.trace, Irqs(c, sts).trace, chs);
      IrqLastOk(c, sts[0], w0, chs);
      IrqsLastOk(c1, sts[1..], w0, chs);
    }
  }

  // ---- The invariant of a read ----

  // The device has been told to fetch sector lba.
  predicate Coming(p: D.Phase, lba: nat) { p == D.Working(D.ToIn(lba)) || p == D.DataIn(lba) || p == D.Failed }

  predicate InFlight(c: Ctx) { (c.step.IoWaitIrq? || c.step.IoXferBlock?) && c.batch == 1 }

  // The world in a state of a read.
  ghost predicate WorldOk(c: Ctx, q: Request, w0: D.World, w: D.World)
    requires c.left <= q.count && q.ptr + 256 * q.count <= |w0.mem|
  {
    var done: nat := q.count - c.left;
    && w.dev.disk == w0.dev.disk && w.mem == D.CopyIn(w0.dev.disk, w0.mem, q, done)
    && !D.Storing(w.dev.phase)
    && (c.batch == 0 && !c.step.IoFail? ==> !D.Busy(w.dev.phase))
    && (InFlight(c) ==> Coming(w.dev.phase, D.LbaOf(q, done)))
    && (InFlight(c) && c.step.IoXferBlock? ==> w.dev.phase.DataIn?)
    && (InFlight(c) && c.step.IoWaitIrq? ==> Candid(w.dev.phase, c.last))
  }

  ghost predicate ReadInv(c: Ctx, q: Request, w0: D.World, chs: nat -> D.Choice) {
    && IoInv(c, q) && IsRead(q.op) && q.ptr + 256 * q.count <= |w0.mem|
    && WorldOk(c, q, w0, After(w0, c.trace, chs))
  }

  // Time passes, and the driver goes on to a step that the device's phase allows.
  lemma WaitedReads(c: Ctx, c': Ctx, q: Request, w0: D.World, chs: nat -> D.Choice)
    requires ReadInv(c, q, w0, chs) && IoInv(c', q) && c'.left == c.left && c'.batch == c.batch
    requires Waited(After(w0, c.trace, chs), After(w0, c'.trace, chs))
    requires c.step.IoFail? ==> c'.step.IoFail?
    requires InFlight(c') ==> InFlight(c)
    requires InFlight(c') && c'.step.IoXferBlock? ==>
      c.step.IoXferBlock? || D.Offering(After(w0, c'.trace, chs).dev.phase)
    requires InFlight(c') && c'.step.IoWaitIrq? ==> LastOk(c', w0, chs)
    ensures ReadInv(c', q, w0, chs)
  {
    WaitedWorld(c, c', q, w0, After(w0, c.trace, chs), After(w0, c'.trace, chs));
  }

  lemma WaitedWorld(c: Ctx, c': Ctx, q: Request, w0: D.World, w: D.World, w': D.World)
    requires c'.left == c.left <= q.count && c'.batch == c.batch && q.ptr + 256 * q.count <= |w0.mem|
    requires WorldOk(c, q, w0, w) && Waited(w, w')
    requires c.step.IoFail? ==> c'.step.IoFail?
    requires InFlight(c') ==> InFlight(c)
    requires InFlight(c') && c'.step.IoXferBlock? ==> c.step.IoXferBlock? || D.Offering(w'.dev.phase)
    requires InFlight(c') && c'.step.IoWaitIrq? ==> Candid(w'.dev.phase, c'.last)
    ensures WorldOk(c', q, w0, w')
  {
  }

  // A device that is not busy takes a block's command and is on its way to the sector.
  lemma CommandAccepted(w: D.World, w': D.World, q: Request, done: nat)
    requires IsIo(q.op) && IsRead(q.op) && !D.Busy(w.dev.phase) && Waited(D.OnAct(w, CmdOf(q, GAP, done)), w')
    ensures w'.dev.disk == w.dev.disk && w'.mem == w.mem && Coming(w'.dev.phase, D.LbaOf(q, done))
  {
    assert D.OnAct(w, CmdOf(q, GAP, done)).dev.phase == D.Working(D.ToIn(D.LbaOf(q, done)));
  }

  lemma TaskfileReads(c: Ctx, env: Env, q: Request, w0: D.World, chs: nat -> D.Choice)
    requires ReadInv(c, q, w0, chs) && c.step.IoIssueTaskfile? && c.delay == 0
    ensures ReadInv(IssueTaskfile(c, env), q, w0, chs)
  {
    TaskfileIssued(c, env, q);
    CommandReads(c, IssueTaskfile(c, env), q, w0, chs);
  }

  // What the task file leaves behind.
  ghost predicate TookCommand(c: Ctx, c': Ctx, q: Request)
    requires IsIo(q.op)
  {
    && c'.left == c.left && c'.left <= q.count && c'.step.IoWaitIrq? && c'.batch == 1 && c'.last == 0
    && c.trace <= c'.trace && Decode(c'.trace).acts == Decode(c.trace).acts + [CmdOf(q, GAP, q.count - c.left)]
  }

  lemma TaskfileIssued(c: Ctx, env: Env, q: Request)
    requires IoInv(c, q) && c.step.IoIssueTaskfile? && c.delay == 0
    ensures IoInv(IssueTaskfile(c, env), q) && TookCommand(c, IssueTaskfile(c, env), q)
  {
    TaskfileKeeps(c, env, q);
    TaskfileGetsAhead(c, env);
    TaskfileGrows(c, env);
    TaskfileActs(c, IssueTaskfile(c, env), q);
    FlagsAfterCommand(c, env);
  }

  lemma CommandReads(c: Ctx, c': Ctx, q: Request, w0: D.World, chs: nat -> D.Choice)
    requires ReadInv(c, q, w0, chs) && c.step.IoIssueTaskfile? && IoInv(c', q) && TookCommand(c, c', q)
    ensures ReadInv(c', q, w0, chs)
  {
    RestsBetween(c, q, w0, chs);
    CommandComes(c, c', q, w0, chs);
    AcceptedWorld(c, c', q, w0, After(w0, c.trace, chs), After(w0, c'.trace, chs));
  }

  lemma CommandComes(c: Ctx, c': Ctx, q: Request, w0: D.World, chs: nat -> D.Choice)
    requires IsIo(q.op) && IsRead(q.op) && TookCommand(c, c', q) && !D.Busy(After(w0, c.trace, chs).dev.phase)
    ensures var w, w' := After(w0, c.trace, chs), After(w0, c'.trace, chs);
      w'.dev.disk == w.dev.disk && w'.mem == w.mem && Coming(w'.dev.phase, D.LbaOf(q, q.count - c.left))
  {
    CommandArrives(w0, c.trace, c'.trace, q, q.count - c.left, chs);
  }

  lemma CommandArrives(w0: D.World, t: seq<Event>, t': seq<Event>, q: Request, done: nat, chs: nat -> D.Choice)
    requires IsIo(q.op) && IsRead(q.op) && t <= t' && Decode(t').acts == Decode(t).acts + [CmdOf(q, GAP, done)]
    requires !D.Busy(After(w0, t, chs).dev.phase)
    ensures var w, w' := After(w0, t, chs), After(w0, t', chs);
      w'.dev.disk == w.dev.disk && w'.mem == w.mem && Coming(w'.dev.phase, D.LbaOf(q, done))
  {
    OneAct(w0, t, t', CmdOf(q, GAP, done), chs);
    CommandAccepted(After(w0, t, chs), After(w0, t', chs), q, done);
  }

  lemma TaskfileActs(c: Ctx, c': Ctx, q: Request)
    requires IoInv(c, q) && c.step.IoIssueTaskfile? && IoInv(c', q) && c'.step.IoWaitIrq? && c'.batch == 1
    requires c'.left == c.left
    ensures Decode(c'.trace).acts == Decode(c.trace).acts + [CmdOf(q, GAP, q.count - c.left)]
  {
  }

  lemma AcceptedWorld(c: Ctx, c': Ctx, q: Request, w0: D.World, w: D.World, w': D.World)
    requires c'.left == c.left <= q.count && q.ptr + 256 * q.count <= |w0.mem|
    requires WorldOk(c, q, w0, w) && c'.step.IoWaitIrq? && c'.batch == 1 && c'.last == 0
    requires w'.dev.disk == w.dev.disk && w'.mem == w.mem && Coming(w'.dev.phase, D.LbaOf(q, q.count - c.left))
    ensures WorldOk(c', q, w0, w')
  {
  }

  lemma JudgeReads(c: Ctx, st: u8, env: Env, q: Request, w0: D.World, chs: nat -> D.Choice)
    requires ReadInv(c, q, w0, chs) && c.step.IoWaitIrq?
    requires c.batch == 1 ==> Candid(After(w0, c.trace, chs).dev.phase, st)
    requires CandidTrace(w0, Judge(c, st, env).trace, chs)
    ensures ReadInv(Judge(c, st, env), q, w0, chs)
  {
    JudgeKeeps(c, st, env, q);
    var c' := Judge(c, st, env);
    if Bad(st) {
      assert c' == FinishIo(c, false);
      WaitedReads(c, c', q, w0, chs);
    } else if Drq(st) {
      assert c' == c.(step := IoXferBlock);
      WaitedReads(c, c', q, w0, chs);
    } else if c.batch == 0 {
      assert c' == if c.left == 0 then FinishIo(c, true) else c.(step := IoIssueSelect);
      WaitedReads(c, c', q, w0, chs);
    } else {
      assert c'.trace == PutLate(c, env.irqs(4), AltIn(env.st2), env.irqs(2)).trace;
      SecondLook(c, env, q, w0, chs);
    }
  }

  // The alternate status read after an interrupt that brought no DRQ.
  lemma SecondLook(c: Ctx, env: Env, q: Request, w0: D.World, chs: nat -> D.Choice)
    requires ReadInv(c, q, w0, chs) && c.step.IoWaitIrq? && c.batch == 1
    requires CandidTrace(w0, PutLate(c, env.irqs(4), AltIn(env.st2), env.irqs(2)).trace, chs)
    ensures var c2 := PutLate(c, env.irqs(4), AltIn(env.st2), env.irqs(2));
      && ReadInv(c2, q, w0, chs) && ReadInv(FinishIo(c2, false), q, w0, chs)
      && (!Bad(env.st2) && Drq(env.st2) ==> ReadInv(c2.(step := IoXferBlock), q, w0, chs))
  {
    var c2 := PutLate(c, env.irqs(4), AltIn(env.st2), env.irqs(2));
    JudgeAgain(c, env, q);
    PutLateTakes(c, env.irqs(4), AltIn(env.st2), env.irqs(2));
    PutLateGrows(c, env.irqs(4), AltIn(env.st2), env.irqs(2));
    LookSees(c, env.irqs(4), env.st2, env.irqs(2), w0, chs);
    SameActs(w0, c.trace, c2.trace, chs);
    WaitedReads(c, c2, q, w0, chs);
    WaitedReads(c, FinishIo(c2, false), q, w0, chs);
    if !Bad(env.st2) && Drq(env.st2) { WaitedReads(c, c2.(step := IoXferBlock), q, w0, chs); }
  }

  // What an alternate status read among interrupts tells.
  lemma LookSees(c: Ctx, before: seq<u8>, st: u8, after: seq<u8>, w0: D.World, chs: nat -> D.Choice)
    requires LastOk(c, w0, chs) && CandidTrace(w0, PutLate(c, before, AltIn(st), after).trace, chs)
    ensures var c2 := PutLate(c, before, AltIn(st), after);
      LastOk(c2, w0, chs) && Candid(After(w0, c2.trace, chs).dev.phase, st)
  {
    var c0, c2 := Irqs(c, before), PutLate(c, before, AltIn(st), after);
    var t := c0.trace + [AltIn(st)];
    PutGrows(c0, AltIn(st), after);
    ShowsPrefix(Candid, w0, t, c2.trace, chs);
    ShowsPrefix(Candid, w0, c0.trace, t, chs);
    ShowsLast(Candid, w0, c0.trace, AltIn(st), chs);
    IrqsLastOk(c, before, w0, chs);
    AltLastOk(c0, st, after, w0, chs);
    DecodeOne(c0.trace, AltIn(st));
    IrqsQuiet(c0.(trace := t), after);
    SameActs(w0, t, c2.trace, chs);
    CandidLater(After(w0, t, chs).dev, After(w0, c2.trace, chs).dev, st);
  }

  lemma AltLastOk(c: Ctx, st: u8, sts: seq<u8>, w0: D.World, chs: nat -> D.Choice)
    requires LastOk(c, w0, chs) && CandidTrace(w0, Put(c, AltIn(st), sts).trace, chs)
    ensures LastOk(Put(c, AltIn(st), sts), w0, chs)
  {
    var c1 := c.(trace := c.trace + [AltIn(st)]);
    DecodeOne(c.trace, AltIn(st));
    SameActs(w0, c.trace, c1.trace, chs);
    CandidLater(After(w0, c.trace, chs).dev, After(w0, c1.trace, chs).dev, c.last);
    IrqsLastOk(c1, sts, w0, chs);
  }

  // After irq_fired has been taken, with interrupts landing at once.
  lemma TakenReads(c: Ctx, sts: seq<u8>, q: Request, w0: D.World, chs: nat -> D.Choice)
    requires ReadInv(c, q, w0, chs) && c.step.IoWaitIrq? && CandidTrace(w0, Irqs(c.(fired := false), sts).trace, chs)
    ensures var c1 := Irqs(c.(fired := false), sts);
      ReadInv(c1, q, w0, chs) && c1.step.IoWaitIrq? && c1.batch == c.batch && (c1.batch == 1 ==> LastOk(c1, w0, chs))
  {
    var c0 := c.(fired := false);
    var c1 := Irqs(c0, sts);
    IrqsQuiet(c0, sts);
    IrqsGrow(c0, sts);
    QuietKeeps(c, c1, q);
    SameActs(w0, c.trace, c1.trace, chs);
    if c.batch == 1 { IrqsLastOk(c0, sts, w0, chs); }
    WaitedReads(c, c1, q, w0, chs);
  }

  lemma WaitReads(c: Ctx, env: Env, q: Request, w0: D.World, chs: nat -> D.Choice)
    requires ReadInv(c, q, w0, chs) && c.step.IoWaitIrq? && CandidTrace(w0, WaitIrq(c, env).trace, chs)
    ensures ReadInv(WaitIrq(c, env), q, w0, chs)
  {
    if c.fired {
      var c1 := Irqs(c.(fired := false), env.irqs(1));
      JudgeGrows(c1, c1.last, env);
      ShowsPrefix(Candid, w0, c1.trace, Judge(c1, c1.last, env).trace, chs);
      TakenReads(c, env.irqs(1), q, w0, chs);
      JudgeReads(c1, c1.last, env, q, w0, chs);
    } else if c.batch == 0 {
      var c1 := PutLate(c, env.irqs(3), AltIn(env.st1), env.irqs(1));
      LookedReads(c, env, q, w0, chs);
      JudgeReads(c1, env.st1, env, q, w0, chs);
    }
  }

  // The alternate status read after a block.
  lemma LookedReads(c: Ctx, env: Env, q: Request, w0: D.World, chs: nat -> D.Choice)
    requires ReadInv(c, q, w0, chs) && c.step.IoWaitIrq? && c.batch == 0
    ensures var c1 := PutLate(c, env.irqs(3), AltIn(env.st1), env.irqs(1));
      ReadInv(c1, q, w0, chs) && c1.step.IoWaitIrq? && c1.batch == 0
  {
    var c1 := PutLate(c, env.irqs(3), AltIn(env.st1), env.irqs(1));
    PutLateTakes(c, env.irqs(3), AltIn(env.st1), env.irqs(1));
    PutLateGrows(c, env.irqs(3), AltIn(env.st1), env.irqs(1));
    LookKeeps(c, c1, q, env.st1);
    LookedOn(c, c1, q, w0, chs);
  }

  lemma LookedOn(c: Ctx, c1: Ctx, q: Request, w0: D.World, chs: nat -> D.Choice)
    requires ReadInv(c, q, w0, chs) && c.step.IoWaitIrq? && c.batch == 0 && IoInv(c1, q) && c1.step.IoWaitIrq?
    requires c1.left == c.left && c1.batch == 0 && c.trace <= c1.trace && Decode(c1.trace).acts == Decode(c.trace).acts
    ensures ReadInv(c1, q, w0, chs)
  {
    SameActs(w0, c.trace, c1.trace, chs);
    WaitedReads(c, c1, q, w0, chs);
  }

  lemma JudgeGrows(c: Ctx, st: u8, env: Env)
    ensures c.trace <= Judge(c, st, env).trace
  {
    PutLateGrows(c, env.irqs(4), AltIn(env.st2), env.irqs(2));
  }

  lemma XferReads(c: Ctx, env: Env, q: Request, w0: D.World, chs: nat -> D.Choice)
    requires ReadInv(c, q, w0, chs) && c.step.IoXferBlock?
    ensures ReadInv(XferBlock(c, env), q, w0, chs)
  {
    XferKeeps(c, env, q);
    if c.batch == 1 {
      BlockFits(q.ptr, q.count - c.left, q.count, |w0.mem|);
      XferMoves(c, env, w0, chs);
      var c' := XferBlock(c, env);
      BlockWorld(c, c', q, w0, After(w0, c.trace, chs), After(w0, c'.trace, chs));
    } else {
      WaitedReads(c, XferBlock(c, env), q, w0, chs);
    }
  }

  lemma XferMoves(c: Ctx, env: Env, w0: D.World, chs: nat -> D.Choice)
    requires c.batch == 1 && c.left > 0 && IsRead(c.op) && !D.Busy(After(w0, c.trace, chs).dev.phase)
    ensures var c' := XferBlock(c, env);
      && c'.left == c.left - 1 && c'.batch == 0 && c'.step.IoWaitIrq?
      && Waited(D.OnAct(After(w0, c.trace, chs), MoveIn(c.ptr, 256)), After(w0, c'.trace, chs))
  {
    PutTakes(c, InWords(c.ptr, 256), env.irqs(1));
    PutGrows(c, InWords(c.ptr, 256), env.irqs(1));
    OneAct(w0, c.trace, XferBlock(c, env).trace, MoveIn(c.ptr, 256), chs);
  }

  lemma BlockWorld(c: Ctx, c': Ctx, q: Request, w0: D.World, w: D.World, w': D.World)
    requires 0 < c.left <= q.count && q.ptr + 256 * q.count <= |w0.mem| && c.ptr == q.ptr + 256 * (q.count - c.left)
    requires WorldOk(c, q, w0, w) && c.step.IoXferBlock? && c.batch == 1
    requires c'.left == c.left - 1 && c'.batch == 0 && c'.step.IoWaitIrq? && c.ptr + 256 <= |w0.mem|
    requires Waited(D.OnAct(w, MoveIn(c.ptr, 256)), w')
    ensures WorldOk(c', q, w0, w')
  {
  }

  lemma BlockFits(ptr: nat, i: nat, n: nat, size: nat)
    requires i < n && ptr + 256 * n <= size
    ensures ptr + 256 * i + 256 <= size
  {
  }

  lemma TickReads(c: Ctx, env: Env, q: Request, w0: D.World, chs: nat -> D.Choice)
    requires ReadInv(c, q, w0, chs) && Sane(c) && CandidTrace(w0, Tick(c, env).trace, chs)
    ensures ReadInv(Tick(c, env), q, w0, chs)
  {
    if c.delay == 0 {
      DispatchReads(c, env, q, w0, chs);
    } else {
      var c1 := DelayTick(c, env);
      DelayReads(c, env, q, w0, chs);
      if c1.delay == 0 { DispatchReads(c1, env, q, w0, chs); }
    }
  }

  lemma DelayReads(c: Ctx, env: Env, q: Request, w0: D.World, chs: nat -> D.Choice)
    requires ReadInv(c, q, w0, chs) && c.delay != 0
    ensures ReadInv(DelayTick(c, env), q, w0, chs) && Sane(DelayTick(c, env))
  {
    DelayKeeps(c, env, q);
    PutTakes(c, AltIn(env.delaySt), env.irqs(0));
    PutGrows(c, AltIn(env.delaySt), env.irqs(0));
    SameActs(w0, c.trace, DelayTick(c, env).trace, chs);
    WaitedReads(c, DelayTick(c, env), q, w0, chs);
  }

  lemma SelectReads(c: Ctx, env: Env, q: Request, w0: D.World, chs: nat -> D.Choice)
    requires ReadInv(c, q, w0, chs) && c.step.IoIssueSelect?
    ensures ReadInv(IssueSelect(c, env), q, w0, chs)
  {
    SelectKeeps(c, env, q);
    DriveByteIs(c.lba % 0x1_0000_0000);
    var c' := IssueSelect(c, env);
    PutTakes(c, Out(REG_DRIVE_SEL, SelectByte(c)), env.irqs(1));
    PutGrows(c, Out(REG_DRIVE_SEL, SelectByte(c)), env.irqs(1));
    assert c'.left == c.left && c'.batch == c.batch && Decode(c'.trace).acts == Decode(c.trace).acts;
    SameActs(w0, c.trace, c'.trace, chs);
    WaitedReads(c, c', q, w0, chs);
  }

  lemma DispatchReads(c: Ctx, env: Env, q: Request, w0: D.World, chs: nat -> D.Choice)
    requires ReadInv(c, q, w0, chs) && Sane(c) && c.delay == 0 && CandidTrace(w0, Dispatch(c, env).trace, chs)
    ensures ReadInv(Dispatch(c, env), q, w0, chs)
  {
    match c.step {
      case IoIssueSelect => SelectReads(c, env, q, w0, chs);
      case IoIssueTaskfile => TaskfileReads(c, env, q, w0, chs);
      case IoWaitIrq => WaitReads(c, env, q, w0, chs);
      case IoXferBlock => XferReads(c, env, q, w0, chs);
      case _ =>
    }
  }

  lemma {:induction false} PutAllGrows(c: Ctx, es: seq<Event>, k: nat, irqs: nat -> seq<u8>)
    ensures c.trace <= PutAll(c, es, k, irqs).trace
    decreases |es|
  {
    if es != [] {
      PutGrows(c, es[0], irqs(k));
      PutAllGrows(Put(c, es[0], irqs(k)), es[1..], k + 1, irqs);
    }
  }

  lemma TickGrows(c: Ctx, env: Env)
    requires Sane(c)
    ensures c.trace <= Tick(c, env).trace
  {
    var c1 := if c.delay == 0 then c else DelayTick(c, env);
    if c.delay != 0 {
      IrqsQuiet(c.(trace := c.trace + [AltIn(env.delaySt)]), env.irqs(0));
      PutGrows(c, AltIn(env.delaySt), env.irqs(0));
    }
    if c1.delay == 0 { DispatchGrows(c1, env); }
  }

  lemma DispatchGrows(c: Ctx, env: Env)
    requires Sane(c)
    ensures c.trace <= Dispatch(c, env).trace
  {
    if IsInit(c.op) {
      match c.step {
        case InitSelect => PutAllGrows(c, [Out(REG_CONTROL, 0), Out(REG_DRIVE_SEL, DH_LBA_MASTER)], 1, env.irqs);
        case InitIdentifyCmd =>
          PutAllGrows(c, IDENTIFY_EVENTS, 1, env.irqs);
          IrqsGrow(PutAll(c, IDENTIFY_EVENTS, 1, env.irqs).(fired := false), env.irqs(20));
        case InitIdentifyWait =>
          var c1 := Irqs(c.(fired := false), env.irqs(1));
          IrqsGrow(c.(fired := false), env.irqs(1));
          PutLateGrows(c1, env.irqs(4), AltIn(env.st2), env.irqs(2));
        case InitIdentifyXfer => PutGrows(c, InIdentify(256), env.irqs(1));
        case _ =>
      }
    } else {
      match c.step {
        case IoIssueSelect =>
          DriveByteIs(c.lba % 0x1_0000_0000);
          PutGrows(c, Out(REG_DRIVE_SEL, SelectByte(c)), env.irqs(1));
        case IoIssueTaskfile => TaskfileGrows(c, env);
        case IoWaitIrq => WaitGrows(c, env);
        case IoXferBlock =>
          var n := if c.batch < 1 then c.batch else 1;
          PutGrows(c, if IsRead(c.op) then InWords(c.ptr, n * 256) else OutWords(c.ptr, n * 256), env.irqs(1));
        case _ =>
      }
    }
  }

  lemma TaskfileGrows(c: Ctx, env: Env)
    requires IsIo(c.op)
    ensures c.trace <= IssueTaskfile(c, env).trace
  {
    var es, c0 := Taskfile(c.op, TaskfileLba(c)), c.(batch := 1);
    PutAllGrows(c0, es, 1, env.irqs);
    IrqsGrow(PutAll(c0, es, 1, env.irqs).(fired := false), env.irqs(20));
  }

  lemma WaitGrows(c: Ctx, env: Env)
    ensures c.trace <= WaitIrq(c, env).trace
  {
    if c.fired {
      var c1 := Irqs(c.(fired := false), env.irqs(1));
      IrqsGrow(c.(fired := false), env.irqs(1));
      JudgeGrows(c1, c1.last, env);
    } else if c.batch == 0 {
      var c1 := PutLate(c, env.irqs(3), AltIn(env.st1), env.irqs(1));
      PutLateGrows(c, env.irqs(3), AltIn(env.st1), env.irqs(1));
      JudgeGrows(c1, env.st1, env);
    }
  }

  // ---- The theorem ----

  lemma {:induction false} RunReads(inputs: seq<Input>, q: Request, w0: D.World, chs: nat -> D.Choice)
    requires AllLegal(inputs) && Play(inputs).phase == Serving(q) && IsRead(q.op)
    requires q.ptr + 256 * q.count <= |w0.mem| && !D.Busy(w0.dev.phase)
    requires CandidTrace(w0, Play(inputs).ctx.trace, chs)
    ensures ReadInv(Play(inputs).ctx, q, w0, chs)
  {
    var init, i := inputs[..|inputs| - 1], inputs[|inputs| - 1];
    var s, s' := Play(init), Play(inputs);
    ApplyKeeps(s, i);
    assert s' == Apply(s, i);
    if s.phase.Serving? {
      ApplyGrows(s, i);
      ShowsPrefix(Candid, w0, s.ctx.trace, s'.ctx.trace, chs);
      RunReads(init, q, w0, chs);
      ApplyReads(s, i, q, w0, chs);
    } else {
      BeginReads(s, i, q, w0, chs);
    }
  }

  lemma ApplyGrows(s: Sys, i: Input)
    requires SysInv(s) && Legal(i) && s.phase.Serving?
    ensures Sane(s.ctx) && s.ctx.trace <= Apply(s, i).ctx.trace
  {
    ApplyKeeps(s, i);
    if i.TickIn? { TickGrows(s.ctx, i.env); }
  }

  lemma ApplyReads(s: Sys, i: Input, q: Request, w0: D.World, chs: nat -> D.Choice)
    requires SysInv(s) && Legal(i) && s.phase == Serving(q) && ReadInv(s.ctx, q, w0, chs) && Sane(s.ctx)
    requires CandidTrace(w0, Apply(s, i).ctx.trace, chs)
    ensures ReadInv(Apply(s, i).ctx, q, w0, chs)
  {
    match i {
      case TickIn(env) => TickReads(s.ctx, env, q, w0, chs);
      case IrqIn(st) => IrqReads(s.ctx, st, q, w0, chs);
      case _ =>
    }
  }

  // The request has just begun.
  lemma BeginReads(s: Sys, i: Input, q: Request, w0: D.World, chs: nat -> D.Choice)
    requires SysInv(s) && Legal(i) && !s.phase.Serving? && Sane(s.ctx) && Apply(s, i).phase == Serving(q)
    requires IsRead(q.op) && q.ptr + 256 * q.count <= |w0.mem| && IoInv(Apply(s, i).ctx, q) && !D.Busy(w0.dev.phase)
    ensures ReadInv(Apply(s, i).ctx, q, w0, chs)
  {
    assert i.BeginIoIn? && s.phase.Unused? && Apply(s, i) == Sys(BeginIo(s.ctx, q, i.at), Serving(q), s.begun + 1);
    BegunReads(s.ctx, q, i.at, w0, chs);
  }

  lemma BegunReads(c: Ctx, q: Request, at: Landing, w0: D.World, chs: nat -> D.Choice)
    requires c.step.Idle? && Decode(c.trace) == RESET && Fits(q) && IsRead(q.op)
    requires q.ptr + 256 * q.count <= |w0.mem| && IoInv(BeginIo(c, q, at), q) && !D.Busy(w0.dev.phase)
    ensures ReadInv(BeginIo(c, q, at), q, w0, chs)
  {
    BeginQuiet(c.(op := q.op, step := IoIssueSelect, lba := q.lba, left := q.count, batch := 0,
                  ptr := q.ptr, delay := 0), at);
    SameActs(w0, [], BeginIo(c, q, at).trace, chs);
  }

  lemma IrqReads(c: Ctx, st: u8, q: Request, w0: D.World, chs: nat -> D.Choice)
    requires ReadInv(c, q, w0, chs) && CandidTrace(w0, Irq(c, st).trace, chs)
    ensures ReadInv(Irq(c, st), q, w0, chs)
  {
    IrqQuiet(c, st);
    QuietKeeps(c, Irq(c, st), q);
    SameActs(w0, c.trace, Irq(c, st).trace, chs);
    IrqLastOk(c, st, w0, chs);
    WaitedReads(c, Irq(c, st), q, w0, chs);
  }

  // The first blocks have been copied into the buffer, all of them once the request is done;
  // neither the disk nor any other word has changed.
  ghost predicate Arrived(c: Ctx, q: Request, w0: D.World, chs: nat -> D.Choice) {
    && c.left <= q.count && q.ptr + 256 * q.count <= |w0.mem|
    && After(w0, c.trace, chs).dev.disk == w0.dev.disk
    && After(w0, c.trace, chs).mem == D.CopyIn(w0.dev.disk, w0.mem, q, q.count - c.left)
    && (c.step.IoDone? ==> c.left == 0)
  }

  // What the machine is like around a run that serves q: the buffer fits, the device is not
  // busy at first and honest throughout.
  ghost predicate Around(inputs: seq<Input>, q: Request, w0: D.World, chs: nat -> D.Choice) {
    && AllLegal(inputs) && Play(inputs).phase == Serving(q)
    && q.ptr + 256 * q.count <= |w0.mem| && !D.Busy(w0.dev.phase)
    && Shows(D.Honest, w0, Play(inputs).ctx.trace, chs)
  }

  // However interrupts, failures and busy times fall, a read from an honest device that never
  // shows DRQ with BSY has copied the first blocks, and once it is done exactly the sectors
  // asked for.
  lemma ReadsArrive(inputs: seq<Input>, q: Request, w0: D.World, chs: nat -> D.Choice)
    requires Around(inputs, q, w0, chs) && IsRead(q.op) && NoneConfusing(Play(inputs).ctx.trace)
    ensures Arrived(Play(inputs).ctx, q, w0, chs)
  {
    HonestIsCandidIff(w0, Play(inputs).ctx.trace, chs);
    RunReads(inputs, q, w0, chs);
    ReadInvMeans(Play(inputs).ctx, q, w0, chs);
  }

  // Such a read never meets a busy device: neither when it goes on to the next command, nor
  // when it is done.
  lemma ReadsMeetNoBusy(inputs: seq<Input>, q: Request, w0: D.World, chs: nat -> D.Choice)
    requires Around(inputs, q, w0, chs) && IsRead(q.op) && NoneConfusing(Play(inputs).ctx.trace)
    ensures var c := Play(inputs).ctx;
      c.step.IoIssueSelect? || c.step.IoIssueTaskfile? || c.step.IoDone? ==> !D.Busy(After(w0, c.trace, chs).dev.phase)
  {
    HonestIsCandidIff(w0, Play(inputs).ctx.trace, chs);
    RunReads(inputs, q, w0, chs);
    var c := Play(inputs).ctx;
    if c.step.IoIssueSelect? || c.step.IoIssueTaskfile? || c.step.IoDone? { RestsBetween(c, q, w0, chs); }
  }

  lemma RestsBetween(c: Ctx, q: Request, w0: D.World, chs: nat -> D.Choice)
    requires ReadInv(c, q, w0, chs) && (c.step.IoIssueSelect? || c.step.IoIssueTaskfile? || c.step.IoDone?)
    ensures !D.Busy(After(w0, c.trace, chs).dev.phase)
  {
  }

  lemma ReadInvMeans(c: Ctx, q: Request, w0: D.World, chs: nat -> D.Choice)
    requires ReadInv(c, q, w0, chs)
    ensures Arrived(c, q, w0, chs)
  {
  }

  // ---- The two drivers copy alike ----

  lemma {:induction false} CopyInSame(disk: D.Disk, mem: seq<u16>, q: Request, p: Request, n: nat)
    requires q.ptr == p.ptr && q.ptr + 256 * n <= |mem|
    requires forall i: nat | i < n :: D.LbaOf(q, i) == D.LbaOf(p, i)
    ensures D.CopyIn(disk, mem, q, n) == D.CopyIn(disk, mem, p, n)
  {
    if n > 0 { CopyInSame(disk, mem, q, p, n - 1); }
  }

  // Two requests for the same sectors and the same buffer.
  predicate SameSectors(q: Request, p: Request) {
    && p.lba == q.lba && p.count == q.count && p.ptr == q.ptr
    && (p.op == q.op || (q.lba + q.count <= Span(q.op) && q.lba + q.count <= Span(p.op)))
  }

  lemma LbaInRange(q: Request, i: nat)
    requires q.lba + i < Span(q.op)
    ensures D.LbaOf(q, i) == q.lba + i
  {
  }

  lemma SameLba(q: Request, p: Request, i: nat)
    requires SameSectors(q, p) && i < q.count
    ensures D.LbaOf(q, i) == D.LbaOf(p, i)
  {
    if p.op != q.op {
      LbaInRange(q, i);
      LbaInRange(p, i);
    }
  }

  // From one disk and one memory, a finished interrupt-driven read and a successful polling
  // read of the same sectors leave the same memory, even if one uses 28-bit and the other
  // 48-bit commands.
  lemma ReadsAgree(inputs: seq<Input>, q: Request, w0: D.World, chs: nat -> D.Choice, p: Request, polled: seq<u16>)
    requires Around(inputs, q, w0, chs) && IsRead(q.op) && NoneConfusing(Play(inputs).ctx.trace)
    requires Play(inputs).ctx.step.IoDone?
    requires SameSectors(q, p)
    requires AtaPoll.HasRead(p, p.count, w0.dev.disk, w0.mem, polled)
    ensures After(w0, Play(inputs).ctx.trace, chs).mem == polled
  {
    ReadsArrive(inputs, q, w0, chs);
    CopiesAgree(Play(inputs).ctx, q, w0, chs, p, polled);
  }

  lemma CopiesAgree(c: Ctx, q: Request, w0: D.World, chs: nat -> D.Choice, p: Request, polled: seq<u16>)
    requires Arrived(c, q, w0, chs) && c.step.IoDone? && SameSectors(q, p)
    requires AtaPoll.HasRead(p, p.count, w0.dev.disk, w0.mem, polled)
    ensures After(w0, c.trace, chs).mem == polled
  {
    forall i: nat | i < q.count ensures D.LbaOf(q, i) == D.LbaOf(p, i) { SameLba(q, p, i); }
    CopyInSame(w0.dev.disk, w0.mem, q, p, q.count);
  }
}
