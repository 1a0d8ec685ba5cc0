/** How requests and initialization end: exactly which statuses make a tick fail, finish or go
    on, and exactly which runs have failed. Status bits are given by number: bit 0 is ERR, bit 3
    DRQ, bit 5 DF; FFh is a floating bus. */
module AtaIrqOutcomes {
  import opened Words
  import opened AtaStatus
  import opened AtaWire
  import opened AtaWorld
  import opened AtaIrq
  import opened AtaIrqRuns
  import opened AtaIrqTheorems
  import opened AtaIrqReads
  import D = AtaDevice

  // ---- One tick ----

  // The status that a waiting tick judges first: that of the last interrupt, or alternate status.
  function Seen(c: Ctx, env: Env): u8 {
    if !c.fired then env.st1 else if env.irqs(1) == [] then c.last else env.irqs(1)[|env.irqs(1)| - 1]
  }

  lemma {:induction false} IrqsLast(c: Ctx, sts: seq<u8>)
    ensures Irqs(c, sts).last == if sts == [] then c.last else sts[|sts| - 1]
    decreases |sts|
  {
    if sts != [] { IrqsLast(Irq(c, sts[0]), sts[1..]); }
  }

  predicate Failing(st: u8) { st == 0xFF || st % 2 == 1 || st / 32 % 2 == 1 }

  // The tick judges a status at all.
  predicate Judges(c: Ctx) {
    (c.step.IoWaitIrq? && (c.fired || c.batch == 0)) || (c.step.InitIdentifyWait? && c.fired)
  }

  // It reads alternate status as well.
  predicate LooksAgain(c: Ctx, env: Env) {
    Judges(c) && !Failing(Seen(c, env)) && Seen(c, env) / 8 % 2 == 0 && (c.batch != 0 || c.step.InitIdentifyWait?)
  }

  predicate SeesFailure(c: Ctx, env: Env) {
    Judges(c) && (Failing(Seen(c, env)) || (LooksAgain(c, env) && Failing(env.st2)))
  }

  predicate SeesData(c: Ctx, env: Env) {
    && Judges(c) && !SeesFailure(c, env)
    && (Seen(c, env) / 8 % 2 == 1 || (LooksAgain(c, env) && env.st2 / 8 % 2 == 1))
  }

  // Where judging leads.
  lemma JudgeLeads(c: Ctx, st: u8, env: Env)
    requires c.step.IoWaitIrq?
    ensures var c', again := Judge(c, st, env), !Failing(st) && st / 8 % 2 == 0 && c.batch != 0;
      && c'.left == c.left && c'.batch == c.batch
      && (c'.step.IoFail? <==> Failing(st) || (again && Failing(env.st2)))
      && (c'.step.IoXferBlock? <==> !c'.step.IoFail? && (st / 8 % 2 == 1 || (again && env.st2 / 8 % 2 == 1)))
      && (c'.step.IoWaitIrq? <==> again && !c'.step.IoFail? && !c'.step.IoXferBlock?)
      && (c'.step.IoDone? <==> !Failing(st) && st / 8 % 2 == 0 && c.batch == 0 && c.left == 0)
      && (c'.op == if c'.step.IoFail? || c'.step.IoDone? then OpNone else c.op)
  {
    PutLateTakes(c, env.irqs(4), AltIn(env.st2), env.irqs(2));
  }

  // A waiting tick of a request: it fails, moves a block, is done or goes on to the next command
  // exactly on these statuses.
  lemma WaitLeads(c: Ctx, env: Env)
    requires IsIo(c.op) && c.step.IoWaitIrq? && c.delay == 0 && Sane(c)
    ensures var c' := Tick(c, env);
      && (c'.step.IoFail? <==> SeesFailure(c, env)) && (c'.step.IoXferBlock? <==> SeesData(c, env))
      && (c'.step.IoDone? <==> c.batch == 0 && c.left == 0 && !SeesFailure(c, env) && !SeesData(c, env))
      && (c'.step.IoIssueSelect? <==> c.batch == 0 && c.left > 0 && !SeesFailure(c, env) && !SeesData(c, env))
      && (c'.op == if c'.step.IoFail? || c'.step.IoDone? then OpNone else c.op) && !c'.step.InitFail?
  {
    if c.fired {
      var c0 := c.(fired := false);
      IrqsLast(c0, env.irqs(1));
      IrqsQuiet(c0, env.irqs(1));
      JudgeLeads(Irqs(c0, env.irqs(1)), Seen(c, env), env);
      JudgeMoves(Irqs(c0, env.irqs(1)), Seen(c, env), env);
    } else if c.batch == 0 {
      PutLateTakes(c, env.irqs(3), AltIn(env.st1), env.irqs(1));
      JudgeLeads(PutLate(c, env.irqs(3), AltIn(env.st1), env.irqs(1)), env.st1, env);
      JudgeMoves(PutLate(c, env.irqs(3), AltIn(env.st1), env.irqs(1)), env.st1, env);
    }
  }

  // An interrupt with a failure, and none in the tick: the request has failed.
  lemma FailureFails(c: Ctx, env: Env)
    requires IsIo(c.op) && c.step.IoWaitIrq? && c.delay == 0 && Sane(c) && c.fired && env.irqs(1) == []
    requires c.last == 0xFF || c.last % 2 == 1 || c.last / 32 % 2 == 1
    ensures Tick(c, env).step.IoFail? && Tick(c, env).op.OpNone?
  {
    WaitLeads(c, env);
  }

  // Exactly a waiting tick that sees a failure makes an active request, or initialization, fail.
  lemma TickFailsIff(s: Sys, env: Env)
    requires SysInv(s) && Sane(s.ctx) && !s.ctx.step.IoFail? && !s.ctx.step.InitFail?
    ensures var c' := Tick(s.ctx, env); c'.step.IoFail? || c'.step.InitFail? <==> SeesFailure(s.ctx, env)
  {
    var c := s.ctx;
    match s.phase
    case Unused =>
    case Initializing =>
      InitTickLeads(c, env);
      InitTickKeeps(c, env);
    case Serving(q) =>
      if c.step.IoWaitIrq? { WaitLeads(c, env); } else { OthersGoOn(c, env, q); }
  }

  // The other steps of a request neither fail nor finish it.
  lemma OthersGoOn(c: Ctx, env: Env, q: Request)
    requires IoInv(c, q) && Sane(c) && !c.step.IoWaitIrq?
    ensures Tick(c, env).step.IoFail? <==> c.step.IoFail?
    ensures Tick(c, env).step.IoDone? <==> c.step.IoDone?
    ensures !Tick(c, env).step.InitFail? && !Tick(c, env).step.InitDone?
  {
    TickKeeps(c, env, q);
    if ActiveIo(c.step) {
      if c.delay == 0 {
        if c.step.IoIssueTaskfile? { TaskfileGetsAhead(c, env); }
      } else {
        PutTakes(c, AltIn(env.delaySt), env.irqs(0));
        if c.delay == 1 { TaskfileGetsAhead(DelayTick(c, env), env); }
      }
    }
  }

  // ---- Initialization ----

  // Every tick of initialization: where it leads, and exactly on which statuses.
  lemma InitTickLeads(c: Ctx, env: Env)
    requires InitInv(c) && Sane(c)
    ensures var c' := Tick(c, env);
      && (c'.step.InitFail? <==> c.step.InitFail? || SeesFailure(c, env))
      && (c'.step.InitIdentifyXfer? <==> c.step.InitIdentifyWait? && SeesData(c, env))
      && (c'.step.InitDone? <==> c.step.InitDone? || c.step.InitIdentifyXfer?)
      && (c.step.InitIdentifyWait? && !c.fired ==> c' == c)
      && (c'.step.InitFail? || c'.step.InitDone? ==> c'.op.OpNone?)
  {
    InitTickKeeps(c, env);
    if c.delay != 0 { PutTakes(c, AltIn(env.delaySt), env.irqs(0)); }
    if c.step.InitIdentifyWait? { InitWaitLeads(c, env); }
  }

  lemma InitWaitLeads(c: Ctx, env: Env)
    requires c.step.InitIdentifyWait?
    ensures var c' := InitWaitTick(c, env);
      && (c'.step.InitFail? <==> SeesFailure(c, env)) && (c'.step.InitIdentifyXfer? <==> SeesData(c, env))
      && (c'.step.InitFail? || c'.step.InitIdentifyXfer? || c'.step.InitIdentifyWait?)
      && (!c.fired ==> c' == c)
  {
    if c.fired {
      var c0 := c.(fired := false);
      IrqsLast(c0, env.irqs(1));
      IrqsQuiet(c0, env.irqs(1));
      PutLateTakes(Irqs(c0, env.irqs(1)), env.irqs(4), AltIn(env.st2), env.irqs(2));
    }
  }

  lemma InitFailureFails(c: Ctx, env: Env)
    requires IsInit(c.op) && c.step.InitIdentifyWait? && c.delay == 0 && Sane(c) && c.fired && env.irqs(1) == []
    requires c.last == 0xFF || c.last % 2 == 1 || c.last / 32 % 2 == 1
    ensures Tick(c, env).step.InitFail? && Tick(c, env).op.OpNone?
  {
    InitWaitLeads(c, env);
  }

  // The flags of a new request, and of IDENTIFY: an interrupt is noted exactly when it comes
  // between the two clearing stores.
  lemma FlagsAfterBegin(c: Ctx, op: Op, q: Request, at: Landing)
    requires c.step == Idle && Fits(q)
    ensures var c' := BeginInit(c, op, at); (c'.fired <==> at.between != []) && c'.last == 0
    ensures var c' := BeginIo(c, q, at); (c'.fired <==> at.between != []) && c'.last == 0
  {
    var c1 := c.(op := op, step := InitSelect, delay := 0);
    var c2 := c.(op := q.op, step := IoIssueSelect, lba := q.lba, left := q.count, batch := 0, ptr := q.ptr,
                 delay := 0);
    IrqsFire(Irqs(c1, at.before).(fired := false), at.between);
    IrqsFire(Irqs(c2, at.before).(fired := false), at.between);
  }

  lemma FlagsAfterIdentify(c: Ctx, env: Env)
    ensures var c' := InitCmdTick(c, env); (c'.fired <==> env.irqs(20) != []) && c'.last == 0
  {
    IrqsFire(PutAll(c, IDENTIFY_EVENTS, 1, env.irqs).(fired := false), env.irqs(20));
  }

  // ---- Whole runs ----

  // Input k was a tick that saw a failure.
  ghost predicate FailedAt(inputs: seq<Input>, k: nat)
    requires AllLegal(inputs) && k < |inputs|
  {
    inputs[k].TickIn? && SeesFailure(Play(inputs[..k]).ctx, inputs[k].env)
  }

  ghost predicate FailureSeen(inputs: seq<Input>)
    requires AllLegal(inputs)
  {
    exists k: nat :: k < |inputs| && FailedAt(inputs, k)
  }

  // Input k was a tick that had nothing left to do and saw neither a failure nor DRQ.
  ghost predicate FinishedAt(inputs: seq<Input>, k: nat)
    requires AllLegal(inputs) && k < |inputs|
  {
    inputs[k].TickIn? && FinishesOn(Play(inputs[..k]).ctx, inputs[k].env)
  }

  predicate FinishesOn(c: Ctx, env: Env) {
    var st := Seen(c, env);
    c.step.IoWaitIrq? && c.left == 0 && st != 0xFF && st % 2 == 0 && st / 8 % 2 == 0 && st / 32 % 2 == 0
  }

  ghost predicate FinishSeen(inputs: seq<Input>)
    requires AllLegal(inputs)
  {
    exists k: nat :: k < |inputs| && FinishedAt(inputs, k)
  }

  predicate HasFailed(st: Step) { st.IoFail? || st.InitFail? }

  // A run has failed exactly when one of its ticks judged a failing status; so a request that is
  // done has met none.
  lemma {:induction false} FailedIff(inputs: seq<Input>)
    requires AllLegal(inputs)
    ensures HasFailed(Play(inputs).ctx.step) <==> FailureSeen(inputs)
  {
    if inputs != [] {
      var n := |inputs| - 1;
      FailedIff(inputs[..n]);
      LastFailure(inputs);
      PlayOne(inputs);
      FailsNow(Play(inputs[..n]), inputs[n]);
    }
  }

  lemma PlayOne(inputs: seq<Input>)
    requires AllLegal(inputs) && inputs != []
    ensures var s, i := Play(inputs[..|inputs| - 1]), inputs[|inputs| - 1];
      SysInv(s) && Legal(i) && Sane(s.ctx) && Play(inputs) == Apply(s, i)
  {
    ApplyKeeps(Play(inputs[..|inputs| - 1]), inputs[|inputs| - 1]);
  }

  lemma SamePast(inputs: seq<Input>, n: nat, k: nat)
    requires AllLegal(inputs) && k < n <= |inputs|
    ensures FailedAt(inputs[..n], k) <==> FailedAt(inputs, k)
    ensures FinishedAt(inputs[..n], k) <==> FinishedAt(inputs, k)
  {
    assert inputs[..n][..k] == inputs[..k];
  }

  lemma LastFailure(inputs: seq<Input>)
    requires AllLegal(inputs) && inputs != []
    ensures var n := |inputs| - 1; FailureSeen(inputs) <==> FailureSeen(inputs[..n]) || FailedAt(inputs, n)
  {
    var n := |inputs| - 1;
    var init := inputs[..n];
    forall k: nat | k < n ensures FailedAt(init, k) <==> FailedAt(inputs, k) { SamePast(inputs, n, k); }
    if FailureSeen(init) {
      var k: nat :| k < n && FailedAt(init, k);
      assert FailedAt(inputs, k);
    }
  }

  lemma FailsNow(s: Sys, i: Input)
    requires SysInv(s) && Legal(i) && Sane(s.ctx)
    ensures HasFailed(Apply(s, i).ctx.step) <==>
      HasFailed(s.ctx.step) || (i.TickIn? && SeesFailure(s.ctx, i.env))
  {
    match i
    case TickIn(env) => if !HasFailed(s.ctx.step) { TickFailsIff(s, env); }
    case BeginInitIn(op, at) => BeginQuiet(s.ctx.(op := op, step := InitSelect, delay := 0), at);
    case BeginIoIn(q, at) => BeginQuiet(s.ctx.(op := q.op, step := IoIssueSelect, lba := q.lba, left := q.count,
                                               batch := 0, ptr := q.ptr, delay := 0), at);
    case IrqIn(st) =>
  }

  // A request is done exactly when all blocks were moved and a status without failure or DRQ
  // was judged after that.
  lemma {:induction false} DoneIff(inputs: seq<Input>)
    requires AllLegal(inputs)
    ensures Play(inputs).ctx.step.IoDone? <==> FinishSeen(inputs)
  {
    if inputs != [] {
      var n := |inputs| - 1;
      DoneIff(inputs[..n]);
      LastFinish(inputs);
      PlayOne(inputs);
      DoneNow(Play(inputs[..n]), inputs[n]);
    }
  }

  lemma LastFinish(inputs: seq<Input>)
    requires AllLegal(inputs) && inputs != []
    ensures var n := |inputs| - 1; FinishSeen(inputs) <==> FinishSeen(inputs[..n]) || FinishedAt(inputs, n)
  {
    var n := |inputs| - 1;
    var init := inputs[..n];
    forall k: nat | k < n ensures FinishedAt(init, k) <==> FinishedAt(inputs, k) { SamePast(inputs, n, k); }
    if FinishSeen(init) {
      var k: nat :| k < n && FinishedAt(init, k);
      assert FinishedAt(inputs, k);
    }
  }

  lemma DoneNow(s: Sys, i: Input)
    requires SysInv(s) && Legal(i) && Sane(s.ctx)
    ensures Apply(s, i).ctx.step.IoDone? <==> s.ctx.step.IoDone? || (i.TickIn? && FinishesOn(s.ctx, i.env))
  {
    match i
    case TickIn(env) =>
      match s.phase {
        case Unused =>
        case Initializing => InitTickKeeps(s.ctx, env);
        case Serving(q) => if s.ctx.step.IoWaitIrq? { WaitLeads(s.ctx, env); } else { OthersGoOn(s.ctx, env, q); }
      }
    case BeginInitIn(op, at) => BeginQuiet(s.ctx.(op := op, step := InitSelect, delay := 0), at);
    case BeginIoIn(q, at) => BeginQuiet(s.ctx.(op := q.op, step := IoIssueSelect, lba := q.lba, left := q.count,
                                               batch := 0, ptr := q.ptr, delay := 0), at);
    case IrqIn(st) =>
  }

  // ---- A device that has failed ----

  // Whatever status an honest device shows once it has failed, the request fails on it.
  lemma FailedDeviceJudged(c: Ctx, st: u8, env: Env, p: D.Phase)
    requires c.step.IoWaitIrq? && p.Failed? && D.Honest(p, st)
    ensures Judge(c, st, env).step.IoFail? && Judge(c, st, env).op.OpNone?
  {
    JudgeLeads(c, st, env);
  }

  // After a block the driver looks at alternate status: if an honest device has failed by then,
  // the request fails, whatever interrupts land in the tick.
  lemma FailedDeviceFails(c: Ctx, env: Env, w0: D.World, chs: nat -> D.Choice)
    requires IsIo(c.op) && c.step.IoWaitIrq? && c.batch == 0 && !c.fired && c.delay == 0 && Sane(c)
    requires After(w0, c.trace, chs).dev.phase.Failed? && Shows(D.Honest, w0, Tick(c, env).trace, chs)
    ensures Tick(c, env).step.IoFail?
  {
    var c1 := PutLate(c, env.irqs(3), AltIn(env.st1), env.irqs(1));
    JudgeGrows(c1, env.st1, env);
    ShowsPrefix(D.Honest, w0, c1.trace, Tick(c, env).trace, chs);
    FailureIsShown(c, env.irqs(3), env.st1, env.irqs(1), w0, chs);
    WaitLeads(c, env);
  }

  // An alternate status read, among interrupts, once the device has failed.
  lemma FailureIsShown(c: Ctx, before: seq<u8>, st: u8, after: seq<u8>, w0: D.World, chs: nat -> D.Choice)
    requires After(w0, c.trace, chs).dev.phase.Failed?
    requires Shows(D.Honest, w0, PutLate(c, before, AltIn(st), after).trace, chs)
    ensures Failing(st)
  {
    var c0 := Irqs(c, before);
    var t := c0.trace + [AltIn(st)];
    IrqsGrow(c, before);
    IrqsQuiet(c, before);
    PutGrows(c0, AltIn(st), after);
    ShowsPrefix(D.Honest, w0, t, PutLate(c, before, AltIn(st), after).trace, chs);
    ShowsLast(D.Honest, w0, c0.trace, AltIn(st), chs);
    DecodeOne(c0.trace, AltIn(st));
    SameActs(w0, c.trace, t, chs);
  }

  // ---- Initialization from end to end ----

  // A device that interrupts with `ready` as soon as the driver waits for IDENTIFY.
  function InitIrq(c: Ctx, ready: u8): Ctx { if c.step.InitIdentifyWait? then Irq(c, ready) else c }

  // No other interrupts.
  ghost predicate Still(env: Env) { forall k: nat :: env.irqs(k) == [] }

  // Initialization from power-on, tick by tick.
  ghost predicate InitRun(op: Op, cs: seq<Ctx>, ready: u8, envs: nat -> Env) {
    && IsInit(op) && |cs| > 0 && cs[0] == BeginInit(START, op, QUIET_LANDING) && (forall i: nat :: Still(envs(i)))
    && forall i: nat | i < |cs| - 1 :: Sane(cs[i]) && cs[i + 1] == Tick(InitIrq(cs[i], ready), envs(i))
  }

  // Where initialization stands after i ticks.
  ghost predicate InitAt(c: Ctx, op: Op, i: nat, ok: bool) {
    && c.batch == 0 && c.left == 0
    && if i == 0 then c.op == op && c.step == InitSelect && c.delay == 0
       else if i <= 4 then c.op == op && c.step == InitIdentifyCmd && c.delay == 5 - i
       else if i == 5 then c.op == op && c.step == InitIdentifyWait && c.delay == 0
       else if !ok then c.op == OpNone && c.step == InitFail && c.delay == 0
       else if i == 6 then c.op == op && c.step == InitIdentifyXfer && c.delay == 0
       else c.op == OpNone && c.step == InitDone && c.delay == 0
  }

  lemma InitNext(c: Ctx, op: Op, i: nat, ready: u8, env: Env)
    requires IsInit(op) && Sane(c) && Still(env)
    requires ready == 0xFF || ready % 2 == 1 || ready / 32 % 2 == 1 || ready / 8 % 2 == 1
    requires var ok := ready != 0xFF && ready % 2 == 0 && ready / 32 % 2 == 0; InitAt(c, op, i, ok)
    ensures var ok := ready != 0xFF && ready % 2 == 0 && ready / 32 % 2 == 0;
      InitAt(Tick(InitIrq(c, ready), env), op, i + 1, ok)
  {
    if i == 5 { InitWaitNext(c, ready, env); }
    if i == 0 { PutAllTakes(c, [Out(REG_CONTROL, 0), Out(REG_DRIVE_SEL, DH_LBA_MASTER)], 1, env.irqs); }
    if i == 4 {
      var c1 := DelayTick(c, env);
      PutAllTakes(c1, IDENTIFY_EVENTS, 1, env.irqs);
    }
  }

  lemma InitWaitNext(c: Ctx, ready: u8, env: Env)
    requires c.step.InitIdentifyWait? && Still(env)
    requires ready == 0xFF || ready % 2 == 1 || ready / 32 % 2 == 1 || ready / 8 % 2 == 1
    ensures var ok, c1 := ready != 0xFF && ready % 2 == 0 && ready / 32 % 2 == 0, InitWaitTick(Irq(c, ready), env);
      && c1.delay == c.delay && c1.batch == c.batch && c1.left == c.left
      && c1.op == (if ok then c.op else OpNone) && c1.step == if ok then InitIdentifyXfer else InitFail
  {
    assert env.irqs(1) == [];
  }

  // Interrupted for at once, initialization is done after exactly seven ticks if the status asks
  // for data and shows no failure; it has failed after exactly six if it shows one.
  lemma {:induction false} SevenTicksOrSix(op: Op, cs: seq<Ctx>, ready: u8, envs: nat -> Env, i: nat)
    requires InitRun(op, cs, ready, envs) && i < |cs|
    requires ready == 0xFF || ready % 2 == 1 || ready / 32 % 2 == 1 || ready / 8 % 2 == 1
    ensures var ok := ready != 0xFF && ready % 2 == 0 && ready / 32 % 2 == 0;
      && (cs[i].step.InitDone? <==> ok && i >= 7) && (cs[i].step.InitFail? <==> !ok && i >= 6)
      && InitAt(cs[i], op, i, ok)
  {
    if i > 0 {
      SevenTicksOrSix(op, cs, ready, envs, i - 1);
      InitNext(cs[i - 1], op, i - 1, ready, envs(i - 1));
    }
  }
}
