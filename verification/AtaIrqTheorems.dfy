/** What every run of the interrupt-driven driver guarantees. */
module AtaIrqTheorems {
  import opened Words
  import opened AtaStatus
  import opened AtaWire
  import opened AtaIrq
  import opened AtaIrqRuns

  function Acts(s: Sys): seq<Act> { Decode(s.ctx.trace).acts }

  ghost predicate AllLegal(inputs: seq<Input>) { forall i | i in inputs :: Legal(i) }

  // ---- Safety, for any device and any interrupts ----

  // The wire carries the first blocks of the request's script, in order, and at most one more
  // command; all of it once the request is done.
  ghost predicate FollowsScript(c: Ctx, q: Request)
    requires IsIo(q.op) && c.left <= q.count
  {
    var acts, done := Decode(c.trace).acts, q.count - c.left;
    && (acts == Script(q, GAP, done) || (done < q.count && acts == Script(q, GAP, done) + [CmdOf(q, GAP, done)]))
    && acts <= Script(q, GAP, q.count) && BlocksInOrder(acts, q)
    && (c.step.IoDone? ==> acts == Script(q, GAP, q.count))
    && MasterOnly(acts)
  }

  // Every command goes to drive 0 in LBA mode; a 48-bit one leaves the address bits clear.
  ghost predicate MasterOnly(acts: seq<Act>) {
    forall a | a in acts && a.Cmd? :: a.drive / 16 == 0xE && (a.code == 0x24 || a.code == 0x34 ==> a.drive == 0xE0)
  }

  lemma FollowsInOrder(c: Ctx, q: Request)
    requires IoInv(c, q)
    ensures BlocksInOrder(Decode(c.trace).acts, q)
  {
    InvFollows(c, q);
  }

  lemma InOrderMasterOnly(acts: seq<Act>, q: Request)
    requires IsIo(q.op) && BlocksInOrder(acts, q)
    ensures MasterOnly(acts)
  {
    forall a | a in acts && a.Cmd?
      ensures a.drive / 16 == 0xE && (a.code == 0x24 || a.code == 0x34 ==> a.drive == 0xE0)
    {
      var k :| 0 <= k < |acts| && acts[k] == a;
      CommandDrive(q, k / 2);
    }
  }

  lemma CommandDrive(q: Request, i: nat)
    requires IsIo(q.op)
    ensures var a := CmdOf(q, GAP, i); a.drive / 16 == 0xE && (a.code == 0x24 || a.code == 0x34 ==> a.drive == 0xE0)
  {
  }

  lemma WireFollowsScript(inputs: seq<Input>, q: Request)
    requires AllLegal(inputs) && Play(inputs).phase == Serving(q)
    ensures Fits(q) && Play(inputs).ctx.left <= q.count && FollowsScript(Play(inputs).ctx, q)
  {
    InvFollows(Play(inputs).ctx, q);
  }

  lemma InvFollows(c: Ctx, q: Request)
    requires IoInv(c, q)
    ensures FollowsScript(c, q)
  {
    InvActs(c, q);
    ScriptPrefix(q, GAP, q.count - c.left, q.count);
    ScriptInOrder(Decode(c.trace).acts, q);
    InOrderMasterOnly(Decode(c.trace).acts, q);
  }

  // Act 2i is the command for sector lba + i, act 2i + 1 moves words 256i to 256i + 255.
  ghost predicate BlocksInOrder(acts: seq<Act>, q: Request)
    requires IsIo(q.op)
  {
    forall k: nat | k < |acts| :: acts[k] == if k % 2 == 0 then CmdOf(q, GAP, k / 2) else MoveOf(q, k / 2)
  }

  lemma ScriptInOrder(acts: seq<Act>, q: Request)
    requires IsIo(q.op) && acts <= Script(q, GAP, q.count)
    ensures BlocksInOrder(acts, q)
  {
    ScriptLength(q, GAP, q.count);
    forall k: nat | k < |acts| ensures acts[k] == if k % 2 == 0 then CmdOf(q, GAP, k / 2) else MoveOf(q, k / 2) {
      ScriptAt(q, GAP, q.count, k / 2);
    }
  }

  lemma InvActs(c: Ctx, q: Request)
    requires IoInv(c, q)
    ensures var acts, done: nat := Decode(c.trace).acts, q.count - c.left;
      && (acts == Script(q, GAP, done) || (done < q.count && acts == Script(q, GAP, done) + [CmdOf(q, GAP, done)]))
      && (c.step.IoDone? ==> done == q.count && acts == Script(q, GAP, done))
  {
  }

  // The counters of a request in flight.
  lemma CountersAgree(inputs: seq<Input>, q: Request)
    requires AllLegal(inputs) && Play(inputs).phase == Serving(q)
    ensures var c := Play(inputs).ctx;
      && c.left <= q.count && c.lba == (q.lba + (q.count - c.left)) % TWO64
      && c.ptr == q.ptr + 256 * (q.count - c.left)
      && c.batch <= 1 && c.batch <= c.left
  {
  }

  // No word outside the request's buffer is ever transferred.
  lemma TransfersStayInside(inputs: seq<Input>, q: Request, a: Act)
    requires AllLegal(inputs) && Play(inputs).phase == Serving(q)
    requires a in Acts(Play(inputs)) && (a.MoveIn? || a.MoveOut?)
    ensures q.ptr <= a.ptr && a.ptr + a.words <= q.ptr + 256 * q.count
  {
    WireFollowsScript(inputs, q);
    var k :| 0 <= k < |Acts(Play(inputs))| && Acts(Play(inputs))[k] == a;
    InScript(Acts(Play(inputs)), q, k);
    var i := ScriptEntry(q, GAP, q.count, k);
    BlockInside(i, q.count);
  }

  lemma InScript(acts: seq<Act>, q: Request, k: nat)
    requires IsIo(q.op) && acts <= Script(q, GAP, q.count) && k < |acts|
    ensures k < |Script(q, GAP, q.count)| && Script(q, GAP, q.count)[k] == acts[k]
  {
  }

  lemma BlockInside(i: nat, n: nat)
    requires i < n
    ensures 256 * i + 256 <= 256 * n
  {
  }

  // A command names its sector exactly when the width of the command can.
  lemma AddressIsExact(q: Request, i: nat)
    requires IsIo(q.op)
    ensures CmdOf(q, GAP, i).lba == q.lba + i <==> q.lba + i < Span(q.op)
  {
  }

  // Every command, of a request or of initialization, follows four alternate-status reads, and
  // goes to drive 0 in LBA mode.
  lemma FourReadsBeforeCommands(inputs: seq<Input>, a: Act)
    requires AllLegal(inputs) && a in Acts(Play(inputs)) && a.Cmd?
    ensures a.gap == 4 && a.drive / 16 == 0xE
  {
    var s := Play(inputs);
    match s.phase
    case Unused =>
    case Initializing =>
    case Serving(q) =>
      WireFollowsScript(inputs, q);
      var k :| 0 <= k < |Acts(s)| && Acts(s)[k] == a;
      InScript(Acts(s), q, k);
      var i := ScriptEntry(q, GAP, q.count, k);
  }

  // ---- The states ----

  predicate ActiveInit(st: Step) {
    st.InitSelect? || st.InitIdentifyCmd? || st.InitIdentifyWait? || st.InitIdentifyXfer?
  }

  predicate ActiveIo(st: Step) { st.IoIssueSelect? || st.IoIssueTaskfile? || st.IoWaitIrq? || st.IoXferBlock? }

  predicate Terminal(st: Step) { st.InitDone? || st.InitFail? || st.IoDone? || st.IoFail? }

  // Operation and step agree, some steps are never entered, one begin call succeeds at most.
  lemma StepsAgree(inputs: seq<Input>)
    requires AllLegal(inputs)
    ensures var s := Play(inputs);
      && (s.ctx.step.Idle? || ActiveInit(s.ctx.step) || ActiveIo(s.ctx.step) || Terminal(s.ctx.step))
      && (IsInit(s.ctx.op) <==> ActiveInit(s.ctx.step))
      && (IsIo(s.ctx.op) <==> ActiveIo(s.ctx.step))
      && (s.ctx.op.OpNone? <==> s.ctx.step.Idle? || Terminal(s.ctx.step))
      && s.begun <= 1 && (s.begun == 0 <==> s.ctx.step.Idle?)
  {
  }

  // A finished request stays finished: nothing further reaches a register.
  lemma TerminalIsAbsorbing(inputs: seq<Input>, i: Input)
    requires AllLegal(inputs) && Legal(i) && Terminal(Play(inputs).ctx.step)
    ensures AllLegal(inputs + [i])
    ensures var s, s' := Play(inputs), Play(inputs + [i]);
      s'.ctx.step == s.ctx.step && s'.phase == s.phase && Acts(s') == Acts(s) && s'.begun == s.begun
  {
    var s := Play(inputs);
    assert (inputs + [i])[..|inputs|] == inputs;
    if i.IrqIn? { IrqQuiet(s.ctx, i.st); }
  }

  // ---- Progress ----

  // Position within a block, highest first.
  function Stage(c: Ctx): nat {
    match c.step
    case IoIssueSelect => 5
    case IoIssueTaskfile => 4
    case IoWaitIrq => if c.batch == 0 then 6 else 3
    case IoXferBlock => if c.batch == 0 then 6 else 2
    case _ => 0
  }

  predicate Less(c': Ctx, c: Ctx) {
    c'.left < c.left || (c'.left == c.left && (Stage(c') < Stage(c) || (Stage(c') == Stage(c) && c'.delay < c.delay)))
  }

  // The two ways a tick can fail to get ahead: waiting on, or the round trip between waiting
  // and a transfer of nothing.
  predicate Stays(c: Ctx, c': Ctx) {
    && c'.left == c.left && c'.batch == c.batch
    && ((c.step.IoWaitIrq? && c'.step.IoWaitIrq?)
        || (c.batch == 0 && c.step.IoWaitIrq? && c'.step.IoXferBlock?)
        || (c.batch == 0 && c.step.IoXferBlock? && c'.step.IoWaitIrq?))
  }

  // Against any device, every tick of an active request gets ahead or stays in one of these ways.
  lemma TickGetsAhead(c: Ctx, env: Env, q: Request)
    requires IoInv(c, q) && ActiveIo(c.step)
    ensures Sane(c) && (Less(Tick(c, env), c) || Stays(c, Tick(c, env)))
  {
    if c.delay == 0 {
      DispatchGetsAhead(c, env);
    } else {
      var c1 := DelayTick(c, env);
      PutTakes(c, AltIn(env.delaySt), env.irqs(0));
      if c1.delay == 0 { TaskfileGetsAhead(c1, env); }
    }
  }

  lemma DispatchGetsAhead(c: Ctx, env: Env)
    requires Sane(c) && IsIo(c.op) && c.batch <= 1 && ActiveIo(c.step) && c.delay == 0
    requires c.step.IoIssueTaskfile? || c.step.IoIssueSelect? ==> c.batch == 0 && c.left > 0
    ensures Less(Dispatch(c, env), c) || Stays(c, Dispatch(c, env))
  {
    match c.step {
      case IoIssueSelect =>
        DriveByteIs(c.lba % 0x1_0000_0000);
        PutTakes(c, Out(REG_DRIVE_SEL, SelectByte(c)), env.irqs(1));
      case IoIssueTaskfile => TaskfileGetsAhead(c, env);
      case IoWaitIrq => WaitGetsAhead(c, env);
      case IoXferBlock =>
        if c.batch == 1 {
          var e := if IsRead(c.op) then InWords(c.ptr, 256) else OutWords(c.ptr, 256);
          PutTakes(c, e, env.irqs(1));
        }
    }
  }

  lemma TaskfileGetsAhead(c: Ctx, env: Env)
    requires IsIo(c.op) && c.step.IoIssueTaskfile? && c.left > 0
    ensures var c' := IssueTaskfile(c, env); c'.left == c.left && c'.batch == 1 && c'.step.IoWaitIrq?
  {
    var c0 := c.(batch := 1);
    PutAllTakes(c0, Taskfile(c.op, TaskfileLba(c)), 1, env.irqs);
    ResetQuiet(PutAll(c0, Taskfile(c.op, TaskfileLba(c)), 1, env.irqs), env.irqs(20));
  }

  // What judging a status can lead to.
  predicate Judged(c: Ctx, c': Ctx) {
    && c'.left == c.left && c'.batch == c.batch
    && (c'.step.IoFail? || c'.step.IoDone? || c'.step.IoXferBlock? || c'.step.IoWaitIrq?
        || (c'.step.IoIssueSelect? && c.batch == 0))
  }

  lemma JudgeMoves(c: Ctx, st: u8, env: Env)
    requires c.step.IoWaitIrq?
    ensures Judged(c, Judge(c, st, env))
  {
    if Bad(st) {
      assert Judge(c, st, env) == FinishIo(c, false);
    } else if Drq(st) {
      assert Judge(c, st, env) == c.(step := IoXferBlock);
    } else if c.batch != 0 {
      var c2 := PutLate(c, env.irqs(4), AltIn(env.st2), env.irqs(2));
      assert c2.left == c.left && c2.batch == c.batch && c2.step == c.step by {
        PutLateTakes(c, env.irqs(4), AltIn(env.st2), env.irqs(2));
      }
      assert Judge(c, st, env) ==
        if Bad(env.st2) then FinishIo(c2, false) else if Drq(env.st2) then c2.(step := IoXferBlock) else c2;
    }
  }

  lemma WaitGetsAhead(c: Ctx, env: Env)
    requires c.step.IoWaitIrq? && c.batch <= 1
    ensures Less(WaitIrq(c, env), c) || Stays(c, WaitIrq(c, env))
  {
    if c.fired {
      var c1 := Irqs(c.(fired := false), env.irqs(1));
      IrqsQuiet(c.(fired := false), env.irqs(1));
      JudgeMoves(c1, c1.last, env);
    } else if c.batch == 0 {
      PutLateTakes(c, env.irqs(3), AltIn(env.st1), env.irqs(1));
      JudgeMoves(PutLate(c, env.irqs(3), AltIn(env.st1), env.irqs(1)), env.st1, env);
    }
  }

  // ---- Lost interrupts ----

  // Waiting for a block, a tick does nothing at all exactly when no interrupt has been noted.
  lemma WaitsIff(c: Ctx, env: Env)
    requires IsIo(c.op) && c.step.IoWaitIrq? && c.batch == 1 && c.left > 0 && c.delay == 0
    ensures Tick(c, env) == c <==> !c.fired
  {
    if c.fired {
      var c1 := Irqs(c.(fired := false), env.irqs(1));
      IrqsLength(c.(fired := false), env.irqs(1));
      JudgeAdds(c1, env);
      if env.irqs(1) == [] { assert !c1.fired; }
    }
  }

  lemma {:induction false} IrqsLength(c: Ctx, sts: seq<u8>)
    ensures |Irqs(c, sts).trace| == |c.trace| + 3 * |sts|
    decreases |sts|
  {
    if sts != [] { IrqsLength(Irq(c, sts[0]), sts[1..]); }
  }

  lemma JudgeAdds(c: Ctx, env: Env)
    ensures |Judge(c, c.last, env).trace| >= |c.trace|
    ensures |Judge(c, c.last, env).trace| == |c.trace| ==> Judge(c, c.last, env).fired == c.fired
  {
    var c0 := Irqs(c, env.irqs(4));
    IrqsLength(c, env.irqs(4));
    IrqsLength(c0.(trace := c0.trace + [AltIn(env.st2)]), env.irqs(2));
  }

  // An interrupt between the command and the clearing of the flags is lost: only one between
  // the two clearing stores is noted, and its status is lost even then.
  lemma FlagsAfterCommand(c: Ctx, env: Env)
    requires IsIo(c.op) && c.left > 0
    ensures var c' := IssueTaskfile(c, env); (c'.fired <==> env.irqs(20) != []) && c'.last == 0
  {
    var c1 := PutAll(c.(batch := 1), Taskfile(c.op, TaskfileLba(c)), 1, env.irqs);
    IrqsFire(c1.(fired := false), env.irqs(20));
  }

  lemma {:induction false} IrqsFire(c: Ctx, sts: seq<u8>)
    ensures Irqs(c, sts).fired <==> c.fired || sts != []
    decreases |sts|
  {
    if sts != [] { IrqsFire(Irq(c, sts[0]), sts[1..]); }
  }

  // ---- Exact cost against a prompt device ----

  // No interrupt of its own, and no status that asks for anything.
  ghost predicate Calm(env: Env) {
    && (forall k: nat :: env.irqs(k) == [])
    && Clean(env.delaySt) && Clean(env.st1) && Clean(env.st2)
  }

  predicate Clean(st: u8) { !Bad(st) && !Drq(st) }

  // An interrupt with `ready` arrives while the driver waits for a block.
  function PromptIrq(c: Ctx, ready: u8): Ctx { if c.step.IoWaitIrq? && c.batch == 1 then Irq(c, ready) else c }

  function PromptTick(c: Ctx, ready: u8, env: Env): Ctx
    requires Sane(c)
  {
    Tick(PromptIrq(c, ready), env)
  }

  // The part of the state that decides the next step.
  datatype Gist = Gist(op: Op, step: Step, delay: nat, left: u32, batch: u32, fired: bool)

  function GistOf(c: Ctx): Gist { Gist(c.op, c.step, c.delay, c.left, c.batch, c.fired) }

  ghost predicate Prompt(ready: u8, env: Env) { !Bad(ready) && Drq(ready) && Calm(env) }

  function PromptGist(g: Gist): Gist {
    if g.delay > 1 then g.(delay := g.delay - 1)
    else match g.step
      case IoIssueSelect => g.(step := IoIssueTaskfile, delay := 4)
      case IoIssueTaskfile => g.(step := IoWaitIrq, delay := 0, batch := 1, fired := false)
      case IoWaitIrq =>
        if g.batch == 1 then g.(step := IoXferBlock, fired := false)
        else if g.left == 0 then g.(step := IoDone, op := OpNone) else g.(step := IoIssueSelect)
      case IoXferBlock => if g.left == 0 then g else g.(step := IoWaitIrq, batch := 0, left := g.left - 1)
      case _ => g
  }

  predicate Coherent(g: Gist) {
    && IsIo(g.op) && g.batch <= 1 && g.batch <= g.left && g.delay <= 4
    && (g.delay > 0 ==> g.step.IoIssueTaskfile?)
    && (g.step.IoIssueSelect? || g.step.IoIssueTaskfile? ==> g.batch == 0 && g.left > 0)
    && (g.step.IoXferBlock? ==> g.batch == 1)
    && (g.step.IoWaitIrq? ==> !g.fired)
    && ActiveIo(g.step)
  }

  lemma PromptTickGist(c: Ctx, ready: u8, env: Env)
    requires Coherent(GistOf(c)) && Prompt(ready, env)
    ensures Sane(c) && GistOf(PromptTick(c, ready, env)) == PromptGist(GistOf(c))
  {
    match c.step {
      case IoIssueSelect => DriveByteIs(c.lba % 0x1_0000_0000);
      case IoIssueTaskfile =>
        if c.delay == 0 { PromptTaskfile(c, env); }
        if c.delay == 1 { PromptTaskfile(DelayTick(c, env), env); }
      case IoWaitIrq =>
      case IoXferBlock =>
    }
  }

  lemma PromptTaskfile(c: Ctx, env: Env)
    requires Coherent(GistOf(c).(delay := 0)) && c.step.IoIssueTaskfile? && Calm(env)
    ensures GistOf(IssueTaskfile(c, env)) == GistOf(c).(step := IoWaitIrq, batch := 1, fired := false)
  {
    var c0 := c.(batch := 1);
    PutAllTakes(c0, Taskfile(c.op, TaskfileLba(c)), 1, env.irqs);
  }

  const QUIET_LANDING: Landing := Landing([], [])

  // Where a request stands after i prompt ticks.
  function GistAt(q: Request, i: nat): Gist
    requires Fits(q) && i <= 8 * q.count
  {
    var b, r := i / 8, i % 8;
    if i == 8 * q.count then Gist(OpNone, IoDone, 0, 0, 0, false)
    else if r == 0 then Gist(q.op, IoIssueSelect, 0, q.count - b, 0, false)
    else if r <= 4 then Gist(q.op, IoIssueTaskfile, 5 - r, q.count - b, 0, false)
    else if r == 5 then Gist(q.op, IoWaitIrq, 0, q.count - b, 1, false)
    else if r == 6 then Gist(q.op, IoXferBlock, 0, q.count - b, 1, false)
    else Gist(q.op, IoWaitIrq, 0, q.count - b - 1, 0, false)
  }

  lemma NextGist(q: Request, i: nat)
    requires Fits(q) && i < 8 * q.count
    ensures Coherent(GistAt(q, i)) && PromptGist(GistAt(q, i)) == GistAt(q, i + 1)
  {
    if i % 8 == 7 { assert (i + 1) / 8 == i / 8 + 1 && (i + 1) % 8 == 0; }
    else { assert (i + 1) / 8 == i / 8 && (i + 1) % 8 == i % 8 + 1; }
  }

  ghost predicate PromptRun(cs: seq<Ctx>, readies: nat -> u8, envs: nat -> Env) {
    && (forall i: nat :: Prompt(readies(i), envs(i)))
    && forall i: nat | i < |cs| - 1 :: Sane(cs[i]) && cs[i + 1] == PromptTick(cs[i], readies(i), envs(i))
  }

  // A device that answers every wait at once, with whatever statuses, serves a request in
  // eight ticks a block, no more and no fewer.
  lemma {:induction false} EightTicksABlock(c: Ctx, q: Request, cs: seq<Ctx>, readies: nat -> u8, envs: nat -> Env,
                                            i: nat)
    requires Fits(q) && c.step == Idle
    requires i < |cs| <= 8 * q.count + 1
    requires cs[0] == BeginIo(c, q, QUIET_LANDING) && PromptRun(cs, readies, envs)
    ensures GistOf(cs[i]) == GistAt(q, i)
    ensures cs[i].step.IoDone? <==> i == 8 * q.count
  {
    if i > 0 {
      EightTicksABlock(c, q, cs, readies, envs, i - 1);
      NextGist(q, i - 1);
      PromptTickGist(cs[i - 1], readies(i - 1), envs(i - 1));
    }
  }
}
