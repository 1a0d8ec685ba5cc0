/** Reads against devices that interrupt at once: one that answers truly, whose sectors arrive in
    time, and one that shows DRQ while busy, which the driver believes. */
module AtaIrqPrompt {
  import opened Words
  import opened AtaStatus
  import opened AtaWire
  import opened AtaWorld
  import opened AtaIrq
  import opened AtaIrqRuns
  import opened AtaIrqTheorems
  import opened AtaIrqReads
  import D = AtaDevice

  // ---- Statuses along a calm tick ----

  // As long as no act intervenes, status st is allowed.
  ghost predicate Allowed(ok: (D.Phase, u8) -> bool, st: u8, w0: D.World, t0: seq<Event>, chs: nat -> D.Choice) {
    forall t | t0 <= t && Decode(t).acts == Decode(t0).acts :: ok(After(w0, t, chs).dev.phase, st)
  }

  lemma ShowsAlt(ok: (D.Phase, u8) -> bool, w0: D.World, t: seq<Event>, st: u8, chs: nat -> D.Choice)
    requires Shows(ok, w0, t, chs) && Allowed(ok, st, w0, t, chs)
    ensures Shows(ok, w0, t + [AltIn(st)], chs) && Decode(t + [AltIn(st)]).acts == Decode(t).acts
  {
    DecodeOne(t, AltIn(st));
    ShowsMore(ok, w0, t, AltIn(st), chs);
  }

  lemma {:induction false} ShowsPutAll(ok: (D.Phase, u8) -> bool, c: Ctx, es: seq<Event>, k: nat,
                                       irqs: nat -> seq<u8>, w0: D.World, chs: nat -> D.Choice)
    requires Shows(ok, w0, c.trace, chs) && (forall j: nat :: irqs(j) == []) && forall e | e in es :: !IsStatus(e)
    ensures Shows(ok, w0, PutAll(c, es, k, irqs).trace, chs)
    decreases |es|
  {
    if es != [] {
      assert irqs(k) == [] && es[0] in es;
      ShowsMore(ok, w0, c.trace, es[0], chs);
      ShowsPutAll(ok, Put(c, es[0], irqs(k)), es[1..], k + 1, irqs, w0, chs);
    }
  }

  lemma ShowsIrq(ok: (D.Phase, u8) -> bool, c: Ctx, st: u8, w0: D.World, chs: nat -> D.Choice)
    requires Shows(ok, w0, c.trace, chs) && ok(After(w0, c.trace + [IrqStatusIn(st)], chs).dev.phase, st)
    ensures Shows(ok, w0, Irq(c, st).trace, chs)
  {
    var e1, e2, e3 := IrqStatusIn(st), IrqOut(0xA0, 0x20), IrqOut(0x20, 0x20);
    ShowsMore(ok, w0, c.trace, e1, chs);
    ShowsMore(ok, w0, c.trace + [e1], e2, chs);
    ShowsMore(ok, w0, c.trace + [e1] + [e2], e3, chs);
    assert Irq(c, st).trace == c.trace + [e1] + [e2] + [e3];
  }

  lemma DispatchShows(ok: (D.Phase, u8) -> bool, c: Ctx, env: Env, w0: D.World, chs: nat -> D.Choice)
    requires Sane(c) && IsIo(c.op) && Calm(env) && Shows(ok, w0, c.trace, chs) && c.batch <= 1
    requires c.step.IoWaitIrq? ==> Allowed(ok, env.st1, w0, c.trace, chs) && Allowed(ok, env.st2, w0, c.trace, chs)
    ensures Shows(ok, w0, Dispatch(c, env).trace, chs)
  {
    match c.step {
      case IoIssueSelect => SelectShows(ok, c, env, w0, chs);
      case IoIssueTaskfile => TaskfileShows(ok, c, env, w0, chs);
      case IoWaitIrq => WaitShows(ok, c, env, w0, chs);
      case IoXferBlock => XferShows(ok, c, env, w0, chs);
      case _ =>
    }
  }

  lemma TaskfileShows(ok: (D.Phase, u8) -> bool, c: Ctx, env: Env, w0: D.World, chs: nat -> D.Choice)
    requires IsIo(c.op) && Calm(env) && Shows(ok, w0, c.trace, chs)
    ensures Shows(ok, w0, IssueTaskfile(c, env).trace, chs)
  {
    ShowsPutAll(ok, c.(batch := 1), Taskfile(c.op, TaskfileLba(c)), 1, env.irqs, w0, chs);
  }

  lemma XferShows(ok: (D.Phase, u8) -> bool, c: Ctx, env: Env, w0: D.World, chs: nat -> D.Choice)
    requires c.batch <= 1 && c.batch <= c.left && Calm(env) && Shows(ok, w0, c.trace, chs)
    ensures Shows(ok, w0, XferBlock(c, env).trace, chs)
  {
    assert env.irqs(1) == [];
    ShowsMore(ok, w0, c.trace, InWords(c.ptr, 256), chs);
    ShowsMore(ok, w0, c.trace, OutWords(c.ptr, 256), chs);
  }

  lemma SelectShows(ok: (D.Phase, u8) -> bool, c: Ctx, env: Env, w0: D.World, chs: nat -> D.Choice)
    requires Calm(env) && Shows(ok, w0, c.trace, chs)
    ensures Shows(ok, w0, IssueSelect(c, env).trace, chs)
  {
    var b := SelectByte(c);
    assert b < 256 by { DriveByteIs(c.lba % 0x1_0000_0000); }
    assert env.irqs(1) == [];
    ShowsMore(ok, w0, c.trace, Out(REG_DRIVE_SEL, b), chs);
  }

  lemma WaitShows(ok: (D.Phase, u8) -> bool, c: Ctx, env: Env, w0: D.World, chs: nat -> D.Choice)
    requires c.step.IoWaitIrq? && Calm(env) && Shows(ok, w0, c.trace, chs)
    requires Allowed(ok, env.st1, w0, c.trace, chs) && Allowed(ok, env.st2, w0, c.trace, chs)
    ensures Shows(ok, w0, WaitIrq(c, env).trace, chs)
  {
    ShowsAlt(ok, w0, c.trace, env.st2, chs);
    ShowsAlt(ok, w0, c.trace, env.st1, chs);
    assert env.irqs(1) == [] && env.irqs(2) == [] && env.irqs(3) == [] && env.irqs(4) == [];
  }

  lemma TickShows(ok: (D.Phase, u8) -> bool, c: Ctx, env: Env, w0: D.World, chs: nat -> D.Choice)
    requires Sane(c) && IsIo(c.op) && Calm(env) && Shows(ok, w0, c.trace, chs) && c.batch <= 1
    requires c.delay > 0 ==> c.step.IoIssueTaskfile? && Allowed(ok, env.delaySt, w0, c.trace, chs)
    requires c.step.IoWaitIrq? ==> Allowed(ok, env.st1, w0, c.trace, chs) && Allowed(ok, env.st2, w0, c.trace, chs)
    ensures Shows(ok, w0, Tick(c, env).trace, chs)
  {
    if c.delay == 0 {
      DispatchShows(ok, c, env, w0, chs);
    } else {
      assert env.irqs(0) == [];
      ShowsAlt(ok, w0, c.trace, env.delaySt, chs);
      if DelayTick(c, env).delay == 0 { DispatchShows(ok, DelayTick(c, env), env, w0, chs); }
    }
  }

  // ---- A true device ----

  lemma PromptGrows(c: Ctx, ready: u8, env: Env)
    requires Sane(c)
    ensures c.trace <= PromptIrq(c, ready).trace <= PromptTick(c, ready, env).trace
  {
    TickGrows(PromptIrq(c, ready), env);
  }

  // A request of q from power-on, against a device that interrupts at once.
  ghost predicate PromptRequest(q: Request, cs: seq<Ctx>, readies: nat -> u8, envs: nat -> Env) {
    && Fits(q) && 1 <= |cs| <= 8 * q.count + 1
    && cs[0] == BeginIo(START, q, QUIET_LANDING) && PromptRun(cs, readies, envs)
  }

  lemma {:induction false} StaysRead(q: Request, cs: seq<Ctx>, readies: nat -> u8, envs: nat -> Env,
                                     w0: D.World, chs: nat -> D.Choice, i: nat)
    requires PromptRequest(q, cs, readies, envs) && i < |cs| && IsRead(q.op)
    requires q.ptr + 256 * q.count <= |w0.mem| && !D.Busy(w0.dev.phase) && CandidTrace(w0, cs[i].trace, chs)
    ensures ReadInv(cs[i], q, w0, chs)
  {
    if i == 0 {
      BegunReads(START, q, QUIET_LANDING, w0, chs);
    } else {
      var c, c1 := cs[i - 1], PromptIrq(cs[i - 1], readies(i - 1));
      PromptGrows(c, readies(i - 1), envs(i - 1));
      ShowsPrefix(Candid, w0, c1.trace, cs[i].trace, chs);
      ShowsPrefix(Candid, w0, c.trace, c1.trace, chs);
      StaysRead(q, cs, readies, envs, w0, chs, i - 1);
      if c1 != c { IrqReads(c, readies(i - 1), q, w0, chs); }
      TickReads(c1, envs(i - 1), q, w0, chs);
    }
  }

  // A read that is interrupted for at once, by a device that shows DRQ only with its data, is
  // done after exactly eight ticks a block, and its buffer holds the sectors asked for.
  lemma PromptReadArrives(q: Request, cs: seq<Ctx>, readies: nat -> u8, envs: nat -> Env,
                          w0: D.World, chs: nat -> D.Choice)
    requires PromptRequest(q, cs, readies, envs) && |cs| == 8 * q.count + 1 && IsRead(q.op)
    requires q.ptr + 256 * q.count <= |w0.mem| && !D.Busy(w0.dev.phase)
    requires CandidTrace(w0, cs[8 * q.count].trace, chs)
    ensures cs[8 * q.count].step.IoDone? && forall i: nat | i < 8 * q.count :: !cs[i].step.IoDone?
    ensures After(w0, cs[8 * q.count].trace, chs).mem == D.CopyIn(w0.dev.disk, w0.mem, q, q.count)
  {
    DoneExactlyThen(q, cs, readies, envs);
    StaysRead(q, cs, readies, envs, w0, chs, 8 * q.count);
    ReadInvMeans(cs[8 * q.count], q, w0, chs);
    AllArrived(cs[8 * q.count], q, w0, chs);
  }

  lemma DoneExactlyThen(q: Request, cs: seq<Ctx>, readies: nat -> u8, envs: nat -> Env)
    requires PromptRequest(q, cs, readies, envs) && |cs| == 8 * q.count + 1
    ensures cs[8 * q.count].step.IoDone? && forall i: nat | i < 8 * q.count :: !cs[i].step.IoDone?
  {
    forall i: nat | i < 8 * q.count ensures !cs[i].step.IoDone? {
      EightTicksABlock(START, q, cs, readies, envs, i);
    }
    EightTicksABlock(START, q, cs, readies, envs, 8 * q.count);
  }

  lemma AllArrived(c: Ctx, q: Request, w0: D.World, chs: nat -> D.Choice)
    requires Arrived(c, q, w0, chs) && c.step.IoDone?
    ensures After(w0, c.trace, chs).mem == D.CopyIn(w0.dev.disk, w0.mem, q, q.count)
  {
  }

  // ---- Such a device: one whose work is over at the next access, and ends well ----

  ghost predicate Swift(chs: nat -> D.Choice) { forall k: nat :: chs(k).settles && chs(k).well }

  predicate Sound(p: D.Phase) { !p.Failed? && !(p.Working? && p.next.ToFail?) }

  predicate FineAct(a: Act) {
    a.MoveIn? || (a.Cmd? && a.sectors == 1 && a.gap >= 4 && D.Addressed(a.drive) && D.ReadCode(a.code))
  }

  lemma {:induction false} StaysSound(w0: D.World, t: seq<Event>, chs: nat -> D.Choice)
    requires Swift(chs) && Sound(w0.dev.phase) && forall a | a in Decode(t).acts :: FineAct(a)
    ensures Sound(After(w0, t, chs).dev.phase)
  {
    if t != [] {
      var init := t[..|t| - 1];
      ActsGrow(init, t);
      assert forall a | a in Decode(init).acts :: a in Decode(t).acts;
      StaysSound(w0, init, chs);
      var acts := Decode(t).acts;
      if |acts| > |Decode(init).acts| { assert acts[|acts| - 1] in acts; }
      SoundOn(After(w0, init, chs), Decode(init), t[|t| - 1], chs(|init|));
    }
  }

  lemma SoundOn(w: D.World, before: Wire, e: Event, ch: D.Choice)
    requires Sound(w.dev.phase) && ch.settles && ch.well
    requires var acts := Take(before, e).acts; |acts| > |before.acts| ==> FineAct(acts[|acts| - 1])
    ensures Sound(OnEvent(w, before, e, ch).dev.phase)
  {
  }

  lemma ReadIsFine(c: Ctx, q: Request)
    requires IoInv(c, q) && IsRead(q.op)
    ensures forall a | a in Decode(c.trace).acts :: FineAct(a)
  {
    FollowsInOrder(c, q);
    forall a | a in Decode(c.trace).acts ensures FineAct(a) {
      var k :| 0 <= k < |Decode(c.trace).acts| && Decode(c.trace).acts[k] == a;
      D.DriveAddressed(q.op, q.lba + k / 2);
    }
  }

  // When it interrupts, it offers its data.
  lemma OffersAtIrq(c: Ctx, st: u8, q: Request, w0: D.World, chs: nat -> D.Choice)
    requires ReadInv(c, q, w0, chs) && Swift(chs) && Sound(w0.dev.phase) && c.step.IoWaitIrq? && c.batch == 1
    ensures D.Offering(After(w0, c.trace + [IrqStatusIn(st)], chs).dev.phase)
  {
    ReadIsFine(c, q);
    StaysSound(w0, c.trace, chs);
    AfterOne(w0, c.trace, IrqStatusIn(st), chs);
    assert chs(|c.trace|).settles && chs(|c.trace|).well;
  }

  lemma Shape(q: Request, cs: seq<Ctx>, readies: nat -> u8, envs: nat -> Env, i: nat)
    requires PromptRequest(q, cs, readies, envs) && i + 1 < |cs|
    ensures var c := cs[i];
      IsIo(c.op) && c.batch <= 1 && Sane(c) && (c.delay > 0 ==> c.step.IoIssueTaskfile?)
  {
    EightTicksABlock(START, q, cs, readies, envs, i);
    NextGist(q, i);
  }

  lemma {:induction false} SwiftIsCandid(q: Request, cs: seq<Ctx>, readies: nat -> u8, envs: nat -> Env,
                                         w0: D.World, chs: nat -> D.Choice, i: nat)
    requires PromptRequest(q, cs, readies, envs) && i < |cs| && IsRead(q.op)
    requires q.ptr + 256 * q.count <= |w0.mem| && !D.Busy(w0.dev.phase) && Sound(w0.dev.phase) && Swift(chs)
    ensures CandidTrace(w0, cs[i].trace, chs)
  {
    if i > 0 {
      var c, ready, env := cs[i - 1], readies(i - 1), envs(i - 1);
      var c1 := PromptIrq(c, ready);
      SwiftIsCandid(q, cs, readies, envs, w0, chs, i - 1);
      StaysRead(q, cs, readies, envs, w0, chs, i - 1);
      Shape(q, cs, readies, envs, i - 1);
      if c.step.IoWaitIrq? && c.batch == 1 {
        OffersAtIrq(c, ready, q, w0, chs);
        ShowsIrq(Candid, c, ready, w0, chs);
      }
      TickShows(Candid, c1, env, w0, chs);
    }
  }

  // ---- BSY is not looked at ----

  // A transfer copies the right sector exactly when the device has stopped being busy by then
  // and offers it.
  lemma TransferIsRightIff(c: Ctx, env: Env, q: Request, w0: D.World, chs: nat -> D.Choice)
    requires IoInv(c, q) && IsRead(q.op) && c.step.IoXferBlock? && c.batch == 1 && q.ptr + 256 * q.count <= |w0.mem|
    requires var done: nat, w := q.count - c.left, After(w0, c.trace, chs);
      && w.dev.disk == w0.dev.disk && w.mem == D.CopyIn(w0.dev.disk, w0.mem, q, done)
      && Coming(w.dev.phase, D.LbaOf(q, done))
    ensures var done: nat := q.count - c.left;
      After(w0, XferBlock(c, env).trace, chs).mem == D.CopyIn(w0.dev.disk, w0.mem, q, done + 1) <==>
      D.Settle(After(w0, c.trace, chs).dev, chs(|c.trace|)).phase.DataIn?
  {
    BlockFits(q.ptr, q.count - c.left, q.count, |w0.mem|);
    XferIsRightIff(c, env, q, w0, chs);
  }

  lemma XferIsRightIff(c: Ctx, env: Env, q: Request, w0: D.World, chs: nat -> D.Choice)
    requires IsRead(c.op) && c.batch == 1 && 0 < c.left <= q.count && q.ptr + 256 * q.count <= |w0.mem|
    requires c.ptr == q.ptr + 256 * (q.count - c.left) && c.ptr + 256 <= |w0.mem|
    requires var done: nat, w := q.count - c.left, After(w0, c.trace, chs);
      && w.dev.disk == w0.dev.disk && w.mem == D.CopyIn(w0.dev.disk, w0.mem, q, done)
      && Coming(w.dev.phase, D.LbaOf(q, done))
    ensures var done: nat := q.count - c.left;
      After(w0, XferBlock(c, env).trace, chs).mem == D.CopyIn(w0.dev.disk, w0.mem, q, done + 1) <==>
      D.Settle(After(w0, c.trace, chs).dev, chs(|c.trace|)).phase.DataIn?
  {
    var d, ch := After(w0, c.trace, chs).dev, chs(|c.trace|);
    XferPlays(c, env, w0, chs);
    ComesOn(d, ch, D.LbaOf(q, q.count - c.left));
    MoveIsRightIff(c.ptr, D.Settle(d, ch), q, q.count - c.left, w0);
  }

  lemma ComesOn(d: D.Dev, ch: D.Choice, lba: nat)
    requires Coming(d.phase, lba)
    ensures Coming(D.Settle(d, ch).phase, lba) && D.Settle(d, ch).disk == d.disk
  {
  }

  lemma XferPlays(c: Ctx, env: Env, w0: D.World, chs: nat -> D.Choice)
    requires c.batch == 1 && c.left > 0 && IsRead(c.op)
    ensures var w := After(w0, c.trace, chs);
      Waited(D.OnAct(D.World(D.Settle(w.dev, chs(|c.trace|)), w.mem), MoveIn(c.ptr, 256)),
             After(w0, XferBlock(c, env).trace, chs))
  {
    var e := InWords(c.ptr, 256);
    AfterOne(w0, c.trace, e, chs);
    DecodeOne(c.trace, e);
    PutGrows(c, e, env.irqs(1));
    IrqsQuiet(c.(trace := c.trace + [e]), env.irqs(1));
    SameActs(w0, c.trace + [e], XferBlock(c, env).trace, chs);
  }

  lemma MoveIsRightIff(ptr: nat, d: D.Dev, q: Request, done: nat, w0: D.World)
    requires done < q.count && q.ptr + 256 * q.count <= |w0.mem| && ptr == q.ptr + 256 * done && ptr + 256 <= |w0.mem|
    requires d.disk == w0.dev.disk && Coming(d.phase, D.LbaOf(q, done))
    ensures var w := D.World(d, D.CopyIn(w0.dev.disk, w0.mem, q, done));
      D.OnAct(w, MoveIn(ptr, 256)).mem == D.CopyIn(w0.dev.disk, w0.mem, q, done + 1) <==> d.phase.DataIn?
  {
  }

  // The driver goes on after a block while the device is busy exactly when the status that it
  // judges shows BSY, and neither DRQ nor a failure.
  lemma GoesOnBusyIff(c: Ctx, st: u8, env: Env, p: D.Phase)
    requires c.step.IoWaitIrq? && c.batch == 0 && D.Honest(p, st)
    ensures var c' := Judge(c, st, env);
      (c'.step.IoDone? || c'.step.IoIssueSelect?) && D.Busy(p) <==> Clean(st) && Bsy(st)
  {
  }

  // A write that is done while its last block is still being stored.
  lemma DoneWhileStoring(c: Ctx, env: Env, env': Env, q: Request, w0: D.World, chs: nat -> D.Choice)
    requires IoInv(c, q) && !IsRead(q.op) && c.step.IoXferBlock? && c.batch == 1 && c.left == 1 && !c.fired
    requires Calm(env) && Calm(env') && env'.st1 == 0x80 && !chs(|c.trace| + 1).settles
    requires After(w0, c.trace, chs).dev.phase.DataOut? && c.ptr + 256 <= |After(w0, c.trace, chs).mem|
    ensures var c' := WaitIrq(XferBlock(c, env), env');
      var d, d' := After(w0, c.trace, chs).dev, After(w0, c'.trace, chs).dev;
      c'.step.IoDone? && D.Storing(d'.phase) && d'.disk == d.disk && D.Honest(d'.phase, 0x80)
  {
    SendThenLook(c, env, env');
    StoresOn(c.trace, WaitIrq(XferBlock(c, env), env').trace, c.ptr, w0, chs);
  }

  lemma SendThenLook(c: Ctx, env: Env, env': Env)
    requires IsIo(c.op) && !IsRead(c.op) && c.batch == 1 && c.left == 1 && !c.fired
    requires Calm(env) && Calm(env') && env'.st1 == 0x80
    ensures var c' := WaitIrq(XferBlock(c, env), env');
      c'.step.IoDone? && c'.trace == c.trace + [OutWords(c.ptr, 256)] + [AltIn(0x80)]
  {
    assert env.irqs(1) == [] && env'.irqs(1) == [] && env'.irqs(3) == [];
  }

  lemma StoresOn(t: seq<Event>, t': seq<Event>, ptr: nat, w0: D.World, chs: nat -> D.Choice)
    requires t' == t + [OutWords(ptr, 256)] + [AltIn(0x80)]
    requires After(w0, t, chs).dev.phase.DataOut? && ptr + 256 <= |After(w0, t, chs).mem| && !chs(|t| + 1).settles
    ensures var d, d' := After(w0, t, chs).dev, After(w0, t', chs).dev;
      D.Storing(d'.phase) && d'.disk == d.disk
  {
    var e, w := OutWords(ptr, 256), After(w0, t, chs);
    AfterOne(w0, t, e, chs);
    SendStep(w, Decode(t), ptr, chs(|t|));
    AfterOne(w0, t + [e], AltIn(0x80), chs);
    LookStep(After(w0, t + [e], chs), Decode(t + [e]), 0x80, chs(|t| + 1));
  }

  lemma SendStep(w: D.World, wire: Wire, ptr: nat, ch: D.Choice)
    requires w.dev.phase.DataOut? && ptr + 256 <= |w.mem|
    ensures var d := OnEvent(w, wire, OutWords(ptr, 256), ch).dev; D.Storing(d.phase) && d.disk == w.dev.disk
  {
    assert Take(wire, OutWords(ptr, 256)).acts == wire.acts + [MoveOut(ptr, 256)];
  }

  lemma LookStep(w: D.World, wire: Wire, st: u8, ch: D.Choice)
    requires !ch.settles
    ensures OnEvent(w, wire, AltIn(st), ch) == w
  {
  }

  // ---- A device that stays busy, and shows DRQ all the same ----

  ghost predicate Stuck(chs: nat -> D.Choice) { forall k: nat :: !chs(k).settles }

  lemma {:induction false} StuckWorld(w0: D.World, t: seq<Event>, chs: nat -> D.Choice, q: Request)
    requires Stuck(chs) && w0.dev.phase.Ready? && IsIo(q.op) && IsRead(q.op) && BlocksInOrder(Decode(t).acts, q)
    ensures After(w0, t, chs) == StuckAfter(Decode(t).acts, q, w0)
  {
    if t != [] {
      var init := t[..|t| - 1];
      ActsGrow(init, t);
      assert forall k: nat | k < |Decode(init).acts| :: Decode(init).acts[k] == Decode(t).acts[k];
      StuckWorld(w0, init, chs, q);
      assert !chs(|init|).settles;
      StuckStep(After(w0, init, chs), Decode(init).acts, Decode(t).acts, q, w0);
    }
  }

  // What a stuck device and the memory are like once these acts have been seen.
  function StuckAfter(acts: seq<Act>, q: Request, w0: D.World): D.World {
    D.World(w0.dev.(phase := if acts == [] then D.Ready else D.Working(D.ToIn(D.LbaOf(q, 0)))),
            if |acts| <= 1 then w0.mem else [])
  }

  lemma StuckStep(w: D.World, before: seq<Act>, after: seq<Act>, q: Request, w0: D.World)
    requires IsIo(q.op) && IsRead(q.op) && BlocksInOrder(after, q) && before <= after && |after| <= |before| + 1
    requires w == StuckAfter(before, q, w0)
    ensures (if |after| == |before| then w else D.OnAct(w, after[|after| - 1])) == StuckAfter(after, q, w0)
  {
    if |after| > |before| { assert after[|before|] == after[|after| - 1]; }
  }

  function SlowEnv(i: nat): Env { Env(if i <= 4 then 0x50 else 0x80, 0x80, 0x80, _ => []) }

  function SlowReady(i: nat): u8 { 0x88 }

  lemma SlowIsPrompt(i: nat)
    ensures Prompt(SlowReady(i), SlowEnv(i))
  {
  }

  lemma {:induction false} PromptKeeps(q: Request, cs: seq<Ctx>, readies: nat -> u8, envs: nat -> Env, i: nat)
    requires PromptRequest(q, cs, readies, envs) && i < |cs|
    ensures IoInv(cs[i], q)
  {
    if i == 0 {
      BeginQuiet(START.(op := q.op, step := IoIssueSelect, lba := q.lba, left := q.count, batch := 0,
                        ptr := q.ptr, delay := 0), QUIET_LANDING);
    } else {
      var c, ready := cs[i - 1], readies(i - 1);
      PromptKeeps(q, cs, readies, envs, i - 1);
      IrqQuiet(c, ready);
      QuietKeeps(c, Irq(c, ready), q);
      TickKeeps(PromptIrq(c, ready), envs(i - 1), q);
    }
  }

  // What such a device may show at tick i.
  lemma SlowAllowed(q: Request, cs: seq<Ctx>, w0: D.World, chs: nat -> D.Choice, i: nat)
    requires PromptRequest(q, cs, SlowReady, SlowEnv) && i + 1 < |cs| && IsRead(q.op)
    requires Stuck(chs) && w0.dev.phase.Ready?
    ensures cs[i].delay > 0 ==> Allowed(D.Honest, SlowEnv(i).delaySt, w0, cs[i].trace, chs)
    ensures cs[i].step.IoWaitIrq? ==> Allowed(D.Honest, 0x80, w0, cs[i].trace, chs)
    ensures cs[i].step.IoWaitIrq? ==> Allowed(D.Honest, 0x88, w0, cs[i].trace, chs)
  {
    var c := cs[i];
    PromptKeeps(q, cs, SlowReady, SlowEnv, i);
    FollowsInOrder(c, q);
    EightTicksABlock(START, q, cs, SlowReady, SlowEnv, i);
    ActsAt(c, q, i);
    StuckWorld(w0, c.trace, chs, q);
    if i <= 4 { StuckAllowed(0x50, w0, c.trace, chs, q); } else {
      StuckAllowed(0x80, w0, c.trace, chs, q);
      StuckAllowed(0x88, w0, c.trace, chs, q);
    }
  }

  lemma StuckAllowed(st: u8, w0: D.World, t0: seq<Event>, chs: nat -> D.Choice, q: Request)
    requires Stuck(chs) && w0.dev.phase.Ready? && IsIo(q.op) && IsRead(q.op) && BlocksInOrder(Decode(t0).acts, q)
    requires D.Honest(After(w0, t0, chs).dev.phase, st)
    ensures Allowed(D.Honest, st, w0, t0, chs)
  {
    StuckWorld(w0, t0, chs, q);
    forall t | t0 <= t && Decode(t).acts == Decode(t0).acts ensures D.Honest(After(w0, t, chs).dev.phase, st) {
      StuckWorld(w0, t, chs, q);
    }
  }

  // After i ticks a command is on the wire, unless these are the first five.
  lemma ActsAt(c: Ctx, q: Request, i: nat)
    requires IoInv(c, q) && i < 8 * q.count && GistOf(c) == GistAt(q, i)
    ensures Decode(c.trace).acts == [] <==> i <= 4
  {
    ScriptLength(q, GAP, q.count - c.left);
  }

  lemma {:induction false} SlowShows(q: Request, cs: seq<Ctx>, w0: D.World, chs: nat -> D.Choice, i: nat)
    requires PromptRequest(q, cs, SlowReady, SlowEnv) && i < |cs| && IsRead(q.op)
    requires Stuck(chs) && w0.dev.phase.Ready?
    ensures Shows(D.Honest, w0, cs[i].trace, chs)
  {
    if i > 0 {
      var c := cs[i - 1];
      SlowShows(q, cs, w0, chs, i - 1);
      SlowAllowed(q, cs, w0, chs, i - 1);
      SlowIsPrompt(i - 1);
      Shape(q, cs, SlowReady, SlowEnv, i - 1);
      SlowTick(c, SlowEnv(i - 1), w0, chs);
      assert cs[i] == PromptTick(c, SlowReady(i - 1), SlowEnv(i - 1));
    }
  }

  lemma SlowTick(c: Ctx, env: Env, w0: D.World, chs: nat -> D.Choice)
    requires Sane(c) && IsIo(c.op) && c.batch <= 1 && Calm(env) && env.st1 == 0x80 && env.st2 == 0x80
    requires Shows(D.Honest, w0, c.trace, chs)
    requires c.delay > 0 ==> c.step.IoIssueTaskfile? && Allowed(D.Honest, env.delaySt, w0, c.trace, chs)
    requires c.step.IoWaitIrq? ==> Allowed(D.Honest, 0x80, w0, c.trace, chs)
    requires c.step.IoWaitIrq? ==> Allowed(D.Honest, 0x88, w0, c.trace, chs)
    ensures Shows(D.Honest, w0, PromptTick(c, 0x88, env).trace, chs)
  {
    SlowIrq(c, w0, chs);
    TickShows(D.Honest, PromptIrq(c, 0x88), env, w0, chs);
  }

  lemma SlowIrq(c: Ctx, w0: D.World, chs: nat -> D.Choice)
    requires Shows(D.Honest, w0, c.trace, chs)
    requires c.step.IoWaitIrq? ==> Allowed(D.Honest, 0x80, w0, c.trace, chs)
    requires c.step.IoWaitIrq? ==> Allowed(D.Honest, 0x88, w0, c.trace, chs)
    ensures var c1 := PromptIrq(c, 0x88);
      Shows(D.Honest, w0, c1.trace, chs) && (c.step.IoWaitIrq? ==> Allowed(D.Honest, 0x80, w0, c1.trace, chs))
  {
    if c.step.IoWaitIrq? && c.batch == 1 {
      DecodeOne(c.trace, IrqStatusIn(0x88));
      ShowsIrq(D.Honest, c, 0x88, w0, chs);
      IrqQuiet(c, 0x88);
      AllowedLater(D.Honest, 0x80, w0, c.trace, Irq(c, 0x88).trace, chs);
    }
  }

  lemma AllowedLater(ok: (D.Phase, u8) -> bool, st: u8, w0: D.World, t0: seq<Event>, t1: seq<Event>,
                     chs: nat -> D.Choice)
    requires Allowed(ok, st, w0, t0, chs) && t0 <= t1 && Decode(t1).acts == Decode(t0).acts
    ensures Allowed(ok, st, w0, t1, chs)
  {
  }

  // A whole run: command accepted, DRQ shown with BSY, the read done, and not one right word.
  // The device is honest throughout.
  lemma SlowReadIsWrong(q: Request, cs: seq<Ctx>, w0: D.World, chs: nat -> D.Choice)
    requires PromptRequest(q, cs, SlowReady, SlowEnv) && |cs| == 8 * q.count + 1 && IsRead(q.op)
    requires Stuck(chs) && w0.dev.phase.Ready? && q.ptr + 256 * q.count <= |w0.mem|
    ensures var c := cs[8 * q.count];
      && c.step.IoDone? && Shows(D.Honest, w0, c.trace, chs)
      && After(w0, c.trace, chs).mem == [] != D.CopyIn(w0.dev.disk, w0.mem, q, q.count)
  {
    var c := cs[8 * q.count];
    EightTicksABlock(START, q, cs, SlowReady, SlowEnv, 8 * q.count);
    PromptKeeps(q, cs, SlowReady, SlowEnv, 8 * q.count);
    SlowShows(q, cs, w0, chs, 8 * q.count);
    FollowsInOrder(c, q);
    ScriptLength(q, GAP, q.count);
    StuckWorld(w0, c.trace, chs, q);
  }

  // There is such a run for every request.
  lemma {:induction false} SlowRun(q: Request, n: nat) returns (cs: seq<Ctx>)
    requires Fits(q) && n <= 8 * q.count
    ensures PromptRequest(q, cs, SlowReady, SlowEnv) && |cs| == n + 1
  {
    forall i: nat ensures Prompt(SlowReady(i), SlowEnv(i)) { SlowIsPrompt(i); }
    if n == 0 {
      cs := [BeginIo(START, q, QUIET_LANDING)];
    } else {
      var cs1 := SlowRun(q, n - 1);
      var c := cs1[n - 1];
      EightTicksABlock(START, q, cs1, SlowReady, SlowEnv, n - 1);
      NextGist(q, n - 1);
      PromptTickGist(c, SlowReady(n - 1), SlowEnv(n - 1));
      cs := cs1 + [PromptTick(c, SlowReady(n - 1), SlowEnv(n - 1))];
      forall i: nat | i < |cs| - 1 ensures Sane(cs[i]) && cs[i + 1] == PromptTick(cs[i], SlowReady(i), SlowEnv(i)) {
        if i < n - 1 { assert cs[i] == cs1[i] && cs[i + 1] == cs1[i + 1]; }
      }
    }
  }
}
