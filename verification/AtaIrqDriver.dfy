/** The driver itself: handlers that update the one request context in place. */
module AtaIrqDriver {
  import opened Words
  import opened AtaStatus
  import opened AtaWire
  import opened AtaIrq
  import opened AtaIrqRuns
  import opened AtaIrqTheorems

  class Driver {
    var irqFired: bool
    var lastStatus: u8
    var op: Op
    var step: Step
    var delay400: nat
    var lba: u64
    var sectorsLeft: u32
    var batchLeft: u32
    var ptr: nat
    ghost var trace: seq<Event>

    ghost function View(): Ctx
      reads this
    {
      Ctx(irqFired, lastStatus, op, step, delay400, lba, sectorsLeft, batchLeft, ptr, trace)
    }

    constructor ()
      ensures View() == START
    {
      irqFired, lastStatus, op, step, delay400 := false, 0, OpNone, Idle, 0;
      lba, sectorsLeft, batchLeft, ptr, trace := 0, 0, 0, 0, [];
    }

    // irq14_ata, with the status it reads.
    method Irq14(st: u8)
      modifies this
      ensures View() == Irq(old(View()), st)
      ensures trace == old(trace) + [IrqStatusIn(st), IrqOut(0xA0, 0x20), IrqOut(0x20, 0x20)]
    {
      lastStatus := st;
      irqFired := true;
      trace := trace + IrqEvents(st);
    }

    // The interrupts that land at one point.
    method Interrupts(sts: seq<u8>)
      modifies this
      ensures View() == Irqs(old(View()), sts)
    {
      ghost var c0 := View();
      var i := 0;
      while i < |sts|
        invariant i <= |sts|
        invariant Irqs(View(), sts[i..]) == Irqs(c0, sts)
      {
        assert sts[i..][1..] == sts[i + 1..];
        Irq14(sts[i]);
        i := i + 1;
      }
    }

    // One port access by the driver, and the interrupts right after it.
    method Access(e: Event, sts: seq<u8>)
      modifies this
      ensures View() == Put(old(View()), e, sts)
    {
      trace := trace + [e];
      Interrupts(sts);
    }

    method IrqFlagsReset(sts: seq<u8>)
      modifies this
      ensures View() == ResetFlags(old(View()), sts)
    {
      irqFired := false;
      Interrupts(sts);
      lastStatus := 0;
    }

    // Writes in a row, the k-th followed by its interrupts.
    method Accesses(es: seq<Event>, k: nat, irqs: nat -> seq<u8>)
      modifies this
      ensures View() == PutAll(old(View()), es, k, irqs)
    {
      ghost var c0 := View();
      var i := 0;
      while i < |es|
        invariant i <= |es|
        invariant PutAll(View(), es[i..], k + i, irqs) == PutAll(c0, es, k, irqs)
      {
        assert es[i..][1..] == es[i + 1..];
        Access(es[i], irqs(k + i));
        i := i + 1;
      }
    }

    method StatusIsBad(st: u8) returns (bad: bool)
      ensures bad == Bad(st)
    {
      if st == 0xFF { return true; }
      bad := TestBits(st, SR_ERR_DF);
    }

    method StatusHasDrq(st: u8) returns (drq: bool)
      ensures drq == Drq(st)
    {
      drq := TestBits(st, SR_DRQ);
    }

    method IsBusy() returns (busy: bool)
      ensures busy <==> !(step.Idle? || step.InitDone? || step.InitFail? || step.IoDone? || step.IoFail?)
    {
      if step == Idle || step == InitDone || step == InitFail || step == IoDone || step == IoFail { return false; }
      return true;
    }

    // begin_init_ata_28_irq and begin_init_ata_48_irq.
    method BeginInitIrq(o: Op, at: Landing) returns (ok: bool)
      requires IsInit(o)
      modifies this
      ensures View() == BeginInit(old(View()), o, at) && ok == old(step.Idle?)
    {
      if step != Idle { return false; }
      op, step := o, InitSelect;
      delay400 := 0;
      Interrupts(at.before);
      IrqFlagsReset(at.between);
      return true;
    }

    // The four begin_*_disk functions.
    method BeginIoIrq(q: Request, at: Landing) returns (ok: bool)
      requires IsIo(q.op) && q.lba < TWO64 && q.count < 0x1_0000_0000
      modifies this
      ensures View() == BeginIo(old(View()), q, at) && ok == (old(step.Idle?) && q.count != 0)
    {
      if step != Idle || q.count == 0 { return false; }
      op, step := q.op, IoIssueSelect;
      lba, sectorsLeft, batchLeft, ptr := q.lba, q.count, 0, q.ptr;
      delay400 := 0;
      Interrupts(at.before);
      IrqFlagsReset(at.between);
      return true;
    }

    method FinishIoStep(success: bool)
      modifies this
      ensures View() == FinishIo(old(View()), success)
    {
      step := if success then IoDone else IoFail;
      op := OpNone;
    }

    method FinishInitStep(success: bool)
      modifies this
      ensures View() == FinishInit(old(View()), success)
    {
      step := if success then InitDone else InitFail;
      op := OpNone;
    }

    method IoIssueSelectHandle(env: Env)
      modifies this
      ensures View() == IssueSelect(old(View()), env)
    {
      DriveByteIs(lba % 0x1_0000_0000);
      var b := if IsShort(op) then DriveByte(lba % 0x1_0000_0000) else DH_LBA_MASTER;
      Access(Out(REG_DRIVE_SEL, b), env.irqs(1));
      delay400 := 4;
      step := IoIssueTaskfile;
    }

    method IoIssueTaskfileHandle(env: Env)
      requires IsIo(op)
      modifies this
      ensures View() == IssueTaskfile(old(View()), env)
    {
      if sectorsLeft == 0 {
        FinishIoStep(true);
        return;
      }
      batchLeft := 1;
      ghost var c0 := View();
      if IsShort(op) {
        Accesses(Taskfile28(Code(op), lba % 0x1_0000_0000), 1, env.irqs);
      } else {
        Accesses(Taskfile48(Code(op), lba), 1, env.irqs);
      }
      IrqFlagsReset(env.irqs(20));
      step := IoWaitIrq;
    }

    method IoJudge(st: u8, env: Env)
      modifies this
      ensures View() == Judge(old(View()), st, env)
    {
      var bad := StatusIsBad(st);
      if bad { FinishIoStep(false); return; }
      var drq := StatusHasDrq(st);
      if drq { step := IoXferBlock; return; }
      if batchLeft == 0 {
        if sectorsLeft == 0 { FinishIoStep(true); return; }
        step := IoIssueSelect;
        return;
      }
      Interrupts(env.irqs(4));
      Access(AltIn(env.st2), env.irqs(2));
      bad := StatusIsBad(env.st2);
      if bad { FinishIoStep(false); return; }
      drq := StatusHasDrq(env.st2);
      if drq { step := IoXferBlock; }
    }

    method IoWaitIrqHandle(env: Env)
      modifies this
      ensures View() == WaitIrq(old(View()), env)
    {
      if irqFired {
        irqFired := false;
        Interrupts(env.irqs(1));
        IoJudge(lastStatus, env);
      } else {
        if batchLeft != 0 { return; }
        Interrupts(env.irqs(3));
        Access(AltIn(env.st1), env.irqs(1));
        IoJudge(env.st1, env);
      }
    }

    method IoXferBlockHandle(env: Env)
      requires batchLeft <= sectorsLeft
      modifies this
      ensures View() == XferBlock(old(View()), env)
    {
      var n := 1;
      if batchLeft < n { n := batchLeft; }
      if n == 0 { step := IoWaitIrq; return; }
      var words := n * 256;
      ghost var c0 := View();
      var e := if IsRead(op) then InWords(ptr, words) else OutWords(ptr, words);
      IrqsQuiet(c0.(trace := c0.trace + [e]), env.irqs(1));
      Access(e, env.irqs(1));
      ptr := ptr + words;
      lba := Add64(lba, n);
      batchLeft := batchLeft - n;
      sectorsLeft := sectorsLeft - n;
      step := IoWaitIrq;
    }

    method InitTickHandle(env: Env)
      requires IsInit(op)
      modifies this
      ensures View() == match old(step)
                        case InitSelect => InitSelectTick(old(View()), env)
                        case InitIdentifyCmd => InitCmdTick(old(View()), env)
                        case InitIdentifyWait => InitWaitTick(old(View()), env)
                        case InitIdentifyXfer => InitXferTick(old(View()), env)
                        case _ => old(View())
    {
      match step {
        case InitSelect =>
          Accesses([Out(REG_CONTROL, 0), Out(REG_DRIVE_SEL, DH_LBA_MASTER)], 1, env.irqs);
          delay400 := 4;
          step := InitIdentifyCmd;
        case InitIdentifyCmd =>
          Accesses(IDENTIFY_EVENTS, 1, env.irqs);
          IrqFlagsReset(env.irqs(20));
          step := InitIdentifyWait;
        case InitIdentifyWait => InitIdentifyWaitHandle(env);
        case InitIdentifyXfer =>
          Access(InIdentify(256), env.irqs(1));
          FinishInitStep(true);
        case _ =>
      }
    }

    method InitIdentifyWaitHandle(env: Env)
      modifies this
      ensures View() == InitWaitTick(old(View()), env)
    {
      if !irqFired { return; }
      irqFired := false;
      Interrupts(env.irqs(1));
      var bad := StatusIsBad(lastStatus);
      if bad { FinishInitStep(false); return; }
      var drq := StatusHasDrq(lastStatus);
      if drq { step := InitIdentifyXfer; return; }
      Interrupts(env.irqs(4));
      Access(AltIn(env.st2), env.irqs(2));
      bad := StatusIsBad(env.st2);
      if bad { FinishInitStep(false); return; }
      drq := StatusHasDrq(env.st2);
      if drq { step := InitIdentifyXfer; }
    }

    method DispatchStep(env: Env)
      requires Sane(View())
      modifies this
      ensures View() == Dispatch(old(View()), env)
    {
      if IsInit(op) {
        InitTickHandle(env);
      } else {
        match step {
          case IoIssueSelect => IoIssueSelectHandle(env);
          case IoIssueTaskfile => IoIssueTaskfileHandle(env);
          case IoWaitIrq => IoWaitIrqHandle(env);
          case IoXferBlock => IoXferBlockHandle(env);
          case _ =>
        }
      }
    }

    // tick_ata.
    method TickAta(env: Env)
      requires Sane(View())
      modifies this
      ensures View() == Tick(old(View()), env)
    {
      if delay400 != 0 {
        ghost var c := View();
        IrqsQuiet(c.(trace := c.trace + [AltIn(env.delaySt)]), env.irqs(0));
        Access(AltIn(env.delaySt), env.irqs(0));
        delay400 := delay400 - 1;
        if delay400 != 0 { return; }
      }
      DispatchStep(env);
    }

    // One call of the driver.
    method Call(i: Input, ghost s: Sys)
      requires SysInv(s) && Legal(i) && View() == s.ctx && Sane(s.ctx)
      modifies this
      ensures View() == Apply(s, i).ctx
    {
      match i {
        case BeginInitIn(o, at) => var _ := BeginInitIrq(o, at);
        case BeginIoIn(q, at) => var _ := BeginIoIrq(q, at);
        case TickIn(env) => TickAta(env);
        case IrqIn(st) => Irq14(st);
      }
    }

    // Any sequence of calls and interrupts, from power-on: what the ports have seen is the
    // request's script so far, and no transfer leaves the request's buffer.
    method Drive(inputs: seq<Input>) returns (ghost s: Sys)
      requires AllLegal(inputs) && View() == START
      modifies this
      ensures s == Play(inputs) && View() == s.ctx
      ensures s.phase.Serving? ==> ServesOnly(Decode(trace).acts, s.phase.q)
      ensures s.phase.Serving? && step.IoDone? ==> Decode(trace).acts == Script(s.phase.q, GAP, s.phase.q.count)
    {
      s := Play([]);
      var i := 0;
      while i < |inputs|
        invariant i <= |inputs| && s == Play(inputs[..i]) && View() == s.ctx
      {
        NextPlay(inputs, i);
        ApplyKeeps(s, inputs[i]);
        Call(inputs[i], s);
        s := Apply(s, inputs[i]);
        i := i + 1;
      }
      assert inputs[..i] == inputs;
      if s.phase.Serving? { Served(inputs, s.phase.q); }
    }
  }

  lemma NextPlay(inputs: seq<Input>, i: nat)
    requires AllLegal(inputs) && i < |inputs|
    ensures Sane(Play(inputs[..i]).ctx) && Play(inputs[..i + 1]) == Apply(Play(inputs[..i]), inputs[i])
  {
    assert inputs[..i + 1][..i] == inputs[..i];
    ApplyKeeps(Play(inputs[..i]), inputs[i]);
  }

  // The acts of a run that serves q: a prefix of its script, inside its buffer.
  ghost predicate ServesOnly(acts: seq<Act>, q: Request) {
    && IsIo(q.op) && acts <= Script(q, GAP, q.count)
    && forall a | a in acts && (a.MoveIn? || a.MoveOut?) :: q.ptr <= a.ptr && a.ptr + a.words <= q.ptr + 256 * q.count
  }

  lemma Served(inputs: seq<Input>, q: Request)
    requires AllLegal(inputs) && Play(inputs).phase == Serving(q)
    ensures ServesOnly(Acts(Play(inputs)), q)
    ensures Play(inputs).ctx.step.IoDone? ==> Acts(Play(inputs)) == Script(q, GAP, q.count)
  {
    WireFollowsScript(inputs, q);
    forall a | a in Acts(Play(inputs)) && (a.MoveIn? || a.MoveOut?)
      ensures q.ptr <= a.ptr && a.ptr + a.words <= q.ptr + 256 * q.count
    {
      TransfersStayInside(inputs, q, a);
    }
  }
}
