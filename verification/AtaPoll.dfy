/** The polling driver: wait, program the task file, wait for data, move a block. */
module AtaPoll {
  import opened Words
  import opened AtaStatus
  import opened AtaWire
  import opened AtaDevice

  const IDLE_TIMEOUT: nat := 100000000
  const DRQ_TIMEOUT: nat := 10000000

  // What the device would like to answer next; a dishonest wish is replaced.
  datatype Answer = Answer(st: u8, choice: Choice)

  function Shown(p: Phase, st: u8): (r: u8)
    ensures Honest(p, r)
  {
    if Honest(p, st) then st else if Busy(p) then SR_BSY else if p.Failed? then 0x41 else 0
  }

  // The device after n more accesses that are no commands and no transfers.
  function Rest(d: Dev, answers: nat -> Answer, c: nat, n: nat): Dev {
    if n == 0 then d else Settle(Rest(d, answers, c, n - 1), answers(c + n - 1).choice)
  }

  lemma {:induction false} RestLater(d: Dev, answers: nat -> Answer, c: nat, n: nat)
    ensures Later(d, Rest(d, answers, c, n))
  {
    if n > 0 {
      RestLater(d, answers, c, n - 1);
      SettleLater(Rest(d, answers, c, n - 1), answers(c + n - 1).choice);
      LaterTwice(d, Rest(d, answers, c, n - 1), Rest(d, answers, c, n));
    }
  }

  // The status read as number i from clock c on.
  function StatusAt(d: Dev, answers: nat -> Answer, c: nat, i: nat): u8 {
    Shown(Rest(d, answers, c, i + 1).phase, answers(c + i).st)
  }

  predicate IdleNow(st: u8) { st != 0xFF && !Bsy(st) && !ErrOrDf(st) && Drdy(st) }
  predicate NotYetIdle(st: u8) { st != 0xFF && (Bsy(st) || (!ErrOrDf(st) && !Drdy(st))) }
  predicate DrqNow(st: u8) { st != 0xFF && !Bsy(st) && !ErrOrDf(st) && Drq(st) }
  predicate NotYetDrq(st: u8) { st != 0xFF && (Bsy(st) || (!ErrOrDf(st) && !Drq(st))) }

  // What each wait makes of a status, by its bits: 0 ERR, 3 DRQ, 5 DF, 6 DRDY, 7 BSY. It gives up
  // on a floating bus, and on a failure once BSY is clear.
  lemma WaitWords(st: u8)
    ensures IdleNow(st) <==> st / 128 == 0 && st / 64 % 2 == 1 && st / 32 % 2 == 0 && st % 2 == 0
    ensures NotYetIdle(st) <==>
      (st / 128 == 1 && st != 0xFF) || (st / 128 == 0 && st / 64 % 2 == 0 && st / 32 % 2 == 0 && st % 2 == 0)
    ensures DrqNow(st) <==> st / 128 == 0 && st / 32 % 2 == 0 && st / 8 % 2 == 1 && st % 2 == 0
    ensures NotYetDrq(st) <==>
      (st / 128 == 1 && st != 0xFF) || (st / 128 == 0 && st / 32 % 2 == 0 && st / 8 % 2 == 0 && st % 2 == 0)
    ensures (!IdleNow(st) && !NotYetIdle(st)) || (!DrqNow(st) && !NotYetDrq(st)) <==>
      st == 0xFF || (st < 128 && (st / 32 % 2 == 1 || st % 2 == 1))
  {
  }

  // Status i is the first that is not an answer to wait on, and it says idle, or DRQ.
  ghost predicate IdleAfter(d: Dev, answers: nat -> Answer, c: nat, i: nat) {
    && IdleNow(StatusAt(d, answers, c, i))
    && forall j: nat | j < i :: NotYetIdle(StatusAt(d, answers, c, j))
  }

  ghost predicate DrqAfter(d: Dev, answers: nat -> Answer, c: nat, i: nat) {
    && DrqNow(StatusAt(d, answers, c, i))
    && forall j: nat | j < i :: NotYetDrq(StatusAt(d, answers, c, j))
  }

  ghost predicate IdleWithin(d: Dev, answers: nat -> Answer, c: nat, n: nat) {
    exists i: nat :: i < n && IdleAfter(d, answers, c, i)
  }

  ghost predicate DrqWithin(d: Dev, answers: nat -> Answer, c: nat, n: nat) {
    exists i: nat :: i < n && DrqAfter(d, answers, c, i)
  }

  // Ready, or storing the last block.
  predicate Resting(p: Phase) { p.Ready? || Storing(p) }

  // Offering data, or on the way to it.
  predicate Serving(p: Phase) { Offering(p) || (p.Working? && (p.next.ToIn? || p.next.ToOut?)) }

  // A device that never fails and answers every wait in time.
  ghost predicate Obliging(answers: nat -> Answer) { ObligingBehind(4, answers, IDLE_TIMEOUT) }

  // Behind a counter, for the code that only carries it (see PageTable.Behind).
  ghost predicate ObligingBehind(n: nat, answers: nat -> Answer, timeout: nat)
    decreases n, timeout
  {
    if n > 0 then ObligingBehind(n - 1, answers, timeout) else Flawless(answers) && InTime(answers)
  }

  lemma OpenObliging(answers: nat -> Answer)
    ensures Obliging(answers) <==> Flawless(answers) && InTime(answers)
  {
    assert ObligingBehind(1, answers, IDLE_TIMEOUT) <==> Flawless(answers) && InTime(answers);
    assert ObligingBehind(3, answers, IDLE_TIMEOUT) <==> ObligingBehind(1, answers, IDLE_TIMEOUT);
  }

  // Waiting for such a device succeeds.
  lemma Obliged(d: Dev, answers: nat -> Answer, c: nat)
    requires Obliging(answers)
    ensures Resting(d.phase) ==> IdleWithin(d, answers, c, IDLE_TIMEOUT)
    ensures Serving(d.phase) ==> DrqWithin(d, answers, c, DRQ_TIMEOUT)
  {
    OpenObliging(answers);
  }

  lemma RestObliged(d: Dev, answers: nat -> Answer, c: nat, n: nat)
    requires Obliging(answers)
    ensures Resting(d.phase) ==> Resting(Rest(d, answers, c, n).phase)
    ensures Serving(d.phase) ==> Serving(Rest(d, answers, c, n).phase)
  {
    OpenObliging(answers);
    RestWell(d, answers, c, n);
  }

  ghost predicate Flawless(answers: nat -> Answer) { forall c: nat :: answers(c).choice.well }

  ghost predicate InTime(answers: nat -> Answer) {
    && (forall d: Dev, c: nat | Resting(d.phase) :: IdleWithin(d, answers, c, IDLE_TIMEOUT))
    && (forall d: Dev, c: nat | Serving(d.phase) :: DrqWithin(d, answers, c, DRQ_TIMEOUT))
  }

  lemma {:induction false} RestWell(d: Dev, answers: nat -> Answer, c: nat, n: nat)
    requires Flawless(answers)
    ensures Resting(d.phase) ==> Resting(Rest(d, answers, c, n).phase)
    ensures Serving(d.phase) ==> Serving(Rest(d, answers, c, n).phase)
  {
    if n > 0 {
      RestWell(d, answers, c, n - 1);
      assert answers(c + n - 1).choice.well;
    }
  }

  // Wishing for 40h and 48h in turn, and done with its work at every other access, a device is
  // ready or requests data within three reads.
  function InTurn(c: nat): Answer { Answer(if c % 2 == 0 then 0x40 else 0x48, Choice(c % 2 == 0, true, BLANK)) }

  lemma ObligingDevice()
    ensures Obliging(InTurn)
  {
    OpenObliging(InTurn);
    forall d: Dev, c: nat | Resting(d.phase) ensures IdleWithin(d, InTurn, c, IDLE_TIMEOUT) {
      IdleInTurn(d, c);
    }
    forall d: Dev, c: nat | Serving(d.phase) ensures DrqWithin(d, InTurn, c, DRQ_TIMEOUT) {
      DrqInTurn(d, c);
    }
  }

  lemma RestSteps(d: Dev, c: nat)
    ensures var d1 := Settle(d, InTurn(c).choice);
      && Rest(d, InTurn, c, 1) == d1
      && Rest(d, InTurn, c, 2) == Settle(d1, InTurn(c + 1).choice)
      && Rest(d, InTurn, c, 3) == Settle(Settle(d1, InTurn(c + 1).choice), InTurn(c + 2).choice)
  {
    assert Rest(d, InTurn, c, 0) == d;
    assert Rest(d, InTurn, c, 1) == Settle(Rest(d, InTurn, c, 0), InTurn(c).choice);
    assert Rest(d, InTurn, c, 2) == Settle(Rest(d, InTurn, c, 1), InTurn(c + 1).choice);
    assert Rest(d, InTurn, c, 3) == Settle(Rest(d, InTurn, c, 2), InTurn(c + 2).choice);
  }

  lemma IdleInTurn(d: Dev, c: nat)
    requires Resting(d.phase)
    ensures IdleWithin(d, InTurn, c, IDLE_TIMEOUT)
  {
    RestSteps(d, c);
    assert IdleAfter(d, InTurn, c, c % 2);
  }

  lemma DrqInTurn(d: Dev, c: nat)
    requires Serving(d.phase)
    ensures DrqWithin(d, InTurn, c, DRQ_TIMEOUT)
  {
    RestSteps(d, c);
    assert DrqAfter(d, InTurn, c, if c % 2 == 0 then 1 else if Busy(d.phase) then 2 else 0);
  }

  class Poller {
    const mem: array<u16>
    const answers: nat -> Answer
    var clock: nat    // accesses so far
    var statusReads: nat
    var wire: Wire
    var dev: Dev

    constructor (mem: array<u16>, answers: nat -> Answer, dev: Dev)
      ensures this.mem == mem && this.answers == answers && this.dev == dev
      ensures clock == 0 && statusReads == 0 && wire == RESET
    {
      this.mem, this.answers, this.dev := mem, answers, dev;
      clock, statusReads, wire := 0, 0, RESET;
    }

    // ---- Ports ----

    // What every access gives the device: time.
    method Pass()
      modifies `clock, `dev
      ensures dev == Settle(old(dev), answers(old(clock)).choice) && clock == old(clock) + 1
    {
      dev := Settle(dev, answers(clock).choice);
      clock := clock + 1;
    }

    method Outb(port: nat, val: u8)
      modifies `clock, `wire, `dev
      ensures wire == Take(old(wire), Out(port, val)) && clock == old(clock) + 1
      ensures var d := Settle(old(dev), answers(old(clock)).choice);
        dev == if port == 0x1F7 then OnCommand(d, Issue(old(wire).regs, val)) else d
    {
      Pass();
      if port == 0x1F7 { dev := OnCommand(dev, Issue(wire.regs, val)); }
      wire := Take(wire, Out(port, val));
    }

    method StatusGet() returns (st: u8)
      modifies `clock, `statusReads, `dev
      ensures dev == Settle(old(dev), answers(old(clock)).choice) && st == Shown(dev.phase, answers(old(clock)).st)
      ensures clock == old(clock) + 1 && statusReads == old(statusReads) + 1
    {
      Pass();
      st := Shown(dev.phase, answers(clock - 1).st);
      statusReads := statusReads + 1;
    }

    // Four reads of alternate status: the 400 ns delay.
    method Delay400()
      modifies `clock, `wire, `dev
      ensures wire == old(wire).(regs := old(wire).regs.(gap := old(wire).regs.gap + 4))
      ensures dev == Rest(old(dev), answers, old(clock), 4) && Later(old(dev), dev)
    {
      ghost var d0, c0 := dev, clock;
      var i := 0;
      while i < 4
        invariant i <= 4 && clock == c0 + i && dev == Rest(d0, answers, c0, i)
        invariant wire == old(wire).(regs := old(wire).regs.(gap := old(wire).regs.gap + i))
      {
        Pass();
        wire := Take(wire, AltIn(0));
        i := i + 1;
      }
      RestLater(d0, answers, c0, 4);
    }

    // rep insw of one block.
    method Insw(ptr: nat)
      requires dev.phase.DataIn? && ptr + 256 <= mem.Length
      modifies `wire, `clock, `dev, mem
      ensures wire == Take(old(wire), InWords(ptr, 256)) && dev == old(dev).(phase := Ready)
      ensures mem[..] == Spliced(old(mem[..]), ptr, At(dev.disk, old(dev).phase.lba))
    {
      Pass();
      var sector := At(dev.disk, dev.phase.lba);
      var i := 0;
      while i < 256
        modifies mem
        invariant i <= 256
        invariant mem[..ptr] == old(mem[..ptr]) && mem[ptr + 256..] == old(mem[ptr + 256..])
        invariant mem[ptr..ptr + i] == sector[..i]
      {
        mem[ptr + i] := sector[i];
        i := i + 1;
      }
      assert mem[..] == mem[..ptr] + mem[ptr..ptr + 256] + mem[ptr + 256..];
      assert old(mem[..ptr]) == old(mem[..])[..ptr] && old(mem[ptr + 256..]) == old(mem[..])[ptr + 256..];
      assert sector[..256] == sector;
      wire := Take(wire, InWords(ptr, 256));
      dev := dev.(phase := Ready);
    }

    // rep outsw of one block: the device is busy with it.
    method Outsw(ptr: nat)
      requires dev.phase.DataOut? && ptr + 256 <= mem.Length
      modifies `wire, `clock, `dev
      ensures wire == Take(old(wire), OutWords(ptr, 256))
      ensures dev == old(dev).(phase := Working(ToStore(old(dev).phase.lba, mem[ptr..ptr + 256])))
    {
      Pass();
      dev := dev.(phase := Working(ToStore(dev.phase.lba, mem[ptr..ptr + 256])));
      wire := Take(wire, OutWords(ptr, 256));
    }

    // ---- Waiting ----

    method WaitIdle() returns (ok: bool)
      modifies `clock, `statusReads, `dev
      ensures ok <==> IdleWithin(old(dev), answers, old(clock), 100_000_000)
      ensures Later(old(dev), dev) && (ok ==> !Busy(dev.phase) && !dev.phase.Failed?)
      ensures old(statusReads) <= statusReads <= old(statusReads) + 100_000_000
    {
      var timeout := IDLE_TIMEOUT;
      ghost var d0, c0, n := dev, clock, 0;
      while timeout > 0
        invariant n == IDLE_TIMEOUT - timeout && clock == c0 + n && dev == Rest(d0, answers, c0, n)
        invariant old(statusReads) <= statusReads <= old(statusReads) + n
        invariant forall j: nat | j < n :: NotYetIdle(StatusAt(d0, answers, c0, j))
      {
        timeout := timeout - 1;
        var st := StatusGet();
        assert st == StatusAt(d0, answers, c0, n);
        RestLater(d0, answers, c0, n + 1);
        if st == 0xFF { return false; }
        n := n + 1;
        var bsy := TestBits(st, SR_BSY);
        if bsy { continue; }
        var bad := TestBits(st, SR_ERR_DF);
        if bad { return false; }
        var drdy := TestBits(st, SR_DRDY);
        if !drdy { continue; }
        assert IdleAfter(d0, answers, c0, n - 1);
        return true;
      }
      RestLater(d0, answers, c0, n);
      return false;
    }

    method WaitDrq() returns (ok: bool)
      modifies `clock, `statusReads, `dev
      ensures ok <==> DrqWithin(old(dev), answers, old(clock), 10_000_000)
      ensures Later(old(dev), dev) && (ok ==> Offering(dev.phase))
      ensures old(statusReads) <= statusReads <= old(statusReads) + 10_000_000
    {
      var timeout := DRQ_TIMEOUT;
      ghost var d0, c0, n := dev, clock, 0;
      while timeout > 0
        invariant n == DRQ_TIMEOUT - timeout && clock == c0 + n && dev == Rest(d0, answers, c0, n)
        invariant old(statusReads) <= statusReads <= old(statusReads) + n
        invariant forall j: nat | j < n :: NotYetDrq(StatusAt(d0, answers, c0, j))
      {
        timeout := timeout - 1;
        var st := StatusGet();
        assert st == StatusAt(d0, answers, c0, n);
        RestLater(d0, answers, c0, n + 1);
        if st == 0xFF { return false; }
        n := n + 1;
        var bsy := TestBits(st, SR_BSY);
        if bsy { continue; }
        var bad := TestBits(st, SR_ERR_DF);
        if bad { return false; }
        var drq := TestBits(st, SR_DRQ);
        if drq {
          assert DrqAfter(d0, answers, c0, n - 1);
          return true;
        }
      }
      RestLater(d0, answers, c0, n);
      return false;
    }

    // ---- Commands ----

    method Lba28Set(lba: u32)
      modifies `clock, `wire, `dev
      ensures (!Busy(old(dev).phase) ==> dev == old(dev)) && wire.acts == old(wire).acts
      ensures wire.regs.gap == 4 && wire.regs.drive == 0xE0 + lba / 0x100_0000 % 16
      ensures wire.regs.low.cur == Byte0(lba) && wire.regs.mid.cur == Byte1(lba) && wire.regs.high.cur == Byte2(lba)
    {
      Outb(REG_LBA_LOW, Byte0(lba));
      Outb(REG_LBA_MID, Byte1(lba));
      Outb(REG_LBA_HIGH, Byte2(lba));
      DriveByteIs(lba);
      Outb(REG_DRIVE_SEL, DriveByte(lba));
      Delay400();
    }

    method Lba48Set(lba: u64, sectorCount: u32)
      modifies `clock, `wire, `dev
      ensures (!Busy(old(dev).phase) ==> dev == old(dev)) && wire.acts == old(wire).acts && wire.regs.gap == 8
      ensures wire.regs.drive == 0xE0
      ensures Lba48(wire.regs) == lba % 0x1_0000_0000_0000
      ensures Sectors(wire.regs, true) == if sectorCount % 65536 == 0 then 65536 else sectorCount % 65536
    {
      var countHigh, countLow := 0, 0;
      if sectorCount != 65536 {
        countHigh, countLow := sectorCount / 256 % 256, sectorCount % 256;
      }
      Outb(REG_DRIVE_SEL, DH_LBA_MASTER);
      Delay400();
      FourBytes(countHigh, Byte3(lba), Byte4(lba), Byte5(lba));
      FourBytes(countLow, Byte0(lba), Byte1(lba), Byte2(lba));
      Bytes48(lba);
      CountBytes(sectorCount);
      Delay400();
    }

    // The writes of one half of a 48-bit address, with its half of the count.
    method FourBytes(count: u8, low: u8, mid: u8, high: u8)
      modifies `clock, `wire, `dev
      ensures !Busy(old(dev).phase) ==> dev == old(dev)
      ensures var r := old(wire).regs;
        wire == old(wire).(regs := r.(count := Push(r.count, count), low := Push(r.low, low),
                                      mid := Push(r.mid, mid), high := Push(r.high, high)))
    {
      Outb(REG_SECCOUNT, count);
      Outb(REG_LBA_LOW, low);
      Outb(REG_LBA_MID, mid);
      Outb(REG_LBA_HIGH, high);
    }

    // The command part of the four transfer functions. A device that is not busy takes it and
    // is on its way to the data.
    method IssueCommand(op: Op, lba: u64)
      requires IsIo(op) && (IsShort(op) ==> lba < 0x1_0000_0000)
      modifies `clock, `wire, `dev
      ensures wire.acts == old(wire).acts + [CmdAt(op, lba)]
      ensures !Busy(old(dev).phase) ==> Later(old(dev).(phase := Working(Wanted(op, lba % Span(op)))), dev)
      ensures !Busy(old(dev).phase) && Obliging(answers) ==> Serving(dev.phase)
      ensures wire.regs.gap == PollGap(op) + 4
    {
      ghost var d0 := dev;
      if IsShort(op) {
        Lba28Set(lba);
        Outb(REG_SECCOUNT, 1);
        Bytes28(lba);
        Outb(REG_COMMAND, Code(op));
      } else {
        Lba48Set(lba, 1);
        Outb(REG_COMMAND, Code(op));
      }
      assert !Busy(d0.phase) ==> dev == d0.(phase := Working(Wanted(op, lba % Span(op))));
      if Obliging(answers) { RestObliged(dev, answers, clock, 4); }
      Delay400();
    }

    // A command, and the wait for its data.
    method Approach(op: Op, lba: u64) returns (ok: bool)
      requires IsIo(op) && (IsShort(op) ==> lba < 0x1_0000_0000) && !Busy(dev.phase)
      modifies `clock, `statusReads, `wire, `dev
      ensures wire.acts == old(wire).acts + [CmdAt(op, lba)]
      ensures dev.disk == old(dev).disk && !Storing(dev.phase)
      ensures ok ==> dev.phase == if IsRead(op) then DataIn(lba % Span(op)) else DataOut(lba % Span(op))
      ensures Obliging(answers) ==> ok
      ensures old(statusReads) <= statusReads <= old(statusReads) + DRQ_TIMEOUT
    {
      ghost var goal := dev.(phase := Working(Wanted(op, lba % Span(op))));
      IssueCommand(op, lba);
      ghost var d1 := dev;
      if Obliging(answers) { Obliged(d1, answers, clock); }
      ok := WaitDrq();
      LaterTwice(goal, d1, dev);
    }

    // ---- Transfers ----

    // ata_disk_read_28_poll and ata_disk_read_48_poll; k blocks arrive. The disk can change
    // only by a store that was pending at the start.
    method ReadPoll(q: Request) returns (ok: bool, ghost k: nat)
      requires FitsPoll(q) && IsRead(q.op) && q.ptr + 256 * q.count <= mem.Length
      modifies `clock, `statusReads, `wire, `dev, mem
      ensures k <= q.count && mem[..] == CopyIn(dev.disk, old(mem[..]), q, k) && Landed(old(dev), dev.disk)
      ensures ok ==> k == q.count && wire.acts == old(wire).acts + Script(q, PollGap(q.op), q.count)
      ensures ok ==> !Busy(dev.phase) && !dev.phase.Failed?
      ensures Obliging(answers) && Resting(old(dev).phase) ==> ok
      ensures statusReads <= old(statusReads) + 110_000_000 * q.count + 100_000_000
    {
      var ptr, lba, left := q.ptr, q.lba, q.count;
      ghost var acts0, mem0, r0, d0 := wire.acts, mem[..], statusReads, dev;
      k := 0;
      ok := true;
      ReadStart(q, dev.disk, mem0, acts0);
      while ok && left > 0
        invariant 0 <= left <= q.count && k <= q.count && (ok ==> left + k == q.count && AtBlock(q, k, ptr, lba))
        invariant HasRead(q, k, dev.disk, mem0, mem[..]) && SinceStart(d0, dev, k)
        invariant ok ==> OnWire(q, k, acts0, wire.acts)
        invariant Obliging(answers) && Resting(d0.phase) ==> ok && Resting(dev.phase)
        invariant statusReads <= r0 + Cost(q.count - left)
        decreases ok, left
      {
        ok := ReadBlock(q, ptr, lba, k, mem0, acts0, d0);
        if ok { ptr, lba, k := ptr + 256, NextAddr(q.op, lba), k + 1; }
        left := left - 1;
      }
      if ok { ok := IdleReading(q, k, mem0, d0); }
      CostIs(q.count);
    }

    // ata_wait_idle, which keeps what was read.
    method IdleReading(q: Request, ghost k: nat, ghost mem0: seq<u16>, ghost d0: Dev) returns (ok: bool)
      requires HasRead(q, k, dev.disk, mem0, mem[..]) && SinceStart(d0, dev, k)
      modifies `clock, `statusReads, `dev
      ensures HasRead(q, k, dev.disk, mem0, mem[..]) && SinceStart(d0, dev, k)
      ensures ok ==> !Busy(dev.phase) && !dev.phase.Failed?
      ensures Obliging(answers) && Resting(old(dev).phase) ==> ok && dev.phase == Ready
      ensures old(statusReads) <= statusReads <= old(statusReads) + IDLE_TIMEOUT
    {
      ghost var d1 := dev;
      if Obliging(answers) { Obliged(d1, answers, clock); }
      ok := WaitIdle();
      StillRead(q, k, d0, d1, dev, mem0, mem[..]);
    }

    // One round: false is one of the early returns.
    method ReadBlock(q: Request, ptr: nat, lba: u64, ghost k: nat, ghost mem0: seq<u16>, ghost acts0: seq<Act>,
                     ghost d0: Dev)
      returns (ok: bool)
      requires FitsPoll(q) && IsRead(q.op) && k < q.count && q.ptr + 256 * q.count <= mem.Length
      requires AtBlock(q, k, ptr, lba) && OnWire(q, k, acts0, wire.acts)
      requires HasRead(q, k, dev.disk, mem0, mem[..]) && SinceStart(d0, dev, k)
      modifies `clock, `statusReads, `wire, `dev, mem
      ensures HasRead(q, if ok then k + 1 else k, dev.disk, mem0, mem[..])
      ensures SinceStart(d0, dev, if ok then k + 1 else k)
      ensures ok ==> OnWire(q, k + 1, acts0, wire.acts) && AtBlock(q, k + 1, ptr + 256, NextAddr(q.op, lba))
      ensures Obliging(answers) && Resting(old(dev).phase) ==> ok && Resting(dev.phase)
      ensures statusReads <= old(statusReads) + IDLE_TIMEOUT + DRQ_TIMEOUT
    {
      NextBlock(q, k, ptr, lba);
      ok := IdleReading(q, k, mem0, d0);
      if ok { ok := Fetch(q, ptr, lba, k, mem0); }
    }

    // The round of a read once the device is idle.
    method Fetch(q: Request, ptr: nat, lba: u64, ghost k: nat, ghost mem0: seq<u16>) returns (ok: bool)
      requires FitsPoll(q) && IsRead(q.op) && k < q.count && q.ptr + 256 * q.count <= mem.Length
      requires AtBlock(q, k, ptr, lba) && HasRead(q, k, dev.disk, mem0, mem[..]) && !Busy(dev.phase)
      modifies `clock, `statusReads, `wire, `dev, mem
      ensures HasRead(q, if ok then k + 1 else k, dev.disk, mem0, mem[..])
      ensures dev.disk == old(dev).disk && !Storing(dev.phase)
      ensures wire.acts == old(wire).acts + [CmdOf(q, PollGap(q.op), k)] + (if ok then [MoveOf(q, k)] else [])
      ensures Obliging(answers) ==> ok && dev.phase == Ready
      ensures old(statusReads) <= statusReads <= old(statusReads) + DRQ_TIMEOUT
    {
      WidthSpan(q, k, ptr, lba);
      ok := Approach(q.op, lba);
      if ok {
        CopyInStep(dev.disk, mem0, mem[..], q, k);
        Insw(ptr);
      }
    }

    // ata_disk_write_28_poll and ata_disk_write_48_poll; k blocks are sent. `base` is the disk
    // when the device first was idle.
    method WritePoll(q: Request) returns (ok: bool, ghost k: nat, ghost base: Disk)
      requires FitsPoll(q) && !IsRead(q.op) && q.ptr + 256 * q.count <= mem.Length
      modifies `clock, `statusReads, `wire, `dev
      ensures k <= q.count && HasWritten(q, k, base, mem[..], dev) && Landed(old(dev), base)
      ensures ok ==> k == q.count && dev.disk == CopyOut(base, mem[..], q, q.count)
      ensures ok ==> wire.acts == old(wire).acts + Script(q, PollGap(q.op), q.count)
      ensures ok ==> !Busy(dev.phase) && !dev.phase.Failed?
      ensures Obliging(answers) && Resting(old(dev).phase) ==> ok
      ensures statusReads <= old(statusReads) + 110_000_000 * q.count + 100_000_000
    {
      ghost var d0 := dev;
      ok, k, base := SendBlocks(q);
      if ok { ok, base := Settled(q, k, base, d0); }
      CostIs(q.count);
    }

    // The loop of WritePoll.
    method SendBlocks(q: Request) returns (ok: bool, ghost k: nat, ghost base: Disk)
      requires FitsPoll(q) && !IsRead(q.op) && q.ptr + 256 * q.count <= mem.Length
      modifies `clock, `statusReads, `wire, `dev
      ensures k <= q.count && HasWritten(q, k, base, mem[..], dev) && Landed(old(dev), base)
      ensures ok ==> k == q.count && OnWire(q, k, old(wire).acts, wire.acts) && (k == 0 ==> dev == old(dev))
      ensures Obliging(answers) && Resting(old(dev).phase) ==> ok && Resting(dev.phase)
      ensures statusReads <= old(statusReads) + Cost(q.count)
    {
      var ptr, lba, left := q.ptr, q.lba, q.count;
      ghost var acts0, r0, d0 := wire.acts, statusReads, dev;
      k, base := 0, dev.disk;
      ok := true;
      while ok && left > 0
        invariant 0 <= left <= q.count && k <= q.count && (ok ==> left + k == q.count && AtBlock(q, k, ptr, lba))
        invariant HasWritten(q, k, base, mem[..], dev) && Landed(d0, base) && (ok && k == 0 ==> dev == d0)
        invariant ok ==> OnWire(q, k, acts0, wire.acts)
        invariant Obliging(answers) && Resting(d0.phase) ==> ok && Resting(dev.phase)
        invariant statusReads <= r0 + Cost(q.count - left)
        decreases ok, left
      {
        ok, base := WriteBlock(q, ptr, lba, k, base, acts0, d0);
        if ok { ptr, lba, k := ptr + 256, NextAddr(q.op, lba), k + 1; }
        left := left - 1;
      }
    }

    // ata_wait_idle, and what it tells of the blocks sent so far.
    method Settled(q: Request, ghost k: nat, ghost base0: Disk, ghost d0: Dev) returns (ok: bool, ghost base: Disk)
      requires HasWritten(q, k, base0, mem[..], dev) && Landed(d0, base0) && (k == 0 ==> dev == d0)
      modifies `clock, `statusReads, `dev
      ensures HasWritten(q, k, base, mem[..], dev) && Landed(d0, base)
      ensures ok ==> !Busy(dev.phase) && !dev.phase.Failed? && dev.disk == CopyOut(base, mem[..], q, k)
      ensures Obliging(answers) && Resting(old(dev).phase) ==> ok && dev.phase == Ready
      ensures old(statusReads) <= statusReads <= old(statusReads) + IDLE_TIMEOUT
    {
      ghost var d1 := dev;
      if Obliging(answers) { Obliged(d1, answers, clock); }
      ok := WaitIdle();
      base := if k == 0 then dev.disk else base0;
      if k == 0 { LaterLands(d1, dev); } else { StillWritten(q, k, base, mem[..], d1, dev); }
    }

    method WriteBlock(q: Request, ptr: nat, lba: u64, ghost k: nat, ghost base0: Disk, ghost acts0: seq<Act>,
                      ghost d0: Dev)
      returns (ok: bool, ghost base: Disk)
      requires FitsPoll(q) && !IsRead(q.op) && k < q.count && q.ptr + 256 * q.count <= mem.Length
      requires AtBlock(q, k, ptr, lba) && OnWire(q, k, acts0, wire.acts)
      requires HasWritten(q, k, base0, mem[..], dev) && Landed(d0, base0) && (k == 0 ==> dev == d0)
      modifies `clock, `statusReads, `wire, `dev
      ensures HasWritten(q, if ok then k + 1 else k, base, mem[..], dev) && Landed(d0, base)
      ensures ok ==> OnWire(q, k + 1, acts0, wire.acts) && AtBlock(q, k + 1, ptr + 256, NextAddr(q.op, lba))
      ensures Obliging(answers) && Resting(old(dev).phase) ==> ok && Resting(dev.phase)
      ensures statusReads <= old(statusReads) + IDLE_TIMEOUT + DRQ_TIMEOUT
    {
      NextBlock(q, k, ptr, lba);
      ok, base := Settled(q, k, base0, d0);
      if ok { ok := Send(q, ptr, lba, k, base); }
    }

    // The round of a write once the device is idle.
    method Send(q: Request, ptr: nat, lba: u64, ghost k: nat, ghost base: Disk) returns (ok: bool)
      requires FitsPoll(q) && !IsRead(q.op) && k < q.count && q.ptr + 256 * q.count <= mem.Length
      requires AtBlock(q, k, ptr, lba) && dev.disk == CopyOut(base, mem[..], q, k) && !Busy(dev.phase)
      modifies `clock, `statusReads, `wire, `dev
      ensures HasWritten(q, if ok then k + 1 else k, base, mem[..], dev)
      ensures wire.acts == old(wire).acts + [CmdOf(q, PollGap(q.op), k)] + (if ok then [MoveOf(q, k)] else [])
      ensures Obliging(answers) ==> ok && Storing(dev.phase)
      ensures old(statusReads) <= statusReads <= old(statusReads) + DRQ_TIMEOUT
    {
      WidthSpan(q, k, ptr, lba);
      ok := Approach(q.op, lba);
      if ok { Outsw(ptr); }
    }
  }

  // The command for one sector.
  function CmdAt(op: Op, lba: nat): Act
    requires IsIo(op)
  {
    Cmd(Opcode(op), lba % Span(op), 1, PollGap(op), DriveOf(op, lba))
  }

  function Wanted(op: Op, lba: nat): Next { if IsRead(op) then ToIn(lba) else ToOut(lba) }

  // The memory and wire after k blocks of a request, starting from mem0 and acts0.
  ghost predicate HasRead(q: Request, k: nat, disk: Disk, mem0: seq<u16>, mem: seq<u16>) {
    q.ptr + 256 * k <= |mem0| && mem == CopyIn(disk, mem0, q, k)
  }

  // The disk once a store that was pending, if any, has ended.
  ghost predicate Landed(d: Dev, disk: Disk) {
    if Storing(d.phase) then InDoubt(d.disk, disk, d.phase.next.lba) else disk == d.disk
  }

  lemma LaterLands(d: Dev, d': Dev)
    requires Later(d, d')
    ensures Landed(d, d'.disk)
  {
  }

  // While reading only a store that was pending can change the disk, and only before the first block.
  ghost predicate SinceStart(d0: Dev, d: Dev, k: nat) {
    Landed(d0, d.disk) && if k == 0 then !Storing(d.phase) || d == d0 else !Storing(d.phase)
  }

  lemma StillRead(q: Request, k: nat, d0: Dev, d1: Dev, d: Dev, mem0: seq<u16>, mem: seq<u16>)
    requires HasRead(q, k, d1.disk, mem0, mem) && SinceStart(d0, d1, k) && Later(d1, d)
    ensures HasRead(q, k, d.disk, mem0, mem) && SinceStart(d0, d, k)
  {
    if Storing(d1.phase) { LaterLands(d1, d); }
  }

  // The disk once k blocks are sent: all of them are on it, or the last is being stored, or
  // the device shows a failure and the last is in doubt.
  ghost predicate HasWritten(q: Request, k: nat, base: Disk, mem: seq<u16>, d: Dev) {
    && q.ptr + 256 * k <= |mem|
    && (k == 0 ==> d.disk == base)
    && (k > 0 ==>
          || (d.disk == CopyOut(base, mem, q, k) && !Storing(d.phase))
          || d == Dev(Working(ToStore(LbaOf(q, k - 1), BlockOf(mem, q, k - 1))), CopyOut(base, mem, q, k - 1))
          || (d.phase.Failed? && InDoubt(CopyOut(base, mem, q, k - 1), d.disk, LbaOf(q, k - 1))))
  }

  // The disk is as wanted except perhaps for one sector.
  ghost predicate InDoubt(want: Disk, disk: Disk, lba: nat) { forall l | l != lba :: At(disk, l) == At(want, l) }

  lemma StillWritten(q: Request, k: nat, base: Disk, mem: seq<u16>, d: Dev, d': Dev)
    requires k > 0 && HasWritten(q, k, base, mem, d) && Later(d, d')
    ensures HasWritten(q, k, base, mem, d')
    ensures !Busy(d'.phase) && !d'.phase.Failed? ==> d'.disk == CopyOut(base, mem, q, k)
  {
  }

  // However a write ends, and even before it ends, sectors it does not name keep their contents.
  lemma OtherSectorsKept(q: Request, k: nat, base: Disk, mem: seq<u16>, d: Dev, l: nat)
    requires HasWritten(q, k, base, mem, d) && Unnamed(q, k, l)
    ensures At(d.disk, l) == At(base, l)
  {
    CopyOutOutside(base, mem, q, k, l);
    if k > 0 { CopyOutOutside(base, mem, q, k - 1, l); }
  }

  ghost predicate OnWire(q: Request, k: nat, acts0: seq<Act>, acts: seq<Act>) {
    IsIo(q.op) && acts == acts0 + Script(q, PollGap(q.op), k)
  }

  // The driver's pointer and address at block k.
  ghost predicate AtBlock(q: Request, k: nat, ptr: nat, lba: nat) {
    ptr == q.ptr + 256 * k && lba == (q.lba + k) % Width(q.op)
  }

  function NextAddr(op: Op, lba: nat): (r: nat)
    ensures r < TWO64
  {
    (lba + 1) % Width(op)
  }

  lemma NextBlock(q: Request, k: nat, ptr: nat, lba: nat)
    requires AtBlock(q, k, ptr, lba)
    ensures AtBlock(q, k + 1, ptr + 256, NextAddr(q.op, lba)) && NextAddr(q.op, lba) < TWO64
  {
    NextAddress(q.lba + k);
  }

  lemma ReadStart(q: Request, disk: Disk, mem0: seq<u16>, acts0: seq<Act>)
    requires FitsPoll(q) && q.ptr <= |mem0|
    ensures AtBlock(q, 0, q.ptr, q.lba) && HasRead(q, 0, disk, mem0, mem0) && OnWire(q, 0, acts0, acts0)
  {
  }

  function PollGap(op: Op): nat { if IsShort(op) then 4 else 8 }

  // The width of the address variable.
  function Width(op: Op): nat { if IsShort(op) then 0x1_0000_0000 else TWO64 }

  predicate FitsPoll(q: Request) { IsIo(q.op) && q.lba < Width(q.op) && q.count < 0x1_0000_0000 }

  // The two bytes of a sector count.
  lemma CountBytes(n: nat)
    ensures 256 * (n / 256 % 256) + n % 256 == n % 65536
  {
    var a := n / 256;
    assert n == 65536 * (a / 256) + 256 * (a % 256) + n % 256;
  }

  // What a run of rounds may cost, kept out of the loops.
  function Cost(rounds: nat): nat { rounds * (IDLE_TIMEOUT + DRQ_TIMEOUT) }

  lemma CostIs(rounds: nat)
    ensures Cost(rounds) == 110_000_000 * rounds
  {
  }

  // Block k of a request: its sector and its command, from the driver's address variable.
  lemma WidthSpan(q: Request, k: nat, ptr: nat, lba: nat)
    requires IsIo(q.op) && AtBlock(q, k, ptr, lba)
    ensures lba % Span(q.op) == LbaOf(q, k) && CmdAt(q.op, lba) == CmdOf(q, PollGap(q.op), k)
  {
    DriveWraps(q.op, q.lba + k);
    if IsShort(q.op) { WrapShort(q.lba + k); } else { WrapLong(q.lba + k); }
  }

  lemma CopyInStep(disk: Disk, mem0: seq<u16>, mem: seq<u16>, q: Request, k: nat)
    requires q.ptr + 256 * (k + 1) <= |mem0| && mem == CopyIn(disk, mem0, q, k)
    ensures CopyIn(disk, mem0, q, k + 1) == Spliced(mem, q.ptr + 256 * k, At(disk, LbaOf(q, k)))
  {
  }
}
