/** The task-file interface of an ATA device as a driver writes it: port events, the register
    file that collects them, and the commands and transfers they amount to
    (sections 6.20, 9.5 and 9.6 of ATA/ATAPI-6). */
module AtaWire {
  import opened Words

  const REG_SECCOUNT: nat := 0x1F2
  const REG_LBA_LOW: nat := 0x1F3
  const REG_LBA_MID: nat := 0x1F4
  const REG_LBA_HIGH: nat := 0x1F5
  const REG_DRIVE_SEL: nat := 0x1F6
  const REG_COMMAND: nat := 0x1F7
  const REG_CONTROL: nat := 0x3F6

  const DH_LBA_MASTER: u8 := 0xE0
  const CMD_IDENTIFY: u8 := 0xEC
  const CMD_READ_SECTORS: u8 := 0x20
  const CMD_WRITE_SECTORS: u8 := 0x30
  const CMD_READ_SECTORS_EXT: u8 := 0x24
  const CMD_WRITE_SECTORS_EXT: u8 := 0x34

  datatype Event =
    | Out(port: nat, val: u8)
    | AltIn(st: u8)                     // a read of alternate status
    | StatusIn(st: u8)                  // a read of status by the driver
    | InWords(ptr: nat, words: nat)     // insw from the data port to word `ptr` of memory
    | OutWords(ptr: nat, words: nat)    // outsw
    | InIdentify(words: nat)            // insw to the identify buffer
    | IrqStatusIn(st: u8)               // the interrupt handler's read of status
    | IrqOut(port: nat, val: u8)        // its writes to the interrupt controllers

  // ---- The register file ----

  // Each of four registers holds the last two bytes written.
  datatype Pair = Pair(prev: u8, cur: u8)

  function Push(p: Pair, v: u8): Pair { Pair(p.cur, v) }

  // `gap` counts the alternate-status reads since the drive was last selected.
  datatype Regs = Regs(count: Pair, low: Pair, mid: Pair, high: Pair, drive: u8, gap: nat)

  // READ SECTOR(S) EXT and WRITE SECTOR(S) EXT, the 48-bit commands.
  predicate IsExt(code: u8) { code == 0x24 || code == 0x34 }

  function Lba28(r: Regs): nat {
    r.low.cur + 0x100 * r.mid.cur + 0x1_0000 * r.high.cur + 0x100_0000 * (r.drive % 16)
  }

  function Lba48(r: Regs): nat {
    r.low.cur + 0x100 * r.mid.cur + 0x1_0000 * r.high.cur
    + 0x100_0000 * r.low.prev + 0x1_0000_0000 * r.mid.prev + 0x100_0000_0000 * r.high.prev
  }

  function Sectors(r: Regs, ext: bool): nat {
    if ext then (if r.count == Pair(0, 0) then 65536 else 256 * r.count.prev + r.count.cur)
    else if r.count.cur == 0 then 256 else r.count.cur
  }

  // ---- What the events amount to ----

  datatype Act =
    | Cmd(code: u8, lba: nat, sectors: nat, gap: nat, drive: nat)
    | MoveIn(ptr: nat, words: nat)
    | MoveOut(ptr: nat, words: nat)
    | Identify(words: nat)
    | Write(port: nat, val: u8)     // to a port that is none of the task file's
    | ReadStatus                    // by the driver itself, which clears a pending interrupt

  datatype Wire = Wire(regs: Regs, acts: seq<Act>)

  function Issue(r: Regs, code: u8): Act {
    var ext := IsExt(code);
    Cmd(code, if ext then Lba48(r) else Lba28(r), Sectors(r, ext), r.gap, r.drive)
  }

  // The ports are those of the primary channel, by number.
  function Take(w: Wire, e: Event): Wire {
    var r := w.regs;
    match e
    case Out(port, v) =>
      if port == 0x1F2 then w.(regs := r.(count := Push(r.count, v)))
      else if port == 0x1F3 then w.(regs := r.(low := Push(r.low, v)))
      else if port == 0x1F4 then w.(regs := r.(mid := Push(r.mid, v)))
      else if port == 0x1F5 then w.(regs := r.(high := Push(r.high, v)))
      else if port == 0x1F6 then w.(regs := r.(drive := v, gap := 0))
      else if port == 0x1F7 then w.(acts := w.acts + [Issue(r, v)])
      else w.(acts := w.acts + [Write(port, v)])
    case AltIn(_) => w.(regs := r.(gap := r.gap + 1))
    case InWords(ptr, n) => w.(acts := w.acts + [MoveIn(ptr, n)])
    case OutWords(ptr, n) => w.(acts := w.acts + [MoveOut(ptr, n)])
    case InIdentify(n) => w.(acts := w.acts + [Identify(n)])
    case StatusIn(_) => w.(acts := w.acts + [ReadStatus])
    case IrqStatusIn(_) => w
    case IrqOut(_, _) => w
  }

  const RESET: Wire := Wire(Regs(Pair(0, 0), Pair(0, 0), Pair(0, 0), Pair(0, 0), 0, 0), [])

  // Reading a trace from the front.
  function Decode(trace: seq<Event>): Wire {
    if trace == [] then RESET else Take(Decode(trace[..|trace| - 1]), trace[|trace| - 1])
  }

  function TakeAll(w: Wire, es: seq<Event>): Wire
    decreases |es|
  {
    if es == [] then w else TakeAll(Take(w, es[0]), es[1..])
  }

  lemma DecodeOne(trace: seq<Event>, e: Event)
    ensures Decode(trace + [e]) == Take(Decode(trace), e)
  {
    assert (trace + [e])[..|trace|] == trace;
  }

  lemma {:induction false} DecodeMore(trace: seq<Event>, es: seq<Event>)
    ensures Decode(trace + es) == TakeAll(Decode(trace), es)
    decreases |es|
  {
    if es == [] {
      assert trace + es == trace;
    } else {
      assert trace + es == (trace + [es[0]]) + es[1..];
      DecodeMore(trace + [es[0]], es[1..]);
      DecodeOne(trace, es[0]);
    }
  }

  // ---- Requests ----

  datatype Op = OpNone | Init28 | Init48 | Read28 | Write28 | Read48 | Write48

  predicate IsIo(op: Op) { op.Read28? || op.Write28? || op.Read48? || op.Write48? }
  predicate IsShort(op: Op) { op.Read28? || op.Write28? }
  predicate IsRead(op: Op) { op.Read28? || op.Read48? }

  function Code(op: Op): u8
    requires IsIo(op)
  {
    match op
    case Read28 => CMD_READ_SECTORS
    case Write28 => CMD_WRITE_SECTORS
    case Read48 => CMD_READ_SECTORS_EXT
    case Write48 => CMD_WRITE_SECTORS_EXT
  }

  // How many sectors an address of the operation's width can name.
  function Span(op: Op): nat { if IsShort(op) then 0x1000_0000 else 0x1_0000_0000_0000 }

  datatype Request = Request(op: Op, lba: nat, ptr: nat, count: nat)

  // The command that the operation stands for, by its number in the standard.
  function Opcode(op: Op): u8
    requires IsIo(op)
  {
    match op
    case Read28 => 0x20
    case Write28 => 0x30
    case Read48 => 0x24
    case Write48 => 0x34
  }

  // What the drive register has to hold: drive 0, LBA mode, and bits 24 to 27 of a 28-bit address.
  function DriveOf(op: Op, lba: nat): nat { if IsShort(op) then 0xE0 + lba / 0x100_0000 % 16 else 0xE0 }

  // Block i of a request: its command, with `gap` alternate-status reads after the drive
  // select, and its transfer.
  function CmdOf(q: Request, gap: nat, i: nat): Act
    requires IsIo(q.op)
  {
    Cmd(Opcode(q.op), (q.lba + i) % Span(q.op), 1, gap, DriveOf(q.op, q.lba + i))
  }

  function MoveOf(q: Request, i: nat): Act {
    if IsRead(q.op) then MoveIn(q.ptr + 256 * i, 256) else MoveOut(q.ptr + 256 * i, 256)
  }

  // The first n blocks: one single-sector command and one transfer each, in order.
  function Script(q: Request, gap: nat, n: nat): seq<Act>
    requires IsIo(q.op)
  {
    if n == 0 then [] else Script(q, gap, n - 1) + [CmdOf(q, gap, n - 1), MoveOf(q, n - 1)]
  }

  lemma {:induction false} ScriptLength(q: Request, gap: nat, n: nat)
    requires IsIo(q.op)
    ensures |Script(q, gap, n)| == 2 * n
  {
    if n > 0 { ScriptLength(q, gap, n - 1); }
  }

  lemma {:induction false} ScriptPrefix(q: Request, gap: nat, m: nat, n: nat)
    requires IsIo(q.op) && m <= n
    ensures Script(q, gap, m) <= Script(q, gap, n)
    ensures m < n ==> Script(q, gap, m) + [CmdOf(q, gap, m)] <= Script(q, gap, n)
    decreases n
  {
    ScriptLength(q, gap, m);
    if m < n {
      ScriptLength(q, gap, n - 1);
      ScriptPrefix(q, gap, m, n - 1);
    }
  }

  // Entry 2i is block i's command, entry 2i + 1 its transfer.
  lemma {:induction false} ScriptAt(q: Request, gap: nat, n: nat, i: nat)
    requires IsIo(q.op) && i < n
    ensures |Script(q, gap, n)| == 2 * n
    ensures Script(q, gap, n)[2 * i] == CmdOf(q, gap, i) && Script(q, gap, n)[2 * i + 1] == MoveOf(q, i)
  {
    ScriptLength(q, gap, n - 1);
    if i < n - 1 { ScriptAt(q, gap, n - 1, i); }
  }

  // Every entry of a script belongs to one of its blocks.
  lemma {:induction false} ScriptEntry(q: Request, gap: nat, n: nat, k: nat) returns (i: nat)
    requires IsIo(q.op) && k < |Script(q, gap, n)|
    ensures i < n && (Script(q, gap, n)[k] == CmdOf(q, gap, i) || Script(q, gap, n)[k] == MoveOf(q, i))
  {
    i := n - 1;
    if k < |Script(q, gap, n - 1)| { i := ScriptEntry(q, gap, n - 1, k); }
  }

  // ---- The bytes of an address ----

  // Byte i of an address, as the casts (uint8_t)(lba >> 8 i) give it.
  function Byte0(lba: nat): u8 { lba % 256 }
  function Byte1(lba: nat): u8 { lba / 0x100 % 256 }
  function Byte2(lba: nat): u8 { lba / 0x1_0000 % 256 }
  function Byte3(lba: nat): u8 { lba / 0x100_0000 % 256 }
  function Byte4(lba: nat): u8 { lba / 0x1_0000_0000 % 256 }
  function Byte5(lba: nat): u8 { lba / 0x100_0000_0000 % 256 }

  // DH_LBA_MASTER | ((lba >> 24) & 0x0F)
  function DriveByte(lba: nat): nat { Or(DH_LBA_MASTER, lba / 0x100_0000 % 16) }

  lemma DriveByteIs(lba: nat)
    ensures DriveByte(lba) == 0xE0 + lba / 0x100_0000 % 16 && DriveByte(lba) % 16 == lba / 0x100_0000 % 16
  {
    var x := lba / 0x100_0000 % 16;
    LowFour();
    OrNibble(DH_LBA_MASTER, x);
    SameNibble(0xE, x);
  }

  lemma OrNibble(base: nat, x: nat)
    requires Low(base, 4) == 0 && x < 16
    ensures Or(base, x) == base + x
  {
    LowFour();
    OrLow(base, x, 4);
  }

  lemma SameNibble(high: nat, x: nat)
    requires x < 16
    ensures (16 * high + x) % 16 == x
  {
  }

  lemma LowFour()
    ensures Low(0xE0, 4) == 0 && Pow2(4) == 16
  {
  }

  // ---- Addresses in variables of 32 and 64 bits ----

  lemma WrapShort(x: nat)
    ensures x % 0x1_0000_0000 % 0x1000_0000 == x % 0x1000_0000
  {
    var h, y := x / 0x1_0000_0000, x % 0x1_0000_0000;
    assert x == 0x1000_0000 * (16 * h) + y;
  }

  lemma WrapTwice(x: nat)
    ensures x % TWO64 % 0x1_0000_0000 == x % 0x1_0000_0000
  {
    var h, y := x / TWO64, x % TWO64;
    assert x == 0x1_0000_0000 * (0x1_0000_0000 * h) + y;
  }

  lemma WrapLong(x: nat)
    ensures x % TWO64 % 0x1_0000_0000_0000 == x % 0x1_0000_0000_0000
  {
    var h, y := x / TWO64, x % TWO64;
    assert x == 0x1_0000_0000_0000 * (0x1_0000 * h) + y;
  }

  lemma NextAddress(x: nat)
    ensures (x % 0x1_0000_0000 + 1) % 0x1_0000_0000 == (x + 1) % 0x1_0000_0000
    ensures Add64(x % TWO64, 1) == (x % TWO64 + 1) % TWO64 == (x + 1) % TWO64
  {
    NextShort(x);
    NextLong(x);
  }

  lemma NextShort(x: nat)
    ensures (x % 0x1_0000_0000 + 1) % 0x1_0000_0000 == (x + 1) % 0x1_0000_0000
  {
  }

  lemma NextLong(x: nat)
    ensures Add64(x % TWO64, 1) == (x % TWO64 + 1) % TWO64 == (x + 1) % TWO64
  {
  }

  // The writes from the sector count to the command, in order.
  function Taskfile28(code: u8, lba: nat): seq<Event> {
    [Out(REG_SECCOUNT, 1), Out(REG_LBA_LOW, Byte0(lba)), Out(REG_LBA_MID, Byte1(lba)),
     Out(REG_LBA_HIGH, Byte2(lba)), Out(REG_COMMAND, code)]
  }

  function Taskfile48(code: u8, lba: nat): seq<Event> {
    [Out(REG_SECCOUNT, 0), Out(REG_LBA_LOW, Byte3(lba)), Out(REG_LBA_MID, Byte4(lba)), Out(REG_LBA_HIGH, Byte5(lba)),
     Out(REG_SECCOUNT, 1), Out(REG_LBA_LOW, Byte0(lba)), Out(REG_LBA_MID, Byte1(lba)), Out(REG_LBA_HIGH, Byte2(lba)),
     Out(REG_COMMAND, code)]
  }

  function Taskfile(op: Op, lba: nat): seq<Event>
    requires IsIo(op)
  {
    if IsShort(op) then Taskfile28(Code(op), lba) else Taskfile48(Code(op), lba)
  }

  lemma Bytes28(lba: nat)
    ensures Byte0(lba) + 0x100 * Byte1(lba) + 0x1_0000 * Byte2(lba) + 0x100_0000 * (lba / 0x100_0000 % 16)
            == lba % 0x1000_0000
  {
    var a := lba / 0x100;
    var b := a / 0x100;
    var c := b / 0x100;
    assert lba / 0x1_0000 == b && lba / 0x100_0000 == c;
    assert lba == 0x1000_0000 * (c / 16) + 0x100_0000 * (c % 16) + 0x1_0000 * (b % 256) + 0x100 * (a % 256) + lba % 256;
  }

  lemma Bytes48(lba: nat)
    ensures Byte0(lba) + 0x100 * Byte1(lba) + 0x1_0000 * Byte2(lba) + 0x100_0000 * Byte3(lba)
            + 0x1_0000_0000 * Byte4(lba) + 0x100_0000_0000 * Byte5(lba) == lba % 0x1_0000_0000_0000
  {
    var h := lba / 0x100_0000;
    Bytes24(lba);
    Bytes24(h);
    assert h / 0x100 == lba / 0x1_0000_0000 && h / 0x1_0000 == lba / 0x100_0000_0000;
    assert h / 0x100_0000 == lba / 0x1_0000_0000_0000;
  }

  lemma Bytes24(x: nat)
    ensures x == x % 256 + 0x100 * (x / 0x100 % 256) + 0x1_0000 * (x / 0x1_0000 % 256) + 0x100_0000 * (x / 0x100_0000)
  {
    var a := x / 0x100;
    assert a / 0x100 == x / 0x1_0000 && a / 0x1_0000 == x / 0x100_0000;
  }

  // The device reads the address back, modulo what its width can name.
  lemma TaskfileIssues(w: Wire, op: Op, lba: nat)
    requires IsIo(op) && w.regs.drive == DriveOf(op, lba)
    ensures TakeAll(w, Taskfile(op, lba)).acts ==
      w.acts + [Cmd(Opcode(op), lba % Span(op), 1, w.regs.gap, DriveOf(op, lba))]
  {
    if IsShort(op) { ShortIssues(w, op, lba); } else { LongIssues(w, op, lba); }
  }

  lemma ShortIssues(w: Wire, op: Op, lba: nat)
    requires IsIo(op) && IsShort(op) && w.regs.drive % 16 == lba / 0x100_0000 % 16
    ensures TakeAll(w, Taskfile28(Code(op), lba)).acts ==
      w.acts + [Cmd(Opcode(op), lba % 0x1000_0000, 1, w.regs.gap, w.regs.drive)]
  {
    Bytes28(lba);
    Take5(w, Taskfile28(Code(op), lba));
  }

  lemma LongIssues(w: Wire, op: Op, lba: nat)
    requires IsIo(op) && !IsShort(op)
    ensures TakeAll(w, Taskfile48(Code(op), lba)).acts ==
      w.acts + [Cmd(Opcode(op), lba % 0x1_0000_0000_0000, 1, w.regs.gap, w.regs.drive)]
  {
    Bytes48(lba);
    Take9(w, Taskfile48(Code(op), lba));
  }

  // The address bits in the drive register survive the width of the variables.
  lemma DriveWraps(op: Op, x: nat)
    ensures DriveOf(op, x % TWO64) == DriveOf(op, x) && DriveOf(op, x % 0x1_0000_0000) == DriveOf(op, x)
  {
    NibbleWraps(x, x / TWO64, 0x100_0000_0000, x % TWO64);
    NibbleWraps(x, x / 0x1_0000_0000, 0x100, x % 0x1_0000_0000);
  }

  lemma NibbleWraps(x: nat, h: nat, step: nat, y: nat)
    requires (step == 0x100_0000_0000 && x == TWO64 * h + y) || (step == 0x100 && x == 0x1_0000_0000 * h + y)
    ensures x / 0x100_0000 % 16 == y / 0x100_0000 % 16
  {
    var z := y / 0x100_0000;
    if step == 0x100 {
      assert x / 0x100_0000 == 0x100 * h + z;
      assert 0x100 * h + z == 16 * (16 * h) + z;
    } else {
      assert x / 0x100_0000 == 0x100_0000_0000 * h + z;
      assert 0x100_0000_0000 * h + z == 16 * (0x10_0000_0000 * h) + z;
    }
  }

  lemma Take2(w: Wire, es: seq<Event>)
    requires |es| >= 2
    ensures TakeAll(w, es) == TakeAll(Take(Take(w, es[0]), es[1]), es[2..])
  {
    assert es[1..][1..] == es[2..];
  }

  lemma Take5(w: Wire, es: seq<Event>)
    requires |es| == 5
    ensures TakeAll(w, es) == Take(Take(Take(Take(Take(w, es[0]), es[1]), es[2]), es[3]), es[4])
  {
    Take2(w, es);
    Take2(Take(Take(w, es[0]), es[1]), es[2..]);
    assert es[2..][2..] == [es[4]];
  }

  lemma Take9(w: Wire, es: seq<Event>)
    requires |es| == 9
    ensures var w4 := Take(Take(Take(Take(w, es[0]), es[1]), es[2]), es[3]);
      TakeAll(w, es) == Take(Take(Take(Take(Take(w4, es[4]), es[5]), es[6]), es[7]), es[8])
  {
    Take2(w, es);
    var w2 := Take(Take(w, es[0]), es[1]);
    Take2(w2, es[2..]);
    assert es[2..][2..] == es[4..] && es[2..][0] == es[2] && es[2..][1] == es[3];
    var w4 := Take(Take(w2, es[2]), es[3]);
    Take5(w4, es[4..]);
  }
}
