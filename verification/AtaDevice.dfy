/** A PIO device behind the task file: what single-sector commands and transfers do to disk and
    memory, and which statuses the device may show meanwhile. */
module AtaDevice {
  import opened Words
  import opened AtaStatus
  import opened AtaWire

  function Zeros16(n: nat): (s: seq<u16>)
    ensures |s| == n
  {
    seq(n, i => 0)
  }

  type Sector = s: seq<u16> | |s| == 256 witness Zeros16(256)
  type Disk = map<nat, Sector>

  const BLANK: Sector := Zeros16(256)

  function At(disk: Disk, lba: nat): Sector { if lba in disk then disk[lba] else BLANK }

  // What a busy device is on its way to: data to be fetched, room for data, the store of a
  // block that was sent, or a failure.
  datatype Next = ToIn(lba: nat) | ToOut(lba: nat) | ToStore(lba: nat, data: Sector) | ToFail

  datatype Phase = Ready | DataIn(lba: nat) | DataOut(lba: nat) | Failed | Working(next: Next)

  // The device, and the machine around it.
  datatype Dev = Dev(phase: Phase, disk: Disk)
  datatype World = World(dev: Dev, mem: seq<u16>)

  // The device's free choices at one access: whether its work ends just then, whether it ends
  // well, and what is left of a sector if not.
  datatype Choice = Choice(settles: bool, well: bool, junk: Sector)

  predicate Busy(p: Phase) { p.Working? }
  predicate Storing(p: Phase) { p.Working? && p.next.ToStore? }
  predicate Offering(p: Phase) { p.DataIn? || p.DataOut? }

  // ---- The passing of time ----

  function Settle(d: Dev, ch: Choice): Dev {
    if !d.phase.Working? || !ch.settles then d
    else match d.phase.next
      case ToIn(lba) => d.(phase := if ch.well then DataIn(lba) else Failed)
      case ToOut(lba) => d.(phase := if ch.well then DataOut(lba) else Failed)
      case ToFail => d.(phase := Failed)
      case ToStore(lba, data) =>
        if ch.well then Dev(Ready, d.disk[lba := data]) else Dev(Failed, d.disk[lba := ch.junk])
  }

  // How the work of a busy device can end.
  ghost predicate Ends(d: Dev, d': Dev)
    requires d.phase.Working?
  {
    match d.phase.next
    case ToIn(lba) => d'.disk == d.disk && (d'.phase == DataIn(lba) || d'.phase == Failed)
    case ToOut(lba) => d'.disk == d.disk && (d'.phase == DataOut(lba) || d'.phase == Failed)
    case ToFail => d' == d.(phase := Failed)
    case ToStore(lba, data) => d' == Dev(Ready, d.disk[lba := data]) || Spoilt(d, d', lba)
  }

  function Marred(d: Dev, lba: nat, junk: Sector): Dev { Dev(Failed, d.disk[lba := junk]) }

  ghost predicate Spoilt(d: Dev, d': Dev, lba: nat) { exists junk: Sector :: d' == Marred(d, lba, junk) }

  // The device some accesses later, none of them a command or a transfer.
  ghost predicate Later(d: Dev, d': Dev) { d' == d || (Busy(d.phase) && Ends(d, d')) }

  lemma SettleLater(d: Dev, ch: Choice)
    ensures Later(d, Settle(d, ch))
  {
    if Storing(d.phase) && ch.settles && !ch.well { assert Settle(d, ch) == Marred(d, d.phase.next.lba, ch.junk); }
  }

  lemma LaterTwice(d: Dev, d1: Dev, d2: Dev)
    requires Later(d, d1) && Later(d1, d2)
    ensures Later(d, d2)
  {
  }

  // ---- Commands and transfers ----

  // The command codes of the standard: READ SECTOR(S) and WRITE SECTOR(S), plain and EXT.
  predicate ReadCode(code: u8) { code == 0x20 || code == 0x24 }
  predicate WriteCode(code: u8) { code == 0x30 || code == 0x34 }

  // Drive 0 in LBA mode.
  predicate Addressed(drive: nat) { drive / 16 % 2 == 0 && drive / 64 % 2 == 1 }

  lemma DriveAddressed(op: Op, lba: nat)
    ensures Addressed(DriveOf(op, lba))
  {
  }

  // A command needs the 400 ns after the drive select to have passed: four status reads. Only
  // drive 0 is there, and only LBA mode is served.
  function CmdNext(a: Act): Next
    requires a.Cmd?
  {
    if a.sectors != 1 || a.gap < 4 || !Addressed(a.drive) then ToFail
    else if ReadCode(a.code) then ToIn(a.lba)
    else if WriteCode(a.code) then ToOut(a.lba)
    else ToFail
  }

  // A command makes the device busy; to a busy device it is lost.
  function OnCommand(d: Dev, a: Act): Dev
    requires a.Cmd?
  {
    if Busy(d.phase) then d else d.(phase := Working(CmdNext(a)))
  }

  function Spliced(mem: seq<u16>, ptr: nat, sector: Sector): (m: seq<u16>)
    requires ptr + 256 <= |mem|
    ensures |m| == |mem|
  {
    mem[..ptr] + sector + mem[ptr + 256..]
  }

  predicate BlockAt(mem: seq<u16>, ptr: nat, words: nat) { words == 256 && ptr + 256 <= |mem| }

  // A transfer that the device does not offer, busy or not, leaves memory or disk unknown: it is
  // emptied. A block that was sent is stored some time later.
  function OnAct(w: World, a: Act): World {
    match a
    case Cmd(_, _, _, _, _) => w.(dev := OnCommand(w.dev, a))
    case MoveIn(ptr, words) =>
      if w.dev.phase.DataIn? && BlockAt(w.mem, ptr, words)
      then World(w.dev.(phase := Ready), Spliced(w.mem, ptr, At(w.dev.disk, w.dev.phase.lba)))
      else w.(mem := [])
    case MoveOut(ptr, words) =>
      if w.dev.phase.DataOut? && BlockAt(w.mem, ptr, words)
      then w.(dev := w.dev.(phase := Working(ToStore(w.dev.phase.lba, w.mem[ptr..ptr + 256]))))
      else w.(dev := w.dev.(disk := map[]))
    case Identify(_) => w
    case Write(_, _) => w
    case ReadStatus => w
  }

  // ---- Statuses ----

  // A busy device shows BSY, and the other bits mean nothing. Otherwise it requests data only
  // in a data phase and shows a failure until the next command. A floating bus shows FFh.
  predicate Honest(p: Phase, st: u8) {
    st == 0xFF ||
    if Busy(p) then Bsy(st) else !Bsy(st) && (Drq(st) ==> Offering(p)) && (p.Failed? ==> ErrOrDf(st))
  }

  // ---- What a request is for ----

  function LbaOf(q: Request, i: nat): nat { (q.lba + i) % Span(q.op) }

  function BlockOf(mem: seq<u16>, q: Request, i: nat): (b: Sector)
    requires q.ptr + 256 * i + 256 <= |mem|
  {
    mem[q.ptr + 256 * i..q.ptr + 256 * i + 256]
  }

  // Memory after n blocks have been read.
  function CopyIn(disk: Disk, mem: seq<u16>, q: Request, n: nat): (m: seq<u16>)
    requires q.ptr + 256 * n <= |mem|
    ensures |m| == |mem|
  {
    if n == 0 then mem else Spliced(CopyIn(disk, mem, q, n - 1), q.ptr + 256 * (n - 1), At(disk, LbaOf(q, n - 1)))
  }

  // The disk after n blocks have been written.
  function CopyOut(disk: Disk, mem: seq<u16>, q: Request, n: nat): Disk
    requires q.ptr + 256 * n <= |mem|
  {
    if n == 0 then disk else CopyOut(disk, mem, q, n - 1)[LbaOf(q, n - 1) := BlockOf(mem, q, n - 1)]
  }

  // Block i of memory is sector lba + i of the disk; words outside the buffer are untouched.
  lemma {:induction false} CopyInBlock(disk: Disk, mem: seq<u16>, q: Request, n: nat, i: nat)
    requires q.ptr + 256 * n <= |mem| && i < n
    ensures BlockOf(CopyIn(disk, mem, q, n), q, i) == At(disk, LbaOf(q, i))
  {
    var m := CopyIn(disk, mem, q, n - 1);
    if i < n - 1 {
      CopyInBlock(disk, mem, q, n - 1, i);
      assert BlockOf(CopyIn(disk, mem, q, n), q, i) == BlockOf(m, q, i);
    }
  }

  lemma {:induction false} CopyInOutside(disk: Disk, mem: seq<u16>, q: Request, n: nat, k: nat)
    requires q.ptr + 256 * n <= |mem| && k < |mem| && (k < q.ptr || k >= q.ptr + 256 * n)
    ensures CopyIn(disk, mem, q, n)[k] == mem[k]
  {
    if n > 0 { CopyInOutside(disk, mem, q, n - 1, k); }
  }

  lemma DistinctLbas(q: Request, i: nat, j: nat)
    requires IsIo(q.op) && i < j && j - i < Span(q.op)
    ensures LbaOf(q, i) != LbaOf(q, j)
  {
  }

  // Sector lba + i of the disk is block i of memory; other sectors are untouched.
  lemma {:induction false} CopyOutBlock(disk: Disk, mem: seq<u16>, q: Request, n: nat, i: nat)
    requires IsIo(q.op) && n <= Span(q.op) && q.ptr + 256 * n <= |mem| && i < n
    ensures At(CopyOut(disk, mem, q, n), LbaOf(q, i)) == BlockOf(mem, q, i)
  {
    if i < n - 1 {
      CopyOutBlock(disk, mem, q, n - 1, i);
      DistinctLbas(q, i, n - 1);
    }
  }

  // The first n blocks do not name sector l.
  ghost predicate Unnamed(q: Request, n: nat, l: nat) { forall i: nat | i < n :: LbaOf(q, i) != l }

  lemma {:induction false} CopyOutOutside(disk: Disk, mem: seq<u16>, q: Request, n: nat, l: nat)
    requires q.ptr + 256 * n <= |mem| && Unnamed(q, n, l)
    ensures At(CopyOut(disk, mem, q, n), l) == At(disk, l)
  {
    if n > 0 { CopyOutOutside(disk, mem, q, n - 1, l); }
  }

  // What was written is what is read back.
  lemma WriteThenRead(disk: Disk, mem: seq<u16>, w: Request, mem': seq<u16>, r: Request, i: nat)
    requires IsIo(w.op) && IsIo(r.op) && w.lba == r.lba && w.count == r.count && Span(w.op) == Span(r.op)
    requires w.count <= Span(w.op) && i < w.count
    requires w.ptr + 256 * w.count <= |mem| && r.ptr + 256 * r.count <= |mem'|
    ensures BlockOf(CopyIn(CopyOut(disk, mem, w, w.count), mem', r, r.count), r, i) == BlockOf(mem, w, i)
  {
    var d := CopyOut(disk, mem, w, w.count);
    assert At(d, LbaOf(w, i)) == BlockOf(mem, w, i) by { CopyOutBlock(disk, mem, w, w.count, i); }
    SameLba(w, r, i);
    CopyInBlock(d, mem', r, r.count, i);
  }

  lemma SameLba(w: Request, r: Request, i: nat)
    requires w.lba == r.lba && Span(w.op) == Span(r.op)
    ensures LbaOf(w, i) == LbaOf(r, i)
  {
  }
}
