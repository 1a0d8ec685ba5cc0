/** The physical frame allocator: one bit per 4 KiB frame, set when the frame is used. */
module Pmm {
  import opened Words

  const PAGE_SIZE: u64 := 4096
  const PAGE_SHIFT: nat := 12
  const MAX_FRAMES: u64 := 0x100_0000
  const BITMAP_WORDS: nat := 0x20_0000       // (MAX_FRAMES + 7) / 8 words of 64 bits
  const PMM_RESERVED_FRAMES: u64 := 0x4000   // 64 MiB
  const PMM_INVALID_FRAME: u64 := 0xFFFF_FFFF_FFFF_FFFF
  const ALL_ONES: u64 := 0xFFFF_FFFF_FFFF_FFFF
  const FILL_AS_CODED: u64 := 0xFF

  datatype E820Entry = E820Entry(base: u64, length: u64, kind: u32, attr: u32)

  const PAGE_MASK: u64 := 0xFFFF_FFFF_FFFF_F000   // ~(PAGE_SIZE - 1)

  function AlignDown(addr: u64): u64 { And(addr, PAGE_MASK) }

  function AlignUp(addr: u64): u64 { And(Sub64(Add64(addr, PAGE_SIZE), 1), PAGE_MASK) }

  lemma AlignDownIsFloor(addr: u64)
    ensures AlignDown(addr) == addr - addr % 4096
    ensures Shr(AlignDown(addr), 12) == addr / 4096
  {
    AndPageMask(addr);
    Shr12(AlignDown(addr));
  }

  // Rounding up is exact unless adding a page wraps around.
  lemma AlignUpIsCeiling(addr: u64)
    ensures AlignUp(addr) == if addr <= TWO64 - 4096 then (addr + 4095) / 4096 * 4096 else 0
    ensures Shr(AlignUp(addr), 12) == if addr <= TWO64 - 4096 then (addr + 4095) / 4096 else 0
  {
    var s := Sub64(Add64(addr, PAGE_SIZE), 1);
    assert s == if addr <= TWO64 - 4096 then addr + 4095 else addr + 4095 - TWO64;
    AlignDownIsFloor(s);
    FloorIs(s);
  }

  lemma FloorIs(x: nat)
    ensures x - x % 4096 == x / 4096 * 4096
    ensures x < 4096 ==> x / 4096 == 0
  {
  }

  // ---- What the memory map frees ----

  function StartFrame(e: E820Entry): u64 { Shr(AlignUp(e.base), PAGE_SHIFT) }

  function EndFrame(e: E820Entry): u64 { Shr(AlignDown(Add64(e.base, e.length)), PAGE_SHIFT) }

  // The frames that one entry of the map makes free.
  predicate Clears(e: E820Entry, f: nat) {
    e.kind == 1 && StartFrame(e) <= f < EndFrame(e) && f < MAX_FRAMES
  }

  // The page of frame f lies wholly inside the entry.
  predicate Inside(e: E820Entry, f: nat) {
    e.base <= 4096 * f && 4096 * f + 4096 <= e.base + e.length
  }

  predicate Between(a: nat, f: nat, b: nat) { a <= f < b }

  function Range(a: nat, b: nat): set<nat> { set f: nat | f < b && Between(a, f, b) }

  function EntryFrames(e: E820Entry): set<nat> { set f: nat | f < MAX_FRAMES && Clears(e, f) }

  // The frames freed by the first entry, the second, and so on, whatever they overlap.
  function MapFrames(entries: seq<E820Entry>): set<nat> {
    if entries == [] then {}
    else MapFrames(entries[..|entries| - 1]) + EntryFrames(entries[|entries| - 1])
  }

  lemma {:induction false} MapFramesIff(entries: seq<E820Entry>, f: nat)
    ensures f in MapFrames(entries) <==> exists i: nat :: i < |entries| && Clears(entries[i], f)
  {
    if entries != [] {
      var n := |entries| - 1;
      var init := entries[..n];
      MapFramesIff(init, f);
      assert forall i: nat | i < n :: init[i] == entries[i];
    }
  }

  function FillFrames(fill: u64): set<nat> { set f: nat | f < 64 * BITMAP_WORDS && !Bit(fill, f % 64) }

  // The number of the lowest one bit.
  function Ctz(w: nat): (r: nat)
    requires w > 0
    ensures Bit(w, r) && forall j: nat | j < r :: !Bit(w, j)
  {
    if Odd(w) then 0 else
      var r := Ctz(w / 2);
      assert forall j: nat | 0 < j <= r :: Bit(w, j) == Bit(w / 2, j - 1);
      r + 1
  }

  // The lowest zero bit of a block that is not full.
  lemma LowestClear(block: u64)
    requires block != ALL_ONES
    ensures Not64(block) > 0
    ensures var r := Ctz(Not64(block)); r < 64 && !Bit(block, r) && forall j: nat | j < r :: Bit(block, j)
  {
    Pow2Constants();
    var w := Not64(block);
    var r := Ctz(w);
    if r >= 64 {
      forall k: nat | k < 64 ensures Bit(w, k) == Bit(0, k) { ZeroBit(k); }
      BitsDetermine(w, 0, 64);
    }
    forall j: nat | j < 64 ensures Bit(block, j) == !Bit(w, j) { NotBit(block, 64, j); }
  }

  lemma FullBlock(k: nat)
    requires k < 64
    ensures Bit(ALL_ONES, k)
  {
    Pow2Constants();
    NotBit(0, 64, k);
    ZeroBit(k);
  }

  lemma SetBit(w: u64, k: nat, j: nat)
    requires k < 64
    ensures Or(w, Shl64(1, k)) < TWO64
    ensures Bit(Or(w, Shl64(1, k)), j) == (j == k || Bit(w, j))
  {
    ShlOne(0, k);
    Or64(w, Shl64(1, k));
    OrBit(w, Pow2(k), j);
    Pow2Bit(k, j);
  }

  lemma ClearBit(w: u64, k: nat, j: nat)
    requires k < 64 && j < 64
    ensures Bit(And(w, Not64(Shl64(1, k))), j) == (j != k && Bit(w, j))
  {
    Pow2Constants();
    ShlOne(0, k);
    AndBit(w, Not64(Pow2(k)), j);
    NotBit(Pow2(k), 64, j);
    Pow2Bit(k, j);
  }

  // ---- Which frames start free ----

  function KernelFrames(kernelStart: u64, kernelEnd: u64): set<nat> {
    Range(kernelStart / 4096, (kernelEnd + 4095) / 4096)
  }

  // The frames that hold a byte of the kernel image.
  lemma KernelFramesIff(kernelStart: u64, kernelEnd: u64, f: nat)
    requires kernelStart < kernelEnd
    ensures f in KernelFrames(kernelStart, kernelEnd) <==> kernelStart < 4096 * f + 4096 && 4096 * f < kernelEnd
  {
    assert f in KernelFrames(kernelStart, kernelEnd) <==>
      Between(kernelStart / 4096, f, (kernelEnd + 4095) / 4096);
  }

  function EndOf(e: E820Entry): u64 { Add64(e.base, e.length) }

  // The ceiling after the map has been read from the front.
  function CeilingOf(entries: seq<E820Entry>, before: u64): u64 {
    if entries == [] then before else
      var c := CeilingOf(entries[..|entries| - 1], before);
      var end := EndOf(entries[|entries| - 1]);
      if end > c then end else c
  }

  // It is the highest entry end, or what it was before.
  lemma {:induction false} CeilingIsHighest(entries: seq<E820Entry>, before: u64)
    ensures forall e | e in entries :: EndOf(e) <= CeilingOf(entries, before)
    ensures CeilingOf(entries, before) >= before
    ensures CeilingOf(entries, before) == before || exists e :: e in entries && CeilingOf(entries, before) == EndOf(e)
  {
    if entries != [] {
      var init, last := entries[..|entries| - 1], entries[|entries| - 1];
      CeilingIsHighest(init, before);
      assert entries == init + [last] && last in entries;
      var c := CeilingOf(init, before);
      if CeilingOf(entries, before) == c != before {
        var e :| e in init && c == EndOf(e);
        assert e in entries;
      }
    }
  }

  function InitialFree(entries: seq<E820Entry>, fill: u64): set<nat> {
    FillFrames(fill) + MapFrames(entries) - Range(0, PMM_RESERVED_FRAMES)
  }

  ghost predicate ClearsExactlyInside(e: E820Entry) {
    forall f: nat | f < MAX_FRAMES :: Clears(e, f) <==> Inside(e, f)
  }

  // For one usable entry the wrapped arithmetic frees the contained pages exactly when this holds.
  predicate SafeEntry(e: E820Entry) {
    if e.base > TWO64 - 4096 then 0 <= e.base + e.length - TWO64 < 4096
    else e.base + e.length < TWO64 || e.base > 4096 * (MAX_FRAMES - 1)
  }

  lemma EntryExact(e: E820Entry)
    requires e.kind == 1
    ensures ClearsExactlyInside(e) <==> SafeEntry(e)
  {
    EntryBounds(e);
    if e.base > TWO64 - 4096 {
      if !SafeEntry(e) { assert Clears(e, 0) && !Inside(e, 0); }
    } else if !SafeEntry(e) {
      var f := (e.base + 4095) / 4096;
      assert f < MAX_FRAMES && Inside(e, f) && !Clears(e, f);
    }
  }

  lemma EntryBounds(e: E820Entry)
    ensures StartFrame(e) == if e.base <= TWO64 - 4096 then (e.base + 4095) / 4096 else 0
    ensures EndFrame(e) == EndOf(e) / 4096
  {
    AlignUpIsCeiling(e.base);
    AlignDownIsFloor(EndOf(e));
  }

  lemma FillAsCoded(f: nat)
    ensures Bit(FILL_AS_CODED, f % 64) <==> f % 64 < 8
    ensures Bit(ALL_ONES, f % 64)
  {
    FullBlock(f % 64);
    var k := f % 64;
    assert Shr(0xFF, 4) == 0xF && Shr(0xFF, 8) == 0;
    if k >= 8 {
      ShrFrom(0xFF, 8, k);
      ZeroBit(k - 8);
    }
  }

  // Frame f of the managed range starts free exactly when it is past the reserved limit and
  // some usable entry contains its page, or, with the fill as coded, its bit is in the upper
  // seven bytes of its word.
  lemma InitiallyFreeIff(entries: seq<E820Entry>, f: nat)
    requires f < 0x100_0000 && forall e | e in entries && e.kind == 1 :: SafeEntry(e)
    ensures f in InitialFree(entries, ALL_ONES) <==> f >= 0x4000 && MapContains(entries, f)
    ensures f in InitialFree(entries, 0xFF) <==> f >= 0x4000 && (f % 64 >= 8 || MapContains(entries, f))
  {
    FillAsCoded(f);
    MapClearsIff(entries, f);
  }

  // Some usable entry contains the whole page of frame f.
  ghost predicate MapContains(entries: seq<E820Entry>, f: nat) {
    exists e :: e in entries && e.kind == 1 && Inside(e, f)
  }

  lemma MapClearsIff(entries: seq<E820Entry>, f: nat)
    requires f < MAX_FRAMES && forall e | e in entries && e.kind == 1 :: SafeEntry(e)
    ensures f in MapFrames(entries) <==> MapContains(entries, f)
  {
    MapFramesIff(entries, f);
    forall e | e in entries && e.kind == 1 ensures Clears(e, f) <==> Inside(e, f) { EntryExact(e); }
    if i: nat :| i < |entries| && Clears(entries[i], f) {
      assert Inside(entries[i], f);
    }
    if MapContains(entries, f) {
      var e :| e in entries && e.kind == 1 && Inside(e, f);
      assert Clears(e, f);
    }
  }

  // Above the managed range the all-ones fill frees nothing, the fill as coded the same bits.
  lemma AboveManaged(entries: seq<E820Entry>, f: nat)
    requires 0x100_0000 <= f
    ensures f !in InitialFree(entries, ALL_ONES)
    ensures f in InitialFree(entries, 0xFF) <==> f < 0x800_0000 && f % 64 >= 8
  {
    FillAsCoded(f);
    MapFramesIff(entries, f);
  }

  datatype Scan = Found(block: nat) | PastArray

  class FrameAllocator {
    const bitmap: array<u64>
    var ceiling: u64   // g_phys_ceiling

    ghost predicate Valid() { bitmap.Length == BITMAP_WORDS }

    predicate IsUsed(f: nat)
      requires Valid() && f < 64 * BITMAP_WORDS
      reads bitmap
    {
      Bit(bitmap[f / 64], f % 64)
    }

    // The free frames below n.
    ghost function FreeBelow(n: nat): (r: set<nat>)
      requires Valid() && n <= 64 * BITMAP_WORDS
      reads bitmap
      ensures forall f | f in r :: f < n
    {
      if n == 0 then {} else if IsUsed(n - 1) then FreeBelow(n - 1) else FreeBelow(n - 1) + {n - 1}
    }

    // The frames whose bit is clear.
    ghost function FreeSet(): (r: set<nat>)
      requires Valid()
      reads bitmap
      ensures forall f | f in r :: f < 64 * BITMAP_WORDS
    {
      FreeBelow(64 * BITMAP_WORDS)
    }

    lemma {:induction false} FreeBelowIff(n: nat)
      requires Valid() && n <= 64 * BITMAP_WORDS
      ensures forall f: nat :: f in FreeBelow(n) <==> f < n && !IsUsed(f)
    {
      if n > 0 { FreeBelowIff(n - 1); }
    }

    lemma FreeSetIff()
      requires Valid()
      ensures forall f: nat :: f in FreeSet() <==> f < 64 * BITMAP_WORDS && !IsUsed(f)
    {
      FreeBelowIff(64 * BITMAP_WORDS);
    }

    constructor ()
      ensures Valid() && fresh(bitmap) && ceiling == 0
    {
      bitmap := new u64[BITMAP_WORDS];
      ceiling := 0;
    }

    method FrameBitmapSet(frameIdx: u64)
      requires Valid() && frameIdx < 64 * BITMAP_WORDS
      modifies bitmap
      ensures FreeSet() == old(FreeSet()) - {frameIdx}
    {
      FreeSetIff();
      Shr6(frameIdx); And63(frameIdx);
      var word, k := bitmap[Shr(frameIdx, 6)], And(frameIdx, 63);
      SetBit(word, k, k);
      bitmap[Shr(frameIdx, 6)] := Or(word, Shl64(1, k));
      forall f: nat | f < 64 * BITMAP_WORDS
        ensures IsUsed(f) == (f == frameIdx || old(IsUsed(f)))
      {
        SetBit(word, k, f % 64);
      }
      FreeSetIff();
    }

    method FrameBitmapClear(frameIdx: u64)
      requires Valid() && frameIdx < 64 * BITMAP_WORDS
      modifies bitmap
      ensures FreeSet() == old(FreeSet()) + {frameIdx}
    {
      FreeSetIff();
      Shr6(frameIdx); And63(frameIdx);
      var word, k := bitmap[Shr(frameIdx, 6)], And(frameIdx, 63);
      bitmap[Shr(frameIdx, 6)] := And(word, Not64(Shl64(1, k)));
      forall f: nat | f < 64 * BITMAP_WORDS
        ensures IsUsed(f) == (f != frameIdx && old(IsUsed(f)))
      {
        ClearBit(word, k, f % 64);
      }
      FreeSetIff();
    }

    method FrameBitmapTest(frameIdx: u64) returns (used: u64)
      requires Valid() && frameIdx < 64 * BITMAP_WORDS
      ensures used == 1 <==> frameIdx !in FreeSet()
      ensures used <= 1
    {
      FreeSetIff();
      Shr6(frameIdx); And63(frameIdx);
      var w := Shr(bitmap[Shr(frameIdx, 6)], And(frameIdx, 63));
      used := And(w, 1);
      AndHalf(w, 1); AndZero(w / 2);
    }

    // `fill` is the word stored in every block before the map is read.
    method InitFromMap(entries: seq<E820Entry>, fill: u64)
      requires Valid()
      modifies this`ceiling, bitmap
      ensures FreeSet() == InitialFree(entries, fill)
      ensures ceiling == CeilingOf(entries, old(ceiling))
    {
      Fill(fill);
      ReadMap(entries);
      SetRange(0, PMM_RESERVED_FRAMES);
    }

    // The middle loop of InitFromMap.
    method ReadMap(entries: seq<E820Entry>)
      requires Valid()
      modifies this`ceiling, bitmap
      ensures FreeSet() == old(FreeSet()) + MapFrames(entries)
      ensures ceiling == CeilingOf(entries, old(ceiling))
    {
      ghost var s, c := FreeSet(), ceiling;
      var i := 0;
      while i < |entries|
        invariant i <= |entries|
        invariant FreeSet() == s + MapFrames(entries[..i])
        invariant ceiling == CeilingOf(entries[..i], c)
      {
        assert entries[..i + 1][..i] == entries[..i];
        ReadEntry(entries[i]);
        i := i + 1;
      }
      assert entries[..|entries|] == entries;
    }

    // The body of the map loop.
    method ReadEntry(entry: E820Entry)
      requires Valid()
      modifies this`ceiling, bitmap
      ensures FreeSet() == old(FreeSet()) + EntryFrames(entry)
      ensures ceiling == if EndOf(entry) > old(ceiling) then EndOf(entry) else old(ceiling)
    {
      var end := EndOf(entry);
      if end > ceiling { ceiling := end; }
      if entry.kind != 1 { return; }
      var startIdx, endIdx := StartFrame(entry), EndFrame(entry);
      if startIdx >= MAX_FRAMES { return; }
      if endIdx > MAX_FRAMES { endIdx := MAX_FRAMES; }
      if startIdx >= endIdx { return; }
      ClearRange(startIdx, endIdx);
    }

    // The inner loop over one entry's frames.
    method ClearRange(startIdx: u64, endIdx: u64)
      requires Valid() && startIdx <= endIdx <= 64 * BITMAP_WORDS
      modifies bitmap
      ensures FreeSet() == old(FreeSet()) + Range(startIdx, endIdx)
    {
      var j := startIdx;
      while j < endIdx
        invariant startIdx <= j <= endIdx
        invariant FreeSet() == old(FreeSet()) + Range(startIdx, j)
      {
        FrameBitmapClear(j);
        j := j + 1;
      }
    }

    // The first loop of InitFromMap.
    method Fill(fill: u64)
      requires Valid()
      modifies bitmap
      ensures FreeSet() == FillFrames(fill)
    {
      var i := 0;
      while i < BITMAP_WORDS
        invariant i <= BITMAP_WORDS
        invariant forall k | 0 <= k < i :: bitmap[k] == fill
      {
        bitmap[i] := fill;
        i := i + 1;
      }
      FreeSetIff();
    }

    // The loops that reserve the low frames and the kernel's frames.
    method SetRange(startIdx: u64, endIdx: u64)
      requires Valid() && endIdx <= 64 * BITMAP_WORDS
      modifies bitmap
      ensures FreeSet() == old(FreeSet()) - Range(startIdx, endIdx)
    {
      var i := startIdx;
      while i < endIdx
        invariant startIdx <= i && (i <= endIdx || i == startIdx)
        invariant FreeSet() == old(FreeSet()) - Range(startIdx, i)
      {
        FrameBitmapSet(i);
        i := i + 1;
      }
    }

    method HighestAddress() returns (addr: u64)
      ensures addr == ceiling
    {
      addr := ceiling;
    }

    method FrameAlloc() returns (addr: u64, ghost f: nat)
      requires Valid()
      modifies bitmap
      ensures old(FreeSet()) == {} ==> addr == 0xFFFF_FFFF_FFFF_FFFF && f == 0 && FreeSet() == {}
      ensures old(FreeSet()) != {} ==>
        addr == 4096 * f && f in old(FreeSet()) && (forall g | g in old(FreeSet()) :: f <= g) &&
        FreeSet() == old(FreeSet()) - {f}
    {
      ghost var s := FreeSet();
      var blockIdx := 0;
      while blockIdx < BITMAP_WORDS
        invariant blockIdx <= BITMAP_WORDS
        invariant FreeSet() == s
        invariant forall g | g in s :: g / 64 >= blockIdx
      {
        var block := bitmap[blockIdx];
        if block != ALL_ONES {
          addr, f := TakeLowest(blockIdx, block);
          return;
        }
        SkipBlock(blockIdx);
        blockIdx := blockIdx + 1;
      }
      addr, f := PMM_INVALID_FRAME, 0;
    }

    // The body of the scan at the first block that is not full.
    method TakeLowest(blockIdx: u64, block: u64) returns (addr: u64, ghost f: nat)
      requires Valid() && blockIdx < BITMAP_WORDS && block == bitmap[blockIdx] && block != ALL_ONES
      requires forall g | g in FreeSet() :: g / 64 >= blockIdx
      modifies bitmap
      ensures addr == 4096 * f && f in old(FreeSet())
      ensures forall g | g in old(FreeSet()) :: f <= g
      ensures FreeSet() == old(FreeSet()) - {f}
    {
      LowestInBlock(blockIdx);
      var bitOffset := Ctz(Not64(block));
      var frameIdx := Or(Shl64(blockIdx, 6), bitOffset);
      FrameBitmapSet(frameIdx);
      Shl12(frameIdx);
      addr, f := Shl64(frameIdx, PAGE_SHIFT), frameIdx;
    }

    lemma LowestInBlock(block: nat)
      requires Valid() && block < BITMAP_WORDS && bitmap[block] != ALL_ONES
      requires forall g | g in FreeSet() :: g / 64 >= block
      ensures Not64(bitmap[block]) > 0
      ensures var f := Or(Shl64(block, 6), Ctz(Not64(bitmap[block])));
        f < 64 * BITMAP_WORDS && f in FreeSet() && forall g | g in FreeSet() :: f <= g
    {
      LowestClear(bitmap[block]);
      var k := Ctz(Not64(bitmap[block]));
      LeastInBlock(block, k);
      BlockAndBit(block, k);
    }

    lemma LeastInBlock(block: nat, k: nat)
      requires Valid() && block < BITMAP_WORDS && k < 64
      requires forall g | g in FreeSet() :: g / 64 >= block
      requires !Bit(bitmap[block], k) && forall j: nat | j < k :: Bit(bitmap[block], j)
      ensures 64 * block + k in FreeSet()
      ensures forall g | g in FreeSet() :: 64 * block + k <= g
    {
      FreeSetIff();
      assert !IsUsed(64 * block + k);
      forall g | g in FreeSet() ensures 64 * block + k <= g {
        assert !IsUsed(g);
        if g / 64 == block { assert !Bit(bitmap[block], g % 64); }
      }
    }

    lemma SkipBlock(block: nat)
      requires Valid() && block < BITMAP_WORDS && bitmap[block] == ALL_ONES
      requires forall g | g in FreeSet() :: g / 64 >= block
      ensures forall g | g in FreeSet() :: g / 64 >= block + 1
    {
      FreeSetIff();
      forall g | g in FreeSet() ensures g / 64 >= block + 1 {
        assert !IsUsed(g);
        FullBlock(g % 64);
      }
    }

    // The scan with the bound the source writes, MAX_FRAMES words: it leaves the array
    // exactly when no frame is free.
    method ScanAsCoded() returns (r: Scan)
      requires Valid()
      ensures r.PastArray? <==> FreeSet() == {}
      ensures r.Found? ==> r.block < BITMAP_WORDS && bitmap[r.block] != ALL_ONES
    {
      var blockIdx := 0;
      while blockIdx < MAX_FRAMES
        invariant blockIdx <= BITMAP_WORDS
        invariant forall g | g in FreeSet() :: g / 64 >= blockIdx
      {
        if blockIdx >= bitmap.Length {
          FreeSetIff();
          return PastArray;
        }
        var block := bitmap[blockIdx];
        if block != ALL_ONES {
          LowestClear(block);
          LeastInBlock(blockIdx, Ctz(Not64(block)));
          return Found(blockIdx);
        }
        SkipBlock(blockIdx);
        blockIdx := blockIdx + 1;
      }
      assert false;
    }

    method FrameFree(frameIdx: u64)
      requires Valid() && frameIdx < 64 * BITMAP_WORDS
      modifies bitmap
      ensures FreeSet() == if frameIdx < 0x4000 then old(FreeSet()) else old(FreeSet()) + {frameIdx}
    {
      if frameIdx < PMM_RESERVED_FRAMES { return; }
      FrameBitmapClear(frameIdx);
    }

    method Init(entries: seq<E820Entry>, fill: u64, kernelStart: u64, kernelEnd: u64)
      requires Valid() && kernelEnd <= TWO64 - 4096 && (kernelEnd + 4095) / 4096 <= 64 * BITMAP_WORDS
      modifies this`ceiling, bitmap
      ensures FreeSet() == InitialFree(entries, fill) - KernelFrames(kernelStart, kernelEnd)
      ensures ceiling == CeilingOf(entries, old(ceiling))
    {
      InitFromMap(entries, fill);
      AlignDownIsFloor(kernelStart);
      AlignUpIsCeiling(kernelEnd);
      SetRange(Shr(AlignDown(kernelStart), PAGE_SHIFT), Shr(AlignUp(kernelEnd), PAGE_SHIFT));
    }
  }

  lemma BlockAndBit(block: nat, k: nat)
    requires block < BITMAP_WORDS && k < 64
    ensures Or(Shl64(block, 6), k) == 64 * block + k
  {
    Shl6(block, 6);
    Shr6(64 * block);
    assert Shl64(block, 6) == 64 * block;
    OrLow(64 * block, k, 6);
  }
}
