/** Where addresses lead once start-up has built the planned address space. */
module Reach {
  import opened Words
  import opened PageTable
  import opened Entries
  import opened Pmm
  import opened Walks
  import opened Plan
  import opened Online

  function Reached(s: Snap, root: nat, vaddr: u64): Option<nat> { PhysOf(s.View(root, PageOf(vaddr)), vaddr) }

  // Every byte of physical memory below the ceiling is reached at FFFF_8000_0000_0000h plus its
  // address.
  lemma PhysicalReached(s: Snap, root: nat, lay: Layout, ceiling: u64, p: u64)
    requires lay.Valid() && Realizes(s, root, lay)
    requires ceiling <= 0x8000_0000_0000 && lay.gibs == GibCount(ceiling) && p < ceiling
    ensures p + 0xFFFF_8000_0000_0000 < TWO64 && Reached(s, root, p + 0xFFFF_8000_0000_0000) == Some(p)
  {
    var w := PageOf(p + HHDM_OFFSET);
    assert p < 0x4000_0000 * lay.gibs;
    HhdmReaches(lay.gibs, p);
    HhdmGib(p, p / 0x4000_0000, p % 0x4000_0000);
    assert w >= LOWER_HALF by { PrefixValues(w); }
    assert s.View(root, w) == lay.View(w);
  }

  predicate SelfPages(lay: Layout, w: nat) {
    lay.kernelFirst <= w < lay.kernelFirst + lay.kernelPages || lay.stackFirst <= w < lay.stackFirst + lay.stackPages
  }

  // Every byte of a page mapped to itself is reached at its own address.
  lemma SelfReached(s: Snap, root: nat, lay: Layout, v: u64)
    requires lay.Valid() && Realizes(s, root, lay) && SelfPages(lay, v / 4096)
    ensures Reached(s, root, v) == Some(v)
  {
    var w := v / 4096;
    LowPage(v);
    assert s.View(root, w) == lay.View(w);
    SelfTarget(w);
    SelfPhys(w, v);
  }

  lemma LowPage(v: u64)
    requires v / 4096 < LOWER_HALF
    ensures PageOf(v) == v / 4096 < PAGES
  {
  }

  lemma SelfPhys(w: nat, v: u64)
    requires w == v / 4096 < LOWER_HALF && Target(SelfEntry(w)) == w
    ensures PhysOf(Mapped(1, SelfEntry(w)), v) == Some(v)
  {
  }

  lemma SelfTarget(w: nat)
    requires w < LOWER_HALF
    ensures Target(SelfEntry(w)) == w
  {
    TableFields(w);
  }

  // The pages of the stack window: those with a byte of [rsp - 256 KiB, rsp + 4 KiB).
  lemma StackPagesIff(ceiling: u64, kernelStart: u64, kernelEnd: u64, rsp: u64, w: nat)
    requires kernelStart <= kernelEnd && rsp >= STACK_WINDOW
    ensures var lay := LayoutOf(ceiling, kernelStart, kernelEnd, rsp);
      lay.stackFirst <= w < lay.stackFirst + lay.stackPages <==>
      rsp - 0x4_0000 < 4096 * w + 4096 && 4096 * w < rsp + 4096
  {
  }

  // The pages of the kernel image, as many as its size needs, and the GiBs of the direct map.
  lemma KernelPagesIff(ceiling: u64, kernelStart: u64, kernelEnd: u64, rsp: u64, w: nat)
    requires kernelStart <= kernelEnd && rsp >= STACK_WINDOW
    ensures var lay, first := LayoutOf(ceiling, kernelStart, kernelEnd, rsp), kernelStart / 4096;
      lay.kernelFirst <= w < lay.kernelFirst + lay.kernelPages <==>
      first <= w && 4096 * (w - first) < kernelEnd - kernelStart
  {
  }

  lemma DirectPagesIff(ceiling: u64, w: nat)
    requires ceiling <= 0x8000_0000_0000 && w < PAGES
    ensures w < 0x8_0000_0000 ==> HhdmView(GibCount(ceiling), w) == Unmapped
    ensures w >= 0x8_0000_0000 ==> var k := (w - 0x8_0000_0000) / 0x4_0000;
      HhdmView(GibCount(ceiling), w) ==
      if 0x4000_0000 * k < ceiling then Mapped(3, 0x4000_0000 * k + 0x8000_0000_0000_0083) else Unmapped
  {
    PrefixValues(w);
    if w >= 0x8_0000_0000 {
      var k := (w - 0x8_0000_0000) / 0x4_0000;
      GibOfPage(w, k);
      GibCountIs(ceiling, k);
    } else {
      GibCountIs(ceiling, 0);
    }
  }

  lemma GibOfPage(w: nat, k: nat)
    requires 0x8_0000_0000 <= w < PAGES && k == (w - 0x8_0000_0000) / 0x4_0000
    ensures Prefix(2, w) == 0x2_0000 + k && k < 0x2_0000
  {
    PrefixValues(w);
    assert w == 0x8_0000_0000 + 0x4_0000 * k + (w - 0x8_0000_0000) % 0x4_0000;
  }

  // What start-up maps, page by page, and nothing else. In the lower half each page of the kernel
  // image and of the stack window maps to itself, present and writable; in the upper half GiB k
  // is one large page, present, writable and not executable, if it begins below the ceiling.
  lemma MappedIff(s: Snap, root: nat, ceiling: u64, kernelStart: u64, kernelEnd: u64, rsp: u64, w: nat)
    requires ceiling <= 0x8000_0000_0000 && kernelStart <= kernelEnd && rsp >= STACK_WINDOW && w < PAGES
    requires var lay := LayoutOf(ceiling, kernelStart, kernelEnd, rsp); lay.Valid() && Realizes(s, root, lay)
    ensures w < 0x8_0000_0000 ==>
      (s.View(root, w) ==
       if (kernelStart / 4096 <= w && 4096 * (w - kernelStart / 4096) < kernelEnd - kernelStart)
          || (rsp - 0x4_0000 < 4096 * w + 4096 && 4096 * w < rsp + 4096)
       then Mapped(1, 4096 * w + 3) else Unmapped)
    ensures w >= 0x8_0000_0000 ==> var k := (w - 0x8_0000_0000) / 0x4_0000;
      s.View(root, w) ==
      if 0x4000_0000 * k < ceiling then Mapped(3, 0x4000_0000 * k + 0x8000_0000_0000_0083) else Unmapped
  {
    var lay := LayoutOf(ceiling, kernelStart, kernelEnd, rsp);
    assert s.View(root, w) == lay.View(w);
    StackPagesIff(ceiling, kernelStart, kernelEnd, rsp, w);
    KernelPagesIff(ceiling, kernelStart, kernelEnd, rsp, w);
    DirectPagesIff(ceiling, w);
  }

  predicate StartsLow(kernelStart: u64, kernelEnd: u64) {
    kernelStart >= kernelEnd || kernelStart % 4096 + (kernelEnd - kernelStart - 1) % 4096 < 4096
  }

  ghost predicate CoversKernel(lay: Layout, kernelStart: u64, kernelEnd: u64) {
    forall b | kernelStart <= b < kernelEnd :: lay.kernelFirst <= b / 4096 < lay.kernelFirst + lay.kernelPages
  }

  // The loop counts pages from the size alone: a kernel that starts late in its first page
  // can lose its last one.
  lemma KernelCoveredIff(ceiling: u64, kernelStart: u64, kernelEnd: u64, rsp: u64)
    requires kernelStart <= kernelEnd && rsp >= STACK_WINDOW
    ensures CoversKernel(LayoutOf(ceiling, kernelStart, kernelEnd, rsp), kernelStart, kernelEnd)
            <==> StartsLow(kernelStart, kernelEnd)
  {
    if kernelStart < kernelEnd {
      var lay := LayoutOf(ceiling, kernelStart, kernelEnd, rsp);
      LastPage(kernelStart, kernelEnd);
      if StartsLow(kernelStart, kernelEnd) {
        forall b | kernelStart <= b < kernelEnd
          ensures lay.kernelFirst <= b / 4096 < lay.kernelFirst + lay.kernelPages
        {
          assert b / 4096 <= (kernelEnd - 1) / 4096;
        }
      } else {
        assert kernelStart <= kernelEnd - 1 < kernelEnd;
      }
    }
  }

  lemma LastPage(kernelStart: u64, kernelEnd: u64)
    requires kernelStart < kernelEnd
    ensures (kernelEnd - 1) / 4096 < kernelStart / 4096 + KernelPages(kernelStart, kernelEnd)
            <==> kernelStart % 4096 + (kernelEnd - kernelStart - 1) % 4096 < 4096
  {
    var a, r := kernelStart / 4096, kernelStart % 4096;
    var q, t := (kernelEnd - kernelStart - 1) / 4096, (kernelEnd - kernelStart - 1) % 4096;
    assert kernelEnd - 1 == 4096 * (a + q) + r + t;
    assert KernelPages(kernelStart, kernelEnd) == q + 1;
  }

  // Every byte from 256 KiB below the stack pointer up to a page above it is reached at its own
  // address.
  lemma StackCovered(s: Snap, root: nat, ceiling: u64, kernelStart: u64, kernelEnd: u64, rsp: u64, b: u64)
    requires kernelStart <= kernelEnd && rsp >= STACK_WINDOW && rsp - 0x4_0000 <= b < rsp + 4096
    requires var lay := LayoutOf(ceiling, kernelStart, kernelEnd, rsp); lay.Valid() && Realizes(s, root, lay)
    ensures Reached(s, root, b) == Some(b)
  {
    StackPagesIff(ceiling, kernelStart, kernelEnd, rsp, b / 4096);
    SelfReached(s, root, LayoutOf(ceiling, kernelStart, kernelEnd, rsp), b);
  }

  // ---- The walk, address bit by address bit ----

  // One step of a four-level walk as the processor takes it (Intel SDM volume 3A, section 4.5):
  // the word of a table that nine bits of the address choose.
  function WordFor(mem: Memory, t: nat, v: u64, size: nat): Option<u64>
    requires size > 0
  {
    if t in mem && mem[t][v / size % 512] % 2 == 1 then Some(mem[t][v / size % 512]) else None
  }

  function Offset(e: u64, v: u64, size: nat): nat
    requires size > 0
  {
    size * (e % 0x10_0000_0000_0000 / size) + v % size
  }

  function Under1(mem: Memory, t: nat, v: u64): Option<nat> {
    match WordFor(mem, t, v, 0x1000)
    case None => None
    case Some(e) => Some(Offset(e, v, 0x1000))
  }

  function Under2(mem: Memory, t: nat, v: u64): Option<nat> {
    match WordFor(mem, t, v, 0x20_0000)
    case None => None
    case Some(e) =>
      if e / 128 % 2 == 1 then Some(Offset(e, v, 0x20_0000)) else Under1(mem, e / 4096 % 0x100_0000_0000, v)
  }

  function Under3(mem: Memory, t: nat, v: u64): Option<nat> {
    match WordFor(mem, t, v, 0x4000_0000)
    case None => None
    case Some(e) =>
      if e / 128 % 2 == 1 then Some(Offset(e, v, 0x4000_0000)) else Under2(mem, e / 4096 % 0x100_0000_0000, v)
  }

  // Where address v leads under the table whose address CR3 holds: bits 39 to 47, 30 to 38, 21
  // to 29 and 12 to 20 choose the words, bit 7 ends the walk early.
  function Translated(mem: Memory, cr3: u64, v: u64): Option<nat> {
    match WordFor(mem, cr3 / 4096 % 0x100_0000_0000, v, 0x80_0000_0000)
    case None => None
    case Some(e) => Under3(mem, e / 4096 % 0x100_0000_0000, v)
  }

  // For every memory and every address, the model's walk leads there.
  lemma WalkIsTranslated(mem: Memory, cr3: u64, v: u64)
    ensures PhysOf(Walk(mem, Target(cr3), 4, PageOf(v)), v) == Translated(mem, cr3, v)
  {
    WordsChosen(v);
    var t := Target(cr3);
    if t in mem {
      var e := mem[t][v / 0x80_0000_0000 % 512];
      if Links(4, e) { Walk3(mem, Target(e), v); }
    }
  }

  lemma ReachedIsTranslated(s: Snap, root: nat, cr3: u64, v: u64)
    requires Target(cr3) == root
    ensures Reached(s, root, v) == Translated(s.mem, cr3, v)
  {
    WalkIsTranslated(s.mem, cr3, v);
  }

  lemma Walk3(mem: Memory, t: nat, v: u64)
    ensures PhysOf(Walk(mem, t, 3, PageOf(v)), v) == Under3(mem, t, v)
  {
    WordsChosen(v);
    if t in mem {
      var e := mem[t][v / 0x4000_0000 % 512];
      if Links(3, e) { Walk2(mem, Target(e), v); } else { LargeOffsets(e, v); }
    }
  }

  lemma Walk2(mem: Memory, t: nat, v: u64)
    ensures PhysOf(Walk(mem, t, 2, PageOf(v)), v) == Under2(mem, t, v)
  {
    WordsChosen(v);
    if t in mem {
      var e := mem[t][v / 0x20_0000 % 512];
      if Links(2, e) { Walk1(mem, Target(e), v); } else { LargeOffsets(e, v); }
    }
  }

  lemma Walk1(mem: Memory, t: nat, v: u64)
    ensures PhysOf(Walk(mem, t, 1, PageOf(v)), v) == Under1(mem, t, v)
  {
    WordsChosen(v);
    if t in mem { LargeOffsets(mem[t][v / 0x1000 % 512], v); }
  }

  lemma WordsChosen(v: u64)
    ensures var w := PageOf(v);
      && Prefix(0, w) % 512 == v / 0x1000 % 512 && Prefix(1, w) % 512 == v / 0x20_0000 % 512
      && Prefix(2, w) % 512 == v / 0x4000_0000 % 512 && Prefix(3, w) % 512 == v / 0x80_0000_0000 % 512
  {
    var x := v / 4096;
    PrefixValues(PageOf(v));
    PrefixBelow(x);
    assert x / 512 == v / 0x20_0000 && x / 512 / 512 == v / 0x4000_0000 && x / 512 / 512 / 512 == v / 0x80_0000_0000;
  }

  lemma LargeOffsets(e: u64, v: u64)
    ensures Offset(e, v, 0x1000) == 4096 * Target(e) + v % 4096
    ensures Offset(e, v, 0x20_0000) == 0x20_0000 * (Target(e) / 512) + v % 0x20_0000
    ensures Offset(e, v, 0x4000_0000) == 0x4000_0000 * (Target(e) / 0x4_0000) + v % 0x4000_0000
  {
    var h, y := e / 0x10_0000_0000_0000, e % 0x10_0000_0000_0000;
    assert e == 4096 * (0x100_0000_0000 * h) + y;
    assert e / 4096 == 0x100_0000_0000 * h + y / 4096;
    assert Target(e) == y / 4096;
    assert y / 4096 / 512 == y / 0x20_0000 && y / 4096 / 0x4_0000 == y / 0x4000_0000;
  }
}
