/** Start-up as kmain runs it: the frame allocator first, then the address space. */
module Startup {
  import opened Words
  import opened PageTable
  import opened Entries
  import opened Pmm
  import opened Walks
  import opened LeastFrames
  import opened Counting
  import opened Plan
  import opened Online
  import opened PageRuns
  import opened Vmm

  // The self-mapped pages are below the frames that are ever handed out.
  predicate LowImage(lay: Layout) {
    && lay.kernelFirst + lay.kernelPages <= PMM_RESERVED_FRAMES
    && lay.stackFirst + lay.stackPages <= PMM_RESERVED_FRAMES
  }

  ghost predicate InRam(free: set<nat>, gibs: nat) {
    forall f | f in free :: PMM_RESERVED_FRAMES <= f < 0x4_0000 * gibs
  }

  // A finished start-up leaves a running, exclusive system, as far as the tables and the free
  // frames below the limit lie in the direct map.
  lemma StartsRunning(s: Snap, root: nat, lay: Layout)
    requires lay.Valid() && LowImage(lay) && Realizes(s, root, lay)
    requires InRam(s.nodes.Keys, lay.gibs) && InRam(s.free, lay.gibs)
    ensures Running(s, root, lay.gibs) && Exclusive(s, root, lay.gibs)
  {
    var n := lay.gibs;
    forall w: nat | w < PAGES
      ensures if InHhdm(n, w) then s.View(root, w) == HhdmView(n, w) else s.NotLarge(root, w)
      ensures LeafFrame(s, root, w).Some? ==> LeafFrame(s, root, w).value < PMM_RESERVED_FRAMES
    {
      PlanView(lay, w);
      assert s.View(root, w) == lay.View(w);
    }
  }

  // From start-up on, through every run of allocations, frees and stores.
  lemma SystemStaysExclusive(ss: seq<Snap>, ops: seq<Op>, root: nat, lay: Layout, k: nat)
    requires Run(ss, ops, root, lay.gibs) && k < |ss|
    requires lay.Valid() && LowImage(lay) && Realizes(ss[0], root, lay)
    requires InRam(ss[0].nodes.Keys, lay.gibs) && InRam(ss[0].free, lay.gibs)
    ensures Running(ss[k], root, lay.gibs) && Exclusive(ss[k], root, lay.gibs)
  {
    StartsRunning(ss[0], root, lay);
    RunsStayExclusive(ss, ops, root, lay.gibs, k);
  }

  lemma PlanView(lay: Layout, w: nat)
    requires lay.Valid() && LowImage(lay) && w < PAGES
    ensures if InHhdm(lay.gibs, w) then lay.View(w) == HhdmView(lay.gibs, w)
            else lay.View(w) == Unmapped || (w < PMM_RESERVED_FRAMES && lay.View(w) == Mapped(1, SelfEntry(w)))
    ensures w < PMM_RESERVED_FRAMES ==> Target(SelfEntry(w)) == w
  {
    PrefixValues(w);
    if w < PMM_RESERVED_FRAMES { TableFields(w); }
  }

  // ---- Which frames are free, and which of them are memory ----

  // The frames that pmm_init leaves free.
  function StartFree(entries: seq<E820Entry>, fill: u64, kernelStart: u64, kernelEnd: u64): set<nat> {
    InitialFree(entries, fill) - KernelFrames(kernelStart, kernelEnd)
  }

  ghost predicate NoWrap(entries: seq<E820Entry>) {
    forall e | e in entries :: e.base + e.length < TWO64 && SafeEntry(e)
  }

  // Frames that are memory are reached by the direct map.
  lemma RamIsMapped(entries: seq<E820Entry>, fill: u64, fs: set<nat>)
    requires NoWrap(entries) && fs <= InitialFree(entries, fill) && forall f | f in fs :: MapContains(entries, f)
    ensures InRam(fs, GibCount(CeilingOf(entries, 0)))
  {
    var c := CeilingOf(entries, 0);
    forall f | f in fs ensures PMM_RESERVED_FRAMES <= f < 0x4_0000 * GibCount(c) {
      var e :| e in entries && e.kind == 1 && Inside(e, f);
      CeilingIsHighest(entries, 0);
      assert 4096 * f + 4096 <= e.base + e.length == EndOf(e) <= c;
      BelowCeiling(f, c);
    }
  }

  lemma BelowCeiling(f: nat, c: u64)
    requires 4096 * f + 4096 <= c
    ensures f < 0x4_0000 * GibCount(c)
  {
    assert c <= 0x4000_0000 * GibCount(c);
  }

  // With the all-ones fill every free frame is memory.
  lemma OnesAreRam(entries: seq<E820Entry>, kernelStart: u64, kernelEnd: u64)
    requires NoWrap(entries)
    ensures forall f | f in StartFree(entries, ALL_ONES, kernelStart, kernelEnd) :: MapContains(entries, f)
  {
    forall f | f in StartFree(entries, ALL_ONES, kernelStart, kernelEnd) ensures MapContains(entries, f) {
      if f >= MAX_FRAMES { AboveManaged(entries, f); } else { InitiallyFreeIff(entries, f); }
    }
  }

  // A frame past the limit that the fill as coded leaves free although no usable entry has it.
  ghost predicate Hole(entries: seq<E820Entry>, kernelStart: u64, kernelEnd: u64, h: nat) {
    && 0x4000 <= h < 0x800_0000 && h % 64 >= 8
    && h !in KernelFrames(kernelStart, kernelEnd) && !MapContains(entries, h)
  }

  // As coded, the n frames taken first are memory if and only if n free frames come before
  // every hole.
  lemma CodedFillIff(entries: seq<E820Entry>, kernelStart: u64, kernelEnd: u64, n: nat)
    requires NoWrap(entries)
    ensures var free := StartFree(entries, FILL_AS_CODED, kernelStart, kernelEnd);
      (forall f | f in Least(free, n) :: MapContains(entries, f)) <==>
      (forall h | Hole(entries, kernelStart, kernelEnd, h) :: |Below(free, h)| >= n)
  {
    var free := StartFree(entries, FILL_AS_CODED, kernelStart, kernelEnd);
    forall h: nat ensures Hole(entries, kernelStart, kernelEnd, h) <==> h in free && !MapContains(entries, h) {
      if h >= MAX_FRAMES { AboveManaged(entries, h); } else { InitiallyFreeIff(entries, h); }
    }
  }

  // As coded, the free frames before every hole are memory in the direct map: a limit that can
  // be vouched for.
  lemma BelowHoles(entries: seq<E820Entry>, kernelStart: u64, kernelEnd: u64, limit: nat)
    requires NoWrap(entries) && forall h: nat | Hole(entries, kernelStart, kernelEnd, h) :: h >= limit
    ensures var fs := Below(StartFree(entries, FILL_AS_CODED, kernelStart, kernelEnd), limit);
      (forall f | f in fs :: MapContains(entries, f)) && InRam(fs, GibCount(CeilingOf(entries, 0)))
  {
    var fs := Below(StartFree(entries, FILL_AS_CODED, kernelStart, kernelEnd), limit);
    forall f | f in fs ensures MapContains(entries, f) {
      if f >= MAX_FRAMES { AboveManaged(entries, f); } else { InitiallyFreeIff(entries, f); }
      assert !Hole(entries, kernelStart, kernelEnd, f);
    }
    RamIsMapped(entries, FILL_AS_CODED, fs);
  }

  // ---- Inputs for the failures ----

  // Without usable memory no frame is free, and the scan as coded leaves its array.
  lemma NoUsableMemory(entries: seq<E820Entry>)
    requires forall e | e in entries :: e.kind != 1
    ensures InitialFree(entries, ALL_ONES) == {}
  {
    forall f | f in InitialFree(entries, ALL_ONES) ensures false {
      if f >= MAX_FRAMES {
        AboveManaged(entries, f);
      } else {
        InitiallyFreeIff(entries, f);
      }
    }
  }

  // Two usable frames, at 64 MiB: enough for the root and the direct map, too few for any
  // kernel, whatever its size.
  const TWO_FRAMES: seq<E820Entry> := [E820Entry(0x400_0000, 0x2000, 1, 0)]

  lemma TwoFramesCrash(kernelStart: u64, kernelEnd: u64, rsp: u64, r: InitResult)
    requires kernelStart < kernelEnd <= 4096 * PMM_RESERVED_FRAMES
    requires STACK_WINDOW <= rsp <= 4096 * PMM_RESERVED_FRAMES - 8191
    requires Outcome(r, StartFree(TWO_FRAMES, ALL_ONES, kernelStart, kernelEnd),
                     LayoutOf(CeilingOf(TWO_FRAMES, 0), kernelStart, kernelEnd, rsp))
    ensures r.Crashed?
  {
    var free, c := StartFree(TWO_FRAMES, ALL_ONES, kernelStart, kernelEnd), CeilingOf(TWO_FRAMES, 0);
    TwoFree(kernelStart, kernelEnd);
    TwoCeiling();
    TooFewForAll(r, free, LayoutOf(c, kernelStart, kernelEnd, rsp));
  }

  lemma TwoCeiling()
    ensures CeilingOf(TWO_FRAMES, 0) == 0x400_2000 && GibCount(0x400_2000) == 1
  {
    assert TWO_FRAMES[..0] == [];
  }

  lemma TooFewForAll(r: InitResult, free: set<nat>, lay: Layout)
    requires free == {0x4000, 0x4001} && lay.gibs == 1 && lay.kernelPages > 0 && Outcome(r, free, lay)
    ensures r.Crashed?
  {
    ThreeTables(lay);
    assert |free| == 2;
  }

  lemma TwoFree(kernelStart: u64, kernelEnd: u64)
    requires kernelEnd <= 4096 * PMM_RESERVED_FRAMES
    ensures StartFree(TWO_FRAMES, ALL_ONES, kernelStart, kernelEnd) == {0x4000, 0x4001}
  {
    var e := TWO_FRAMES[0];
    forall f: nat ensures f in InitialFree(TWO_FRAMES, ALL_ONES) <==> f == 0x4000 || f == 0x4001 {
      assert MapContains(TWO_FRAMES, f) <==> e.kind == 1 && Inside(e, f);
      if f >= MAX_FRAMES { AboveManaged(TWO_FRAMES, f); } else { InitiallyFreeIff(TWO_FRAMES, f); }
    }
  }

  lemma ThreeTables(lay: Layout)
    requires lay.gibs == 1 && lay.kernelPages > 0
    ensures |lay.Direct().Nodes()| == 2 && |lay.Nodes()| > 2
  {
    var a, m := lay.kernelFirst, lay.kernelPages;
    assert HhdmNodes(1) == {Node(3, 256)};
    assert RangeNodes(0, 0) == {};
    assert lay.Direct().Nodes() == {Node(4, 0), Node(3, 256)};
    var n := Node(1, Prefix(1, a + m - 1));
    assert n in PathNodes(a + m - 1) && n in RangeNodes(a, m);
    Subset({Node(4, 0), Node(3, 256), n}, lay.Nodes());
  }

  // Under a boot map of 16 MiB start-up cannot reach the frames it takes, unless none is free:
  // every free frame, for every fill, lies past 64 MiB.
  lemma BootMapReaches(entries: seq<E820Entry>, fill: u64, kernelStart: u64, kernelEnd: u64, n: nat)
    requires n > 0
    ensures var free := StartFree(entries, fill, kernelStart, kernelEnd);
      (forall f | f in Least(free, n) :: 4096 * f + 4096 <= 0x100_0000) <==> free == {}
  {
    var free := StartFree(entries, fill, kernelStart, kernelEnd);
    if free != {} {
      var f := LeastOf(free);
      assert Below(free, f) == {} && f in Least(free, n);
    }
  }

  // pmm_init and then vmm_init, for any word that the bitmap is filled with. `vm` holds memory
  // before any tree exists; only the frames that will be tables need to be in it.
  method KernelStart(vm: AddressSpace, entries: seq<E820Entry>, fill: u64, kernelStart: u64, kernelEnd: u64, rsp: u64)
    returns (r: InitResult, ghost root: nat, ghost lay: Layout)
    requires vm.pmm.Valid() && vm.pmm.ceiling == 0 && CeilingOf(entries, 0) <= 0x8000_0000_0000
    requires kernelStart <= kernelEnd <= 4096 * PMM_RESERVED_FRAMES
    requires STACK_WINDOW <= rsp <= 4096 * PMM_RESERVED_FRAMES - 8191
    requires Least(StartFree(entries, fill, kernelStart, kernelEnd),
                   |LayoutOf(CeilingOf(entries, 0), kernelStart, kernelEnd, rsp).Nodes()|) <= vm.mem.Keys
    modifies vm, vm.pmm, vm.pmm.bitmap
    ensures lay == LayoutOf(CeilingOf(entries, 0), kernelStart, kernelEnd, rsp) && lay.Valid() && LowImage(lay)
    ensures vm.pmm.Valid()
    ensures Started(r, vm.Now(), root, StartFree(entries, fill, kernelStart, kernelEnd), vm.pmm.FreeSet(), lay)
    ensures r.Ready? ==> Target(vm.cr3) == root
  {
    LowKernel(kernelStart, kernelEnd, rsp);
    vm.pmm.Init(entries, fill, kernelStart, kernelEnd);
    lay := LayoutOf(CeilingOf(entries, 0), kernelStart, kernelEnd, rsp);
    r, root := vm.Init(kernelStart, kernelEnd, rsp);
    if r.Ready? { RootInCr3(vm.Now(), root, lay); }
  }

  // With the free frames below a limit vouched for, the system that start-up leaves is running.
  ghost method VouchFor(vm: AddressSpace, limit: nat, root: nat, lay: Layout, free0: set<nat>)
    requires vm.pmm.Valid() && lay.Valid() && LowImage(lay) && BuiltFrom(vm.Now(), root, lay, free0, vm.pmm.FreeSet())
    requires Below(vm.pmm.FreeSet(), limit) <= vm.mem.Keys
    requires InRam(vm.nodes.Keys, lay.gibs) && InRam(Below(vm.pmm.FreeSet(), limit), lay.gibs)
    modifies vm`limit
    ensures vm.limit == limit && Running(vm.Now(), root, lay.gibs) && Exclusive(vm.Now(), root, lay.gibs)
  {
    var s := vm.Now();
    vm.limit := limit;
    Parts(vm.pmm.FreeSet(), limit);
    MoveLimit(s, vm.Now(), root, lay);
    StartsRunning(vm.Now(), root, lay);
  }

  // Free frames may be counted in or out as long as they can be written and are no tables.
  lemma MoveLimit(s: Snap, s': Snap, root: nat, lay: Layout)
    requires lay.Valid() && Realizes(s, root, lay) && s'.mem == s.mem && s'.nodes == s.nodes
    requires forall f | f in s'.free :: f in s.mem && f !in s.nodes && f < 64 * BITMAP_WORDS && f < s'.beyond.limit
    ensures Realizes(s', root, lay)
  {
    forall w: nat | w < PAGES ensures s'.View(root, w) == lay.View(w) { assert s.View(root, w) == lay.View(w); }
  }

  lemma LowKernel(kernelStart: u64, kernelEnd: u64, rsp: u64)
    requires kernelStart <= kernelEnd <= 4096 * PMM_RESERVED_FRAMES
    requires STACK_WINDOW <= rsp <= 4096 * PMM_RESERVED_FRAMES - 8191
    ensures kernelStart / 4096 + KernelPages(kernelStart, kernelEnd) <= PMM_RESERVED_FRAMES
    ensures StackFirst(rsp) + StackPages(rsp) <= PMM_RESERVED_FRAMES
  {
  }

  lemma RootInCr3(s: Snap, root: nat, lay: Layout)
    requires s.Ok(root) && lay.Valid() && s.nodes.Values == lay.Nodes()
    ensures root < 0x100_0000_0000 && Target(4096 * root) == root
  {
    RootAt(s.mem, root, 0);
    TableIn(s, root, 4, Prefix(4, 0), root);
    FrameOfAddress(4096 * root, root);
  }
}
