/** Building and editing the translation tree: the walkers, map, unmap, page alloc and free. */
module Vmm {
  import opened Words
  import opened PageTable
  import opened Entries
  import opened Pmm
  import opened Walks
  import opened LeastFrames
  import opened Counting
  import opened Plan
  import opened Online
  import opened PageRuns
  import opened PageAccounts
  import opened LargePages

  const LEVELS_SHIFT: seq<nat> := [39, 30, 21, 12]

  // (vaddr >> levels_shift[i]) & 0x1FF
  method LevelIndex(vaddr: u64, i: nat, ghost l: nat, ghost vpn: nat) returns (idx: nat)
    requires 1 <= l && i + l == 4 && vpn == PageOf(vaddr)
    ensures idx == Prefix(l - 1, vpn) % 512
    ensures i == 3 ==> idx == vpn % 512
  {
    IndexIsPrefix(vaddr, 3 - i);
    idx := IndexAt(vaddr, LEVELS_SHIFT[i]);
  }

  // A call of vmm_page_alloc or vmm_page_free.
  datatype PageCall = AllocCall(vaddr: u64, flags: u64) | FreeCall(vaddr: u64)

  // Outside the direct map, with flags that leave the frame bits alone.
  ghost predicate Proper(c: PageCall, n: nat) {
    !InHhdm(n, PageOf(c.vaddr)) && (c.AllocCall? ==> And(c.flags, PAGE_ADDR_MASK) == 0)
  }

  // Ready is success; Refused is the C code's 0; Crashed is a write through
  // PMM_INVALID_FRAME.
  datatype InitResult = Ready | Refused | Crashed

  // Start-up is done when there are frames for all tables, refuses when there are too few for
  // the direct map alone, and crashes in between.
  ghost predicate Outcome(r: InitResult, free: set<nat>, lay: Layout) {
    && (r.Ready? <==> |free| >= |lay.Nodes()|)
    && (r.Refused? <==> |free| < |lay.Direct().Nodes()|)
  }

  // What a finished start-up has built, from the least of the frames that were free.
  ghost predicate BuiltFrom(s: Snap, root: nat, lay: Layout, free0: set<nat>, free: set<nat>)
    requires lay.Valid()
  {
    && BuiltAs(s, root, lay, Least(free0, |lay.Nodes()|)) && s.nodes.Keys == Least(free0, |lay.Nodes()|)
    && |s.nodes.Keys| == |lay.Nodes()| && free == free0 - s.nodes.Keys
  }

  ghost predicate Started(r: InitResult, s: Snap, root: nat, free0: set<nat>, free: set<nat>, lay: Layout)
    requires lay.Valid()
  {
    Outcome(r, free0, lay) && if r.Ready? then BuiltFrom(s, root, lay, free0, free) else free == {}
  }

  lemma NoFrames(lay: Layout)
    ensures Outcome(Refused, {}, lay)
  {
    RootNeeded(lay);
  }

  // The limit that leaves as many free frames below it as there are tables.
  lemma ChooseLimit(free: set<nat>, lay: Layout) returns (limit: nat)
    requires forall f | f in free :: f < 64 * BITMAP_WORDS
    ensures Below(free, limit) == Least(free, |lay.Nodes()|) && |Below(free, limit)| <= |lay.Nodes()|
    ensures From(free, limit) == {} || |Below(free, limit)| == |lay.Nodes()|
    ensures Below(free, limit) == {} ==> From(free, limit) == {}
  {
    RootNeeded(lay);
    limit := Choose(free, |lay.Nodes()|, 64 * BITMAP_WORDS);
  }

  lemma InitDone(r: InitResult, s: Snap, root: nat, free0: set<nat>, free: set<nat>, lay: Layout, limit: nat)
    requires lay.Valid() && Below(free0, limit) == Least(free0, |lay.Nodes()|)
    requires |Below(free0, limit)| <= |lay.Nodes()|
    requires From(free0, limit) == {} || |Below(free0, limit)| == |lay.Nodes()|
    requires s.free == Below(free, limit) && s.beyond.frames == From(free, limit) == From(free0, limit)
    requires Outcome(r, Below(free0, limit), lay) && (r.Ready? ==> BuiltAs(s, root, lay, Below(free0, limit)))
    requires !r.Ready? ==> s.free == {}
    ensures Started(r, s, root, free0, free, lay)
  {
    SplitAt(free0, limit);
    SplitAt(free, limit);
    if r.Ready? {
      OnePlaceEach(s, root);
      Fewer(s.nodes.Keys, Below(free0, limit));
    }
  }

  lemma KernelPagesIs(kernelStart: u64, kernelEnd: u64, m: nat)
    requires kernelStart <= kernelEnd
    ensures 4096 * m < kernelEnd - kernelStart <==> m < KernelPages(kernelStart, kernelEnd)
  {
  }

  lemma KernelPage(kernelStart: u64, m: nat, a: nat)
    requires a == kernelStart / 4096 && a + m < LOWER_HALF
    ensures Add64(kernelStart, 4096 * m) / 4096 == a + m
  {
    assert kernelStart + 4096 * m < TWO64;
  }

  class AddressSpace {
    const pmm: FrameAllocator
    var mem: Memory
    var cr3: u64
    ghost var nodes: map<nat, Node>
    ghost var limit: nat   // nothing is known of free frames from here on

    ghost function Now(): Snap
      requires pmm.Valid()
      reads `mem, `nodes, `limit, pmm.bitmap
    {
      Snap(mem, nodes, Within(pmm.FreeSet(), limit), Beyond(limit, Outside(pmm.FreeSet(), limit)))
    }

    constructor (pmm: FrameAllocator, mem: Memory)
      ensures this.pmm == pmm && this.mem == mem && cr3 == 0 && nodes == map[] && limit == 0
    {
      this.pmm := pmm;
      this.mem := mem;
      cr3 := 0;
      nodes := map[];
      limit := 0;
    }

    // pmm_frame_alloc, when the next free frame is below the limit.
    method NextFrame() returns (addr: u64, ghost f: nat)
      requires pmm.Valid() && Now().HasNext()
      modifies pmm.bitmap
      ensures old(Now()).free == {} ==> addr == PMM_INVALID_FRAME && f == 0 && Now() == old(Now())
      ensures old(Now()).free == {} ==> pmm.FreeSet() == {}
      ensures f < 64 * BITMAP_WORDS
      ensures old(Now()).free != {} ==>
        addr == 4096 * f && IsLeast(f, old(Now()).free) && Now() == old(Now()).(free := old(Now()).free - {f})
    {
      ghost var s := pmm.FreeSet();
      SplitAt(s, limit);
      Parts(s, limit);
      addr, f := pmm.FrameAlloc();
      Parts(pmm.FreeSet(), limit);
      if Below(s, limit) != {} { TakeLeast(s, limit, f); }
    }

    // ---- Physical memory, reached directly while the boot identity map is loaded ----

    // table[idx]
    method Load(table: u64, idx: nat, ghost t: nat) returns (w: u64)
      requires table == 4096 * t && t in mem && idx < 512
      ensures w == mem[t][idx]
    {
      w := mem[table / 4096][idx];
    }

    // table[idx] = w
    method Store(table: u64, idx: nat, w: u64, ghost t: nat)
      requires table == 4096 * t && t in mem && idx < 512
      modifies `mem
      ensures mem == Replaced(old(mem), t, idx, w)
    {
      mem := mem[table / 4096 := mem[table / 4096][idx := w]];
    }

    // zero(addr, 4096), one word at a time.
    method ZeroPage(addr: u64, ghost f: nat)
      requires addr == 4096 * f && f in mem
      modifies `mem
      ensures mem == old(mem)[f := ZERO_TABLE]
    {
      var i := 0;
      while i < 512
        invariant i <= 512
        invariant f in mem && mem == old(mem)[f := mem[f]]
        invariant forall k | 0 <= k < i :: mem[f][k] == 0
      {
        Store(addr, i, 0, f);
        i := i + 1;
      }
      assert mem[f] == ZERO_TABLE;
    }

    // The branch of the walkers that hangs a new table in slot `idx` of table `current`.
    // With no free frame nothing is written and `entry` is PMM_INVALID_FRAME.
    method AddTable(current: u64, idx: nat, ghost t: nat) returns (entry: u64, ghost f: nat)
      requires pmm.Valid() && current == 4096 * t && t in mem && idx < 512 && Now().HasNext()
      requires t !in Now().free && forall f | f in Now().free :: f in mem
      modifies `mem, pmm.bitmap
      ensures old(Now()).free == {} ==> entry == PMM_INVALID_FRAME && Now() == old(Now())
      ensures old(Now()).free != {} ==>
        IsLeast(f, old(Now()).free) && f < 64 * BITMAP_WORDS && entry == 4096 * f + 3 &&
        Now() == old(Now()).(mem := Installed(old(mem), t, idx, f, 4096 * f + 3), free := old(Now()).free - {f})
    {
      var newFrame;
      newFrame, f := NextFrame();
      if newFrame == PMM_INVALID_FRAME { return PMM_INVALID_FRAME, f; }
      TableEntryFields(f);
      ZeroPage(newFrame, f);
      entry := TableEntry(newFrame);
      Store(current, idx, entry, t);
      assert mem == Installed(old(mem), t, idx, f, entry);
    }

    // ---- The offline walker ----

    // The body of the walk's loop: from the table at `current` to the next one.
    method DescendOffline(current: u64, idx: nat, create: bool, ghost t: nat)
      returns (next: u64, ghost u: nat, r: PteResult)
      requires pmm.Valid() && current == 4096 * t && t in mem && idx < 512
      requires create && !Present(mem[t][idx]) ==> Now().HasNext()
      requires t !in Now().free && forall f | f in Now().free :: f in mem
      modifies `mem, pmm.bitmap
      ensures Stepped(old(Now()), Now(), t, idx, create, u, r)
      ensures r.Pte? ==> next == 4096 * u
      ensures !create ==> mem == old(mem)
    {
      next, u := 0, 0;
      var entry := Load(current, idx, t);
      AndOne(entry);
      if And(entry, PAGE_PRESENT) == 0 {
        if !create { return next, u, Null; }
        entry, u := AddTable(current, idx, t);
        if entry == PMM_INVALID_FRAME { return next, u, Fault; }   // zero() would write at ~0
        TableFields(u);
      }
      AndAddrMask(entry);
      u := Target(entry);
      next := And(entry, PAGE_ADDR_MASK);
      return next, u, Pte(next, 0);
    }

    // The same round, seen as one more level of the walk for page vpn.
    method NextOffline(current: u64, idx: nat, create: bool, ghost s0: Snap, ghost root: nat,
                       ghost l: nat, ghost vpn: nat, ghost t: nat)
      returns (next: u64, ghost u: nat, r: PteResult)
      requires pmm.Valid() && current == 4096 * t && 2 <= l <= 4 && vpn < PAGES
      requires Walked(s0, Now(), root, vpn) && s0.NotLarge(root, vpn) && idx == Prefix(l - 1, vpn) % 512
      requires s0.Ok(root) && (create ==> Affords(s0, PathNodes(vpn)))
      requires TableAt(mem, root, l, Prefix(l, vpn)) == Some(t)
      modifies `mem, `nodes, pmm.bitmap
      ensures Walked(s0, Now(), root, vpn)
      ensures !create ==> mem == old(mem) && nodes == old(nodes)
      ensures r.Pte? ==> next == 4096 * u && TableAt(mem, root, l - 1, Prefix(l - 1, vpn)) == Some(u)
      ensures Stopped(Now(), root, vpn, create, r)
    {
      ghost var s := Now();
      TableIn(s, root, l, Prefix(l, vpn), t);
      if create { StepAffords(s0, s, root, l, vpn, t); }
      next, u, r := DescendOffline(current, idx, create, t);
      ghost var s' := Now();
      StepKeepsWalk(s0, s, s', root, l, vpn, t, create, u, r);
      nodes := Placed(s, s', u, l - 1, vpn).nodes;
      assert Now() == Placed(s, s', u, l - 1, vpn);
    }

    method PteGetOffline(pml4Virt: u64, vaddr: u64, create: bool, ghost root: nat, ghost vpn: nat)
      returns (r: PteResult, ghost t: nat)
      requires pmm.Valid() && pml4Virt == 4096 * root && Now().Ok(root)
      requires vpn == PageOf(vaddr) && Now().NotLarge(root, vpn)
      requires create ==> Affords(Now(), PathNodes(vpn))
      modifies `mem, `nodes, pmm.bitmap
      ensures Walked(old(Now()), Now(), root, vpn)
      ensures !create ==> mem == old(mem) && nodes == old(nodes)
      ensures r.Pte? ==> TableAt(mem, root, 1, Prefix(1, vpn)) == Some(t) && r == Pte(4096 * t, vpn % 512)
      ensures Stopped(Now(), root, vpn, create, r)
      ensures create ==> (r.Pte? <==> CanMap(old(Now()), vpn))
    {
      ghost var s0 := Now();
      WalkStart(s0, root, vpn);
      var current := pml4Virt;
      t := root;
      ghost var l := 4;
      var i := 0;
      while i < 3
        invariant 0 <= i && 1 <= l && i + l == 4 && current == 4096 * t
        invariant Walked(s0, Now(), root, vpn)
        invariant !create ==> mem == old(mem) && nodes == old(nodes)
        invariant TableAt(mem, root, l, Prefix(l, vpn)) == Some(t)
      {
        var idx := LevelIndex(vaddr, i, l, vpn);
        current, t, r := NextOffline(current, idx, create, s0, root, l, vpn, t);
        if !r.Pte? {
          if create { PathIff(s0, Now(), root, vpn, false); }
          return;
        }
        i, l := i + 1, l - 1;
      }
      var ptIdx := LevelIndex(vaddr, i, l, vpn);
      r := Pte(current, ptIdx);
      PathIff(s0, Now(), root, vpn, true);
    }

    method MapInternal(pml4Virt: u64, vaddr: u64, paddr: u64, flags: u64, ghost root: nat, ghost vpn: nat)
      returns (fault: bool)
      requires pmm.Valid() && pml4Virt == 4096 * root && Now().Ok(root)
      requires vpn == PageOf(vaddr) && Now().NotLarge(root, vpn) && Affords(Now(), PathNodes(vpn))
      modifies `mem, `nodes, pmm.bitmap
      ensures MappedOne(old(Now()), Now(), root, vpn, LeafEntry(paddr, flags), fault)
      ensures !fault <==> CanMap(old(Now()), vpn)
    {
      ghost var s0 := Now();
      LeafFields(paddr, flags);
      var pte, t := PteGetOffline(pml4Virt, vaddr, true, root, vpn);
      if pte.Fault? { return true; }
      if pte.Pte? {
        ghost var s := Now();
        TableIn(s, root, 1, Prefix(1, vpn), t);
        Store(pte.table, pte.index, LeafEntry(paddr, flags), t);
        StoreLeaf(s0, s, Now(), root, vpn, t, LeafEntry(paddr, flags));
      }
      return false;
    }

    // The first half of Map1Gb: the level-4 slot links a level-3 table.
    method EnsurePdpt(pml4Virt: u64, pml4Idx: nat, ghost root: nat, ghost vpn: nat) returns (ok: bool)
      requires pmm.Valid() && pml4Virt == 4096 * root && Now().Ok(root) && vpn < PAGES
      requires pml4Idx == Prefix(3, vpn) % 512 && TableAt(mem, root, 2, Prefix(2, vpn)) == None
      requires Node(3, Prefix(3, vpn)) !in nodes.Values ==> Now().HasNext()
      modifies `mem, `nodes, pmm.bitmap
      ensures Now().Ok(root) && Grew(old(Now()), Now()) && SameView(old(Now()), Now(), root)
      ensures forall t | t in nodes && t !in old(nodes) :: nodes[t] == Node(3, Prefix(3, vpn))
      ensures ok ==> root in mem && Present(mem[root][pml4Idx]) && TableAt(mem, root, 2, Prefix(2, vpn)) == None
      ensures !ok ==> Now() == old(Now()) && Now().free == {} && TableAt(mem, root, 3, Prefix(3, vpn)) == None
    {
      ghost var s := Now();
      RootAt(mem, root, vpn);
      TableIn(s, root, 4, Prefix(4, vpn), root);
      FollowLink(s, root, 4, vpn, root);
      var entry := Load(pml4Virt, pml4Idx, root);
      AndOne(entry);
      if And(entry, PAGE_PRESENT) == 0 {
        ghost var u;
        NotPlaced(s, root, 3, Prefix(3, vpn));
        entry, u := AddTable(pml4Virt, pml4Idx, root);
        if entry == PMM_INVALID_FRAME { return false; }
        ghost var s' := WithTable(s, 4, vpn, root, u);
        assert Now() == s'.(nodes := nodes);
        InstallOk(s, root, 4, vpn, root, u, s');
        NoTableBelow(s, root, vpn, u, s');
        TableFields(u);
        nodes := s'.nodes;
        assert Now() == s';
      }
      return true;
    }

    // Ends the walk for the GiB of `vaddr` at level 3.
    method Map1Gb(pml4Virt: u64, vaddr: u64, paddr: u64, flags: u64, ghost root: nat, ghost vpn: nat, ghost e: u64)
      returns (ok: bool)
      requires pmm.Valid() && pml4Virt == 4096 * root && Now().Ok(root) && vpn == PageOf(vaddr)
      requires e == HugeEntry(paddr, flags) && Present(e) && LargePage(e)
      requires TableAt(mem, root, 2, Prefix(2, vpn)) == None
      requires Node(3, Prefix(3, vpn)) !in nodes.Values ==> Now().HasNext()
      modifies `mem, `nodes, pmm.bitmap
      ensures Now().Ok(root) && Grew(old(Now()), Now())
      ensures forall t | t in nodes && t !in old(nodes) :: nodes[t] == Node(3, Prefix(3, vpn))
      ensures ok ==> LargeAt(old(Now()), Now(), root, vpn, e)
      ensures ok ==> TableAt(mem, root, 3, Prefix(3, vpn)).Some?
      ensures !ok ==> Now() == old(Now()) && Now().free == {} && TableAt(mem, root, 3, Prefix(3, vpn)) == None
    {
      ghost var s0 := Now();
      var pml4Idx := LevelIndex(vaddr, 0, 4, vpn);
      var pdptIdx := LevelIndex(vaddr, 1, 3, vpn);
      ok := EnsurePdpt(pml4Virt, pml4Idx, root, vpn);
      if !ok { return; }
      ghost var s := Now();
      var entry := Load(pml4Virt, pml4Idx, root);
      ghost var t := Target(entry);
      AndAddrMask(entry);
      RootAt(mem, root, vpn);
      FollowLink(s, root, 4, vpn, root);
      TableIn(s, root, 3, Prefix(3, vpn), t);
      Store(And(entry, PAGE_ADDR_MASK), pdptIdx, HugeEntry(paddr, flags), t);
      StoreLarge(s0, s, Now(), root, vpn, t, e);
    }

    // One round of the loops that map pages to themselves.
    method MapSelf(pml4Virt: u64, addr: u64, ghost root: nat, ghost s0: Snap, ghost a: nat, ghost m: nat, ghost n: nat)
      returns (fault: bool)
      requires pmm.Valid() && pml4Virt == 4096 * root && LowerOpen(s0, root)
      requires SelfMapping(s0, Now(), root, a, m) && addr / 4096 == a + m < LOWER_HALF
      requires s0.Ok(root) && m < n && Affords(s0, RangeNodes(a, n))
      modifies `mem, `nodes, pmm.bitmap
      ensures !fault ==> SelfMapping(s0, Now(), root, a, m + 1)
      ensures fault ==> Grew(s0, Now()) && RanOut(s0, Now(), root, RangeNodes(a, m + 1))
    {
      ghost var s, w := Now(), a + m;
      SelfReady(s0, s, root, a, m, n, w);
      SelfPage(addr, w);
      fault := MapInternal(pml4Virt, addr, addr, PAGE_WRITABLE, root, w);
      SelfRound(s0, s, Now(), root, a, m, fault);
    }

    method HhdmCreate(pml4Virt: u64, ghost root: nat) returns (ok: bool)
      requires pmm.Valid() && pml4Virt == 4096 * root && pmm.ceiling <= 0x8000_0000_0000
      requires HhdmMapping(Now(), Now(), root, 0) && Affords(Now(), HhdmNodes(GibCount(pmm.ceiling)))
      modifies `mem, `nodes, pmm.bitmap
      ensures ok ==> HhdmMapping(old(Now()), Now(), root, GibCount(pmm.ceiling))
      ensures !ok ==> Grew(old(Now()), Now()) && RanOut(old(Now()), Now(), root, HhdmNodes(GibCount(pmm.ceiling)))
    {
      ghost var s0 := Now();
      var maxPa := pmm.HighestAddress();
      ghost var n := GibCount(maxPa);
      var p := 0;
      ghost var k := 0;
      ok := true;
      GibCountIs(maxPa, 0);
      OpenHhdm(s0, s0, root, 0, n, true);
      while ok && p < maxPa
        invariant p == 0x4000_0000 * k && k <= n
        invariant p < maxPa <==> k < n
        invariant HhdmLoop(s0, Now(), root, k, n, ok)
        decreases ok, n - k
      {
        ok := MapGib(pml4Virt, p, root, s0, k, n);
        GibCountIs(maxPa, k + 1);
        if ok { p, k := p + GIB_SIZE, k + 1; }
      }
      OpenHhdm(s0, Now(), root, k, n, ok);
    }

    // One round of the loop over the GiBs of physical memory.
    method MapGib(pml4Virt: u64, p: u64, ghost root: nat, ghost s0: Snap, ghost k: nat, ghost n: nat) returns (ok: bool)
      requires pmm.Valid() && pml4Virt == 4096 * root && p == 0x4000_0000 * k && k < n <= 0x2_0000
      requires HhdmLoop(s0, Now(), root, k, n, true) && s0.Ok(root) && Affords(s0, HhdmNodes(n))
      modifies `mem, `nodes, pmm.bitmap
      ensures HhdmLoop(s0, Now(), root, if ok then k + 1 else k, n, ok)
    {
      ghost var s, vpn, e := Now(), LOWER_HALF + 0x4_0000 * k, GibEntry(k);
      OpenHhdm(s0, s, root, k, n, true);
      GibMapped(k, p, vpn, e);
      NoLowTables(s, root, Prefix(2, vpn));
      GibAffords(s0, s, root, k, n);
      ok := Map1Gb(pml4Virt, Add64(p, HHDM_OFFSET), p, HHDM_FLAGS, root, vpn, e);
      if ok {
        Node3Placed(Now(), root, Prefix(3, vpn));
        HhdmMappingMore(s0, s, Now(), root, k, vpn);
      } else {
        HhdmRanOut(s0, s, root, k, n, Prefix(3, vpn));
      }
      OpenHhdm(s0, Now(), root, if ok then k + 1 else k, n, ok);
    }

    // The loop of KernelMap over the kernel image.
    method MapKernel(pml4Virt: u64, kernelStart: u64, kernelEnd: u64, ghost root: nat) returns (fault: bool)
      requires pmm.Valid() && pml4Virt == 4096 * root && kernelStart <= kernelEnd
      requires kernelStart / 4096 + KernelPages(kernelStart, kernelEnd) <= LOWER_HALF
      requires Now().Ok(root) && LowerOpen(Now(), root)
      requires Affords(Now(), RangeNodes(kernelStart / 4096, KernelPages(kernelStart, kernelEnd)))
      modifies `mem, `nodes, pmm.bitmap
      ensures var a, m := kernelStart / 4096, KernelPages(kernelStart, kernelEnd);
        && (!fault ==> SelfMapping(old(Now()), Now(), root, a, m))
        && (fault ==> Grew(old(Now()), Now()) && RanOut(old(Now()), Now(), root, RangeNodes(a, m)))
    {
      ghost var s0, a, n := Now(), kernelStart / 4096, KernelPages(kernelStart, kernelEnd);
      var size := Sub64(kernelEnd, kernelStart);
      var i := 0;
      ghost var m := 0;
      fault := false;
      OpenSelf(s0, s0, root, a, 0);
      while !fault && i < size
        invariant i == 4096 * m && m <= n
        invariant i < size <==> m < n
        invariant !fault ==> SelfMapping(s0, Now(), root, a, m)
        invariant fault ==> Grew(s0, Now()) && RanOut(s0, Now(), root, RangeNodes(a, n))
        decreases !fault, n - m
      {
        KernelPage(kernelStart, m, a);
        fault := MapSelf(pml4Virt, Add64(kernelStart, i), root, s0, a, m, n);
        if fault {
          RanOutLater(s0, Now(), root, a, m + 1, n);
        } else {
          KernelPagesIs(kernelStart, kernelEnd, m + 1);
          i, m := i + PAGE_SIZE, m + 1;
        }
      }
    }

    // The loop of KernelMap over the stack window.
    method MapStack(pml4Virt: u64, rsp: u64, ghost root: nat) returns (fault: bool)
      requires pmm.Valid() && pml4Virt == 4096 * root && STACK_WINDOW <= rsp <= 0x8000_0000_0000 - 8191
      requires Now().Ok(root) && LowerOpen(Now(), root)
      requires Affords(Now(), RangeNodes(StackFirst(rsp), StackPages(rsp)))
      modifies `mem, `nodes, pmm.bitmap
      ensures !fault ==> SelfMapping(old(Now()), Now(), root, StackFirst(rsp), StackPages(rsp))
      ensures fault ==> Grew(old(Now()), Now()) &&
                        RanOut(old(Now()), Now(), root, RangeNodes(StackFirst(rsp), StackPages(rsp)))
    {
      ghost var s0, a, n := Now(), StackFirst(rsp), StackPages(rsp);
      var start, end := StackBounds(rsp);
      var va := start;
      ghost var m := 0;
      fault := false;
      OpenSelf(s0, s0, root, a, 0);
      while !fault && va < end
        invariant va == 4096 * (a + m) && m <= n
        invariant !fault ==> SelfMapping(s0, Now(), root, a, m)
        invariant fault ==> Grew(s0, Now()) && RanOut(s0, Now(), root, RangeNodes(a, n))
        decreases !fault, n - m
      {
        fault := MapSelf(pml4Virt, va, root, s0, a, m, n);
        if fault {
          RanOutLater(s0, Now(), root, a, m + 1, n);
        } else {
          va, m := va + PAGE_SIZE, m + 1;
        }
      }
    }

    // align_down(rsp - window) and align_up(rsp + PAGE_SIZE).
    method StackBounds(rsp: u64) returns (start: u64, end: u64)
      requires STACK_WINDOW <= rsp <= 0x8000_0000_0000 - 8191
      ensures start == 4096 * StackFirst(rsp) && end == 4096 * (StackFirst(rsp) + StackPages(rsp))
      ensures StackFirst(rsp) + StackPages(rsp) <= LOWER_HALF
      ensures start <= rsp - 0x4_0000 < start + 4096 && end - 4096 < rsp + 4096 <= end
    {
      AlignDownIsFloor(Sub64(rsp, STACK_WINDOW));
      AlignUpIsCeiling(Add64(rsp, PAGE_SIZE));
      StackEdges(rsp);
      start := AlignDown(Sub64(rsp, STACK_WINDOW));
      end := AlignUp(Add64(rsp, PAGE_SIZE));
    }

    method KernelMap(pml4Virt: u64, kernelStart: u64, kernelEnd: u64, rsp: u64, ghost root: nat) returns (fault: bool)
      requires pmm.Valid() && pml4Virt == 4096 * root && kernelStart <= kernelEnd
      requires kernelStart / 4096 + KernelPages(kernelStart, kernelEnd) <= LOWER_HALF
      requires STACK_WINDOW <= rsp <= 0x8000_0000_0000 - 8191
      requires Now().Ok(root) && LowerOpen(Now(), root)
      requires Affords(Now(), RangeNodes(kernelStart / 4096, KernelPages(kernelStart, kernelEnd)) +
                              RangeNodes(StackFirst(rsp), StackPages(rsp)))
      modifies `mem, `nodes, pmm.bitmap
      ensures Grew(old(Now()), Now())
      ensures var k, kn := kernelStart / 4096, KernelPages(kernelStart, kernelEnd);
        var t, tn := StackFirst(rsp), StackPages(rsp);
        && (!fault ==> BothMapped(old(Now()), Now(), root, k, kn, t, tn))
        && (fault ==> RanOut(old(Now()), Now(), root, RangeNodes(k, kn) + RangeNodes(t, tn)))
    {
      ghost var s0, k, kn := Now(), kernelStart / 4096, KernelPages(kernelStart, kernelEnd);
      ghost var t, tn := StackFirst(rsp), StackPages(rsp);
      AffordsFewer(s0, RangeNodes(k, kn), RangeNodes(k, kn) + RangeNodes(t, tn));
      fault := MapKernel(pml4Virt, kernelStart, kernelEnd, root);
      ghost var s1 := Now();
      if fault {
        RanOutInUnion(s0, s1, s1, root, RangeNodes(k, kn), RangeNodes(t, tn));
        return;
      }
      SelfStaysOpen(s0, s1, root, k, kn);
      StackAffords(s0, s1, root, k, kn, t, tn);
      fault := MapStack(pml4Virt, rsp, root);
      ghost var s2 := Now();
      if fault {
        RanOutAfter(s0, s1, s2, root, RangeNodes(k, kn), RangeNodes(t, tn));
      } else {
        BothRanges(s0, s1, s2, root, k, kn, t, tn);
      }
      GrewTwice(s0, s1, s2);
    }

    // Init once the root table is in place.
    method Populate(pml4Virt: u64, kernelStart: u64, kernelEnd: u64, rsp: u64,
                    ghost root: nat, ghost free: set<nat>, ghost lay: Layout)
      returns (r: InitResult)
      requires pmm.Valid() && pml4Virt == 4096 * root && pmm.ceiling <= 0x8000_0000_0000 && kernelStart <= kernelEnd
      requires kernelStart / 4096 + KernelPages(kernelStart, kernelEnd) <= LOWER_HALF
      requires STACK_WINDOW <= rsp <= 0x8000_0000_0000 - 8191
      requires lay == LayoutOf(pmm.ceiling, kernelStart, kernelEnd, rsp) && lay.Valid()
      requires HhdmMapping(Now(), Now(), root, 0) && nodes == map[root := Node(4, 0)]
      requires root in free && Now().free == free - {root}
      requires Now().beyond.frames == {} || |free| >= |lay.Nodes()|
      modifies `mem, `nodes, pmm.bitmap
      ensures Outcome(r, free, lay) && Now().beyond == old(Now()).beyond
      ensures r.Ready? ==> BuiltAs(Now(), root, lay, free)
      ensures !r.Ready? ==> Now().free == {}
    {
      ghost var s0 := Now();
      PlanAffords(s0, root, free, lay);
      AffordsFewer(s0, HhdmNodes(lay.gibs), lay.Nodes());
      var ok := HhdmCreate(pml4Virt, root);
      if ok {
        r := AddSelfPages(pml4Virt, kernelStart, kernelEnd, rsp, root, free, lay, s0);
      } else {
        DirectTooFew(s0, Now(), root, free, lay);
        r := Refused;
      }
    }

    // Init once the direct map is in place.
    method AddSelfPages(pml4Virt: u64, kernelStart: u64, kernelEnd: u64, rsp: u64,
                        ghost root: nat, ghost free: set<nat>, ghost lay: Layout, ghost s0: Snap)
      returns (r: InitResult)
      requires pmm.Valid() && pml4Virt == 4096 * root && kernelStart <= kernelEnd
      requires kernelStart / 4096 + KernelPages(kernelStart, kernelEnd) <= LOWER_HALF
      requires STACK_WINDOW <= rsp <= 0x8000_0000_0000 - 8191
      requires lay == LayoutOf(pmm.ceiling, kernelStart, kernelEnd, rsp) && lay.Valid()
      requires s0.Ok(root) && s0.nodes == map[root := Node(4, 0)] && root in free && s0.free == free - {root}
      requires HhdmMapping(s0, Now(), root, lay.gibs) && Affords(s0, lay.Nodes())
      modifies `mem, `nodes, pmm.bitmap
      ensures Outcome(r, free, lay) && Now().beyond == s0.beyond
      ensures r.Ready? ==> BuiltAs(Now(), root, lay, free)
      ensures !r.Ready? ==> Now().free == {}
    {
      ghost var s1 := Now();
      DirectEnough(s0, s1, root, free, lay);
      HhdmLeavesLower(s0, s1, root, lay.gibs);
      RestAffords(s0, s1, root, lay);
      var fault := KernelMap(pml4Virt, kernelStart, kernelEnd, rsp, root);
      PopulateDone(s0, s1, Now(), root, free, lay, fault);
      r := if fault then Crashed else Ready;
    }

    // The root table, zeroed, before anything is mapped.
    method NewRoot() returns (pml4Phys: u64, ghost root: nat)
      requires pmm.Valid() && Now().HasNext() && Now().free <= mem.Keys
      modifies `mem, `nodes, pmm.bitmap
      ensures old(Now()).free == {} ==> pml4Phys == PMM_INVALID_FRAME && Now() == old(Now())
      ensures old(Now()).free != {} ==>
        pml4Phys == 4096 * root && pml4Phys != PMM_INVALID_FRAME && root in old(Now()).free &&
        HhdmMapping(Now(), Now(), root, 0) && nodes == map[root := Node(4, 0)]
      ensures old(Now()).free != {} ==> Now().free == old(Now()).free - {root} && Now().beyond == old(Now()).beyond
    {
      pml4Phys, root := NextFrame();
      if pml4Phys == PMM_INVALID_FRAME { return; }
      ZeroPage(pml4Phys, root);
      nodes := map[root := Node(4, 0)];
      Parts(pmm.FreeSet(), limit);
      RootTree(Now(), root);
    }

    // Init but for the CR3 load, on the free frames below the limit.
    method BuildTables(kernelStart: u64, kernelEnd: u64, rsp: u64, ghost free: set<nat>, ghost lay: Layout)
      returns (r: InitResult, pml4Phys: u64, ghost root: nat)
      requires pmm.Valid() && pmm.ceiling <= 0x8000_0000_0000 && kernelStart <= kernelEnd
      requires kernelStart / 4096 + KernelPages(kernelStart, kernelEnd) <= LOWER_HALF
      requires STACK_WINDOW <= rsp <= 0x8000_0000_0000 - 8191
      requires lay == LayoutOf(pmm.ceiling, kernelStart, kernelEnd, rsp) && lay.Valid()
      requires Now().free == free && free <= mem.Keys && Now().HasNext()
      requires Now().beyond.frames == {} || |free| >= |lay.Nodes()|
      modifies `mem, `nodes, pmm.bitmap
      ensures Outcome(r, free, lay) && Now().beyond == old(Now()).beyond
      ensures r.Ready? ==> pml4Phys == 4096 * root && BuiltAs(Now(), root, lay, free)
      ensures !r.Ready? ==> Now().free == {}
    {
      pml4Phys, root := NewRoot();
      if pml4Phys == PMM_INVALID_FRAME {
        NoFrames(lay);
        r := Refused;
      } else {
        r := Populate(pml4Phys, kernelStart, kernelEnd, rsp, root, free, lay);
      }
    }

    // Only the least free frames are touched, as many as there are tables; of the others, which
    // may not be memory, nothing is asked. The CR3 load is the last assignment.
    method Init(kernelStart: u64, kernelEnd: u64, rsp: u64) returns (r: InitResult, ghost root: nat)
      requires pmm.Valid() && pmm.ceiling <= 0x8000_0000_0000 && kernelStart <= kernelEnd
      requires kernelStart / 4096 + KernelPages(kernelStart, kernelEnd) <= LOWER_HALF
      requires STACK_WINDOW <= rsp <= 0x8000_0000_0000 - 8191
      requires Least(pmm.FreeSet(), |LayoutOf(pmm.ceiling, kernelStart, kernelEnd, rsp).Nodes()|) <= mem.Keys
      modifies this, pmm.bitmap
      ensures LayoutOf(pmm.ceiling, kernelStart, kernelEnd, rsp).Valid()
      ensures Started(r, Now(), root, old(pmm.FreeSet()), pmm.FreeSet(),
                      LayoutOf(pmm.ceiling, kernelStart, kernelEnd, rsp))
      ensures cr3 == if r.Ready? then 4096 * root else old(cr3)
    {
      ghost var free := pmm.FreeSet();
      ghost var lay := LayoutOf(pmm.ceiling, kernelStart, kernelEnd, rsp);
      LayoutFits(pmm.ceiling, kernelStart, kernelEnd, rsp);
      ghost var l := ChooseLimit(free, lay);
      limit := l;
      Parts(free, l);
      var pml4Phys;
      r, pml4Phys, root := BuildTables(kernelStart, kernelEnd, rsp, Below(free, l), lay);
      Parts(pmm.FreeSet(), l);
      InitDone(r, Now(), root, free, pmm.FreeSet(), lay, l);
      if r.Ready? { cr3 := pml4Phys; }
    }

    // ---- Memory through the direct map, with the tree in CR3 loaded ----

    method Pml4Get() returns (pml4Phys: u64)
      ensures pml4Phys == 4096 * Target(cr3)
    {
      AndAddrMask(cr3);
      pml4Phys := And(cr3, PAGE_ADDR_MASK);
    }

    // The processor's translation of the address of word idx of frame t in the direct map.
    method Translate(va: u64, ghost root: nat, ghost n: nat, ghost t: nat, ghost idx: nat) returns (pa: u64)
      requires pmm.Valid() && Target(cr3) == root && DirectMap(Now(), root, n)
      requires t < 0x4_0000 * n && idx < 512 && va == 4096 * t + 8 * idx + HHDM_OFFSET
      ensures pa == 4096 * t + 8 * idx
    {
      HhdmAccess(Now(), root, n, t, idx, va);
      var tr := Walk(mem, Target(cr3), 4, PageOf(va));
      pa := PhysOf(tr, va).value;
    }

    method LoadVirt(table: u64, idx: nat, ghost root: nat, ghost n: nat, ghost t: nat) returns (w: u64)
      requires pmm.Valid() && Target(cr3) == root && DirectMap(Now(), root, n)
      requires t < 0x4_0000 * n && idx < 512 && table == 4096 * t + HHDM_OFFSET && t in mem
      ensures w == mem[t][idx]
    {
      var pa := Translate(table + 8 * idx, root, n, t, idx);
      w := mem[pa / 4096][pa % 4096 / 8];
    }

    method StoreVirt(table: u64, idx: nat, w: u64, ghost root: nat, ghost n: nat, ghost t: nat)
      requires pmm.Valid() && Target(cr3) == root && DirectMap(Now(), root, n)
      requires t < 0x4_0000 * n && idx < 512 && table == 4096 * t + HHDM_OFFSET && t in mem
      modifies `mem
      ensures mem == Replaced(old(mem), t, idx, w)
    {
      var pa := Translate(table + 8 * idx, root, n, t, idx);
      mem := mem[pa / 4096 := mem[pa / 4096][pa % 4096 / 8 := w]];
    }

    // zero(vmm_phys_to_virt(frame), 4096), one word at a time.
    method ZeroVirt(addr: u64, ghost root: nat, ghost n: nat, ghost f: nat)
      requires pmm.Valid() && Target(cr3) == root && Now().Ok(root) && DirectMap(Now(), root, n)
      requires f < 0x4_0000 * n && addr == 4096 * f + HHDM_OFFSET && f in mem && f !in nodes
      modifies `mem
      ensures mem == old(mem)[f := ZERO_TABLE]
    {
      ghost var s0 := Now();
      var i := 0;
      while i < 512
        invariant i <= 512
        invariant f in mem && mem == s0.mem[f := mem[f]]
        invariant forall k | 0 <= k < i :: mem[f][k] == 0
      {
        StoreKeepsView(s0, Now(), root, f, mem[f]);
        SameDirectMap(s0, Now(), root, n);
        StoreVirt(addr, i, 0, root, n, f);
        i := i + 1;
      }
      assert mem[f] == ZERO_TABLE;
    }

    // ---- The online walker ----

    method AddTableVirt(current: u64, idx: nat, ghost root: nat, ghost n: nat, ghost t: nat)
      returns (entry: u64, ghost f: nat)
      requires pmm.Valid() && Target(cr3) == root && Running(Now(), root, n) && t in mem && t < 0x4_0000 * n
      requires idx < 512 && current == 4096 * t + HHDM_OFFSET && Now().HasNext()
      modifies `mem, pmm.bitmap
      ensures old(Now()).free == {} ==> entry == PMM_INVALID_FRAME && Now() == old(Now())
      ensures old(Now()).free != {} ==>
        IsLeast(f, old(Now()).free) && f < 64 * BITMAP_WORDS && entry == 4096 * f + 3 && t in old(mem) &&
        Now() == old(Now()).(mem := Installed(old(mem), t, idx, f, 4096 * f + 3), free := old(Now()).free - {f})
    {
      ghost var s := Now();
      var newFrame;
      newFrame, f := NextFrame();
      if newFrame == PMM_INVALID_FRAME { return PMM_INVALID_FRAME, f; }
      TableEntryFields(f);
      TakeFrame(s, Now(), root, n, f);
      ZeroVirt(Add64(newFrame, HHDM_OFFSET), root, n, f);
      entry := TableEntry(newFrame);
      ZeroedFrame(s, Now(), root, n, f);
      StoreVirt(current, idx, entry, root, n, t);
    }

    // The body of the online walk's loop. Running out of frames is NULL here.
    method DescendVirt(current: u64, idx: nat, create: bool, ghost root: nat, ghost n: nat, ghost t: nat)
      returns (next: u64, ghost u: nat, r: PteResult)
      requires pmm.Valid() && Target(cr3) == root && Running(Now(), root, n) && t < 0x4_0000 * n
      requires idx < 512 && current == 4096 * t
      requires t in mem && (create && !Present(mem[t][idx]) ==> Now().HasNext())
      modifies `mem, pmm.bitmap
      ensures t in old(mem) && Stepped(old(Now()), Now(), t, idx, create, u, Refusal(create, r))
      ensures r.Pte? ==> next == 4096 * u
      ensures !r.Fault?
      ensures !create ==> mem == old(mem)
    {
      next, u := 0, 0;
      var tableVirt := Add64(current, HHDM_OFFSET);
      var entry := LoadVirt(tableVirt, idx, root, n, t);
      AndOne(entry);
      if And(entry, PAGE_PRESENT) == 0 {
        if !create { return next, u, Null; }
        entry, u := AddTableVirt(tableVirt, idx, root, n, t);
        if entry == PMM_INVALID_FRAME { return next, u, Null; }
        TableFields(u);
      }
      AndAddrMask(entry);
      u := Target(entry);
      next := And(entry, PAGE_ADDR_MASK);
      return next, u, Pte(next, 0);
    }

    // The same round, seen as one more level of the walk for page vpn.
    method NextVirt(current: u64, idx: nat, create: bool, ghost s0: Snap, ghost root: nat, ghost n: nat,
                    ghost l: nat, ghost vpn: nat, ghost t: nat, ghost r0: PteResult)
      returns (next: u64, ghost u: nat, r: PteResult)
      requires pmm.Valid() && Target(cr3) == root && CanWalk(s0, root, n, vpn, create)
      requires current == 4096 * t && 2 <= l <= 4 && idx == Prefix(l - 1, vpn) % 512
      requires Walking(s0, Now(), root, n, l, vpn, create, t, r0) && r0.Pte?
      modifies `mem, `nodes, pmm.bitmap
      ensures Walking(s0, Now(), root, n, l - 1, vpn, create, u, r)
      ensures r.Pte? ==> next == 4096 * u
    {
      ghost var s := Now();
      BeforeStep(s0, s, root, n, l, vpn, create, t, r0);
      next, u, r := DescendVirt(current, idx, create, root, n, t);
      ghost var s' := Now();
      AfterStep(s0, s, s', root, n, l, vpn, create, t, r0, u, r);
      nodes := After(s, s', n, u, l - 1, vpn).nodes;
      assert Now() == After(s, s', n, u, l - 1, vpn);
    }

    method PteGet(pml4Phys: u64, vaddr: u64, create: bool, ghost root: nat, ghost n: nat, ghost vpn: nat)
      returns (r: PteResult, ghost t: nat)
      requires pmm.Valid() && Target(cr3) == root && pml4Phys == 4096 * root
      requires vpn == PageOf(vaddr) && CanWalk(Now(), root, n, vpn, create)
      modifies `mem, `nodes, pmm.bitmap
      ensures Walking(old(Now()), Now(), root, n, 1, vpn, create, t, r)
      ensures r.Pte? ==> t < 0x4_0000 * n <= 0x8_0000_0000 && r == Pte(4096 * t + HHDM_OFFSET, vpn % 512)
      ensures !InHhdm(n, vpn) && create ==> (r.Pte? <==> CanMap(old(Now()), vpn))
    {
      ghost var s0 := Now();
      var current := pml4Phys;
      r := Pte(current, 0);
      t := root;
      ghost var l := 4;
      var i := 0;
      WalkBegins(s0, root, n, vpn, create, r);
      while i < 3 && r.Pte?
        invariant 0 <= i && 1 <= l && i + l == 4
        invariant r.Pte? ==> current == 4096 * t
        invariant Walking(s0, Now(), root, n, l, vpn, create, t, r)
      {
        var idx := LevelIndex(vaddr, i, l, vpn);
        current, t, r := NextVirt(current, idx, create, s0, root, n, l, vpn, t, r);
        i, l := i + 1, l - 1;
      }
      if r.Pte? {
        var ptIdx := LevelIndex(vaddr, i, l, vpn);
        AtLeaf(s0, Now(), root, n, vpn, create, t, r);
        r := Pte(Add64(current, HHDM_OFFSET), ptIdx);
      } else {
        StoppedEarly(s0, Now(), root, n, l, vpn, create, t, r);
        AtLeaf(s0, Now(), root, n, vpn, create, t, r);
      }
    }

    method PageMap(pml4Phys: u64, vaddr: u64, paddr: u64, flags: u64, ghost root: nat, ghost n: nat, ghost vpn: nat)
      returns (ok: bool)
      requires pmm.Valid() && Target(cr3) == root && pml4Phys == 4096 * root
      requires vpn == PageOf(vaddr) && CanWalk(Now(), root, n, vpn, true)
      modifies `mem, `nodes, pmm.bitmap
      ensures Mapping(old(Now()), Now(), root, n, vpn, LeafEntry(paddr, flags), ok)
      ensures Running(Now(), root, n)
    {
      ghost var s0 := Now();
      LeafFields(paddr, flags);
      var pte, t := PteGet(pml4Phys, vaddr, true, root, n, vpn);
      ghost var s := Now();
      ok := pte.Pte?;
      if ok {
        AtLeaf(s0, s, root, n, vpn, true, t, pte);
        StoreVirt(pte.table, pte.index, LeafEntry(paddr, flags), root, n, t);
      }
      MapEnds(s0, s, Now(), root, n, vpn, t, pte, LeafEntry(paddr, flags));
    }

    // The address read from the leaf is handed out before the leaf is cleared.
    method PageUnmap(pml4Phys: u64, vaddr: u64, ghost root: nat, ghost n: nat, ghost vpn: nat)
      returns (ok: bool, paddr: u64)
      requires pmm.Valid() && Target(cr3) == root && pml4Phys == 4096 * root
      requires vpn == PageOf(vaddr) && CanWalk(Now(), root, n, vpn, false)
      modifies `mem, `nodes, pmm.bitmap
      ensures Unmapping(old(Now()), Now(), root, n, vpn, ok, paddr)
      ensures Running(Now(), root, n)
    {
      ghost var s0 := Now();
      var pte, t := PteGet(pml4Phys, vaddr, false, root, n, vpn);
      ghost var s := Now();
      ok, paddr := pte.Pte?, 0;
      if ok {
        AtLeaf(s0, s, root, n, vpn, false, t, pte);
        var leaf := LoadVirt(pte.table, pte.index, root, n, t);
        AndAddrMask(leaf);
        paddr := And(leaf, PAGE_ADDR_MASK);
        StoreVirt(pte.table, pte.index, 0, root, n, t);
      }
      UnmapEnds(s0, s, Now(), root, n, vpn, t, pte, paddr);
    }

    // NULL is 0: for page 0 success and failure look alike.
    method PageAlloc(vaddr: u64, flags: u64, ghost root: nat, ghost n: nat, ghost vpn: nat)
      returns (addr: u64, ghost ok: bool, ghost f: nat, ghost e: u64)
      requires pmm.Valid() && Target(cr3) == root && Running(Now(), root, n) && vpn == PageOf(vaddr)
      requires if InHhdm(n, vpn) then DataPath(Now(), n, vpn) && AffordsTwo(Now()) else AffordsAlloc(Now(), vpn)
      modifies `mem, `nodes, pmm.bitmap
      ensures addr == (if ok then vaddr else 0) && LeafFor(e, f, flags) && Running(Now(), root, n)
      ensures Allocating(old(Now()), Now(), root, n, vpn, e, f, ok)
      ensures And(flags, PAGE_ADDR_MASK) == 0 ==> Losing(old(Now()), Now(), root, n, vpn, f)
    {
      ghost var s := Now();
      if !InHhdm(n, vpn) { AllocHasNext(s, vpn); }
      var frame;
      frame, f := NextFrame();
      e := LeafForFrame(f, flags);
      addr, ok := 0, false;
      if frame != PMM_INVALID_FRAME {
        AfterFrame(s, root, n, f, vpn);
        var pml4Phys := Pml4Get();
        var success := PageMap(pml4Phys, vaddr, frame, flags, root, n, vpn);
        addr, ok := if success then vaddr else 0, success;
      }
      AllocEnds(s, Now(), root, n, vpn, e, f, flags, ok);
    }

    method PageFree(vaddr: u64, ghost root: nat, ghost n: nat, ghost vpn: nat)
      requires pmm.Valid() && Target(cr3) == root && Running(Now(), root, n)
      requires vpn == PageOf(vaddr) && !InHhdm(n, vpn) && OwnedLeaf(Now(), root, n, vpn)
      modifies `mem, `nodes, pmm.bitmap
      ensures Released(old(Now()), Now(), root, vpn)
    {
      ghost var s := Now();
      var pml4Phys := Pml4Get();
      FreedFrame(s, root, n, vpn);
      var ok, paddr := PageUnmap(pml4Phys, vaddr, root, n, vpn);
      ghost var s1 := Now();
      if ok {
        Shr12(paddr);
        ghost var free, g := pmm.FreeSet(), Shr(paddr, PAGE_SHIFT);
        pmm.FrameFree(Shr(paddr, PAGE_SHIFT));
        Parts(free, limit);
        Parts(pmm.FreeSet(), limit);
        if g >= PMM_RESERVED_FRAMES { GiveBack(free, limit, g); }
      }
      ReleasedBy(s, s1, Now(), root, n, vpn, ok);
    }

    // Page calls in a row, outside the direct map: they are a run, and leave the system running.
    method PageCalls(calls: seq<PageCall>, ghost root: nat, ghost n: nat)
      returns (ghost ss: seq<Snap>, ghost ops: seq<Op>)
      requires pmm.Valid() && Target(cr3) == root && Running(Now(), root, n) && Exclusive(Now(), root, n)
      requires forall c | c in calls :: Proper(c, n)
      requires Now().beyond.frames == {} || |Now().free| >= 4 * |calls|
      modifies `mem, `nodes, pmm.bitmap
      ensures |ops| == |calls| && Run(ss, ops, root, n) && ss[0] == old(Now()) && ss[|ops|] == Now()
      ensures Running(Now(), root, n) && Exclusive(Now(), root, n)
    {
      ss, ops := [Now()], [];
      var i := 0;
      while i < |calls|
        invariant i <= |calls| && |ops| == i && Run(ss, ops, root, n) && ss[0] == old(Now()) && ss[i] == Now()
        invariant Running(Now(), root, n) && Exclusive(Now(), root, n)
        invariant Now().beyond.frames == {} || |Now().free| >= 4 * (|calls| - i)
      {
        ghost var op := OneCall(calls[i], root, n);
        RunOn(ss, ops, root, n, op, Now());
        ss, ops := ss + [Now()], ops + [op];
        i := i + 1;
      }
    }

    method OneCall(c: PageCall, ghost root: nat, ghost n: nat) returns (ghost op: Op)
      requires pmm.Valid() && Target(cr3) == root && Running(Now(), root, n) && Exclusive(Now(), root, n)
      requires Proper(c, n) && (Now().beyond.frames == {} || |Now().free| >= 4)
      modifies `mem, `nodes, pmm.bitmap
      ensures Legal(op, n) && Step(old(Now()), Now(), root, op)
      ensures Running(Now(), root, n) && Exclusive(Now(), root, n)
      ensures Now().beyond == old(Now()).beyond && |Now().free| + 4 >= |old(Now()).free|
    {
      ghost var s, vpn := Now(), PageOf(c.vaddr);
      FourSuffice(s, vpn);
      match c {
        case AllocCall(vaddr, flags) =>
          var addr;
          ghost var ok, f, e;
          addr, ok, f, e := PageAlloc(vaddr, flags, root, n, vpn);
          op := Op.Alloc(vpn, e, f, flags, ok);
        case FreeCall(vaddr) =>
          PageFree(vaddr, root, n, vpn);
          op := Op.Free(vpn);
      }
      StepKeeps(s, Now(), root, n, op);
      StepTakesFour(s, Now(), root, n, op);
    }
  }
}
