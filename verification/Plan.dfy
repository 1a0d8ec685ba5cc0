/** The address space that start-up builds: what is mapped where, and the tables it takes. */
module Plan {
  import opened Words
  import opened PageTable
  import opened Entries
  import opened Pmm
  import opened Walks
  import opened Counting

  const LOWER_HALF: nat := 0x8_0000_0000   // page numbers below 2^47 / 4096
  const STACK_WINDOW: u64 := 0x4_0000      // 256 KiB

  // ---- The direct map of physical memory ----

  function GibCount(ceiling: u64): nat { (ceiling + 0x3FFF_FFFF) / 0x4000_0000 }

  lemma GibCountIs(ceiling: u64, k: nat)
    requires ceiling <= 0x8000_0000_0000
    ensures GibCount(ceiling) <= 0x2_0000
    ensures 0x4000_0000 * k < ceiling <==> k < GibCount(ceiling)
  {
  }

  function GibEntry(k: nat): u64
    requires k < 0x2_0000
  {
    0x4000_0000 * k + 0x8000_0000_0000_0083
  }

  // The first n GiB of physical memory at HHDM_OFFSET.
  function HhdmView(n: nat, w: nat): Translation
    requires n <= 0x2_0000
  {
    var g := Prefix(2, w);
    if 0x2_0000 <= g < 0x2_0000 + n then Mapped(3, GibEntry(g - 0x2_0000)) else Unmapped
  }

  lemma HhdmPage(k: nat, p: u64)
    requires k < 0x2_0000 && p == 0x4000_0000 * k
    ensures p + HHDM_OFFSET < TWO64
    ensures PageOf(p + HHDM_OFFSET) == LOWER_HALF + 0x4_0000 * k
    ensures Prefix(2, LOWER_HALF + 0x4_0000 * k) == 0x2_0000 + k
    ensures Prefix(3, LOWER_HALF + 0x4_0000 * k) == 256 + k / 512
  {
    var v := p + HHDM_OFFSET;
    assert v == 4096 * (0x4_0000 * k + 0xF_FFF8_0000_0000);
    assert v / 4096 == 0x4_0000 * k + 0xF_FFF8_0000_0000;
    assert 0xF_FFF8_0000_0000 == 0xFFFF * PAGES + LOWER_HALF;
    PrefixValues(LOWER_HALF + 0x4_0000 * k);
  }

  // What the loop passes for GiB k.
  lemma GibMapped(k: nat, p: u64, vpn: nat, e: u64)
    requires k < 0x2_0000 && p == 0x4000_0000 * k && vpn == LOWER_HALF + 0x4_0000 * k && e == GibEntry(k)
    ensures Add64(p, HHDM_OFFSET) == p + HHDM_OFFSET && PageOf(Add64(p, HHDM_OFFSET)) == vpn
    ensures Prefix(2, vpn) == 0x2_0000 + k && Prefix(3, vpn) == 256 + k / 512
    ensures e == HugeEntry(p, HHDM_FLAGS) && Present(e) && LargePage(e)
  {
    HhdmPage(k, p);
    HhdmEntry(k);
    HugeFields(k, e);
  }

  // Every byte below the ceiling is reached at HHDM_OFFSET plus its address.
  lemma HhdmReaches(n: nat, p: u64)
    requires n <= 0x2_0000 && p < 0x4000_0000 * n
    ensures p + HHDM_OFFSET < TWO64
    ensures PhysOf(HhdmView(n, PageOf(p + HHDM_OFFSET)), p + HHDM_OFFSET) == Some(p)
  {
    var k, r := p / 0x4000_0000, p % 0x4000_0000;
    var v := p + HHDM_OFFSET;
    HhdmGib(p, k, r);
    HugeFields(k, GibEntry(k));
    assert v % 0x4000_0000 == r;
  }

  lemma HhdmGib(p: u64, k: nat, r: nat)
    requires p == 0x4000_0000 * k + r && r < 0x4000_0000 && k < 0x2_0000
    ensures Prefix(2, PageOf(p + HHDM_OFFSET)) == 0x2_0000 + k
  {
    var v := p + HHDM_OFFSET;
    assert v / 4096 == 0x4_0000 * k + r / 4096 + 0xF_FFF8_0000_0000;
    var w := 0x4_0000 * k + r / 4096 + LOWER_HALF;
    assert 0xF_FFF8_0000_0000 == 0xFFFF * PAGES + LOWER_HALF;
    assert v / 4096 == 0xFFFF * PAGES + w && w < PAGES;
    assert PageOf(v) == w;
    PrefixValues(w);
  }

  // ---- Pages mapped to themselves ----

  function SelfEntry(w: nat): u64
    requires w < LOWER_HALF
  {
    4096 * w + 3
  }

  // Pages a to a + m - 1 map to themselves, read and write; the rest is as before.
  ghost predicate SelfMapped(s0: Snap, s: Snap, root: nat, a: nat, m: nat)
    requires a + m <= LOWER_HALF
  {
    forall w: nat | w < PAGES ::
      s.View(root, w) == if a <= w < a + m then Mapped(1, SelfEntry(w)) else s0.View(root, w)
  }

  lemma SelfPage(addr: u64, w: nat)
    requires addr / 4096 == w && w < LOWER_HALF
    ensures PageOf(addr) == w && LeafEntry(addr, PAGE_WRITABLE) == SelfEntry(w)
  {
    IdentityLeaf(addr);
  }

  // ---- The tables needed ----

  function RangeNodes(a: nat, m: nat): set<Node> {
    if m == 0 then {} else RangeNodes(a, m - 1) + PathNodes(a + m - 1)
  }

  function HhdmNodes(n: nat): set<Node> {
    if n == 0 then {} else HhdmNodes(n - 1) + {Node(3, 256 + (n - 1) / 512)}
  }

  // Exactly the wanted tables were added.
  ghost predicate Built(s0: Snap, s: Snap, ns: set<Node>) { s.nodes.Values == s0.nodes.Values + ns }

  // Memory ran out with a wanted table still missing.
  ghost predicate RanOut(s0: Snap, s: Snap, root: nat, ns: set<Node>) {
    && s.Ok(root) && s.free == {} && s.nodes.Values <= s0.nodes.Values + ns
    && exists n :: n in ns && n !in s.nodes.Values
  }

  lemma BuiltMore(s0: Snap, s: Snap, s': Snap, a: nat, m: nat)
    requires Built(s0, s, RangeNodes(a, m)) && Grew(s, s') && NewOnPath(s, s', a + m)
    requires PathBuilt(s', a + m)
    ensures Built(s0, s', RangeNodes(a, m + 1))
  {
    PlacedSoFar(s, s', a + m);
    assert PathNodes(a + m) <= s'.nodes.Values;
  }

  lemma RanOutHere(s0: Snap, s: Snap, s': Snap, root: nat, a: nat, m: nat)
    requires s'.Ok(root) && Built(s0, s, RangeNodes(a, m)) && Grew(s, s') && NewOnPath(s, s', a + m)
    requires s'.free == {} && Missing(s', a + m)
    ensures RanOut(s0, s', root, RangeNodes(a, m + 1))
  {
    PlacedSoFar(s, s', a + m);
    var l: nat :| 1 <= l <= 3 && Node(l, Prefix(l, a + m)) !in s'.nodes.Values;
    assert Node(l, Prefix(l, a + m)) in PathNodes(a + m);
  }

  lemma {:induction false} RangeNodesGrow(a: nat, m: nat, k: nat)
    requires m <= k
    ensures RangeNodes(a, m) <= RangeNodes(a, k)
    decreases k
  {
    if m < k { RangeNodesGrow(a, m, k - 1); }
  }

  lemma RanOutLater(s0: Snap, s: Snap, root: nat, a: nat, m: nat, k: nat)
    requires m <= k && RanOut(s0, s, root, RangeNodes(a, m))
    ensures RanOut(s0, s, root, RangeNodes(a, k))
  {
    RangeNodesGrow(a, m, k);
  }

  lemma GrewTwice(s0: Snap, s: Snap, s': Snap)
    requires Grew(s0, s) && Grew(s, s')
    ensures Grew(s0, s')
  {
    assert s'.nodes.Keys - s0.nodes.Keys == (s'.nodes.Keys - s.nodes.Keys) + (s.nodes.Keys - s0.nodes.Keys);
  }

  // One more page mapped to itself.
  lemma SelfMappedMore(s0: Snap, s: Snap, s': Snap, root: nat, a: nat, m: nat)
    requires a + m < LOWER_HALF && SelfMapped(s0, s, root, a, m)
    requires Updated(s, s', root, a + m, Mapped(1, SelfEntry(a + m)))
    ensures SelfMapped(s0, s', root, a, m + 1)
  {
    forall w: nat | w < PAGES
      ensures s'.View(root, w) == if a <= w < a + m + 1 then Mapped(1, SelfEntry(w)) else s0.View(root, w)
    {
      assert s'.View(root, w) == if w == a + m then Mapped(1, SelfEntry(a + m)) else s.View(root, w);
    }
  }

  // Everything known while the pages from a on are being mapped to themselves.
  ghost predicate SelfFacts(s0: Snap, s: Snap, root: nat, a: nat, m: nat) {
    && a + m <= LOWER_HALF && s.Ok(root) && Grew(s0, s)
    && SelfMapped(s0, s, root, a, m) && Built(s0, s, RangeNodes(a, m))
  }

  // The same behind a counter, for the loops that only carry it (see PageTable.Behind).
  ghost predicate SelfBehind(n: nat, s0: Snap, s: Snap, root: nat, a: nat, m: nat)
    decreases n, m
  {
    if n > 0 then SelfBehind(n - 1, s0, s, root, a, m) else SelfFacts(s0, s, root, a, m)
  }

  ghost predicate SelfMapping(s0: Snap, s: Snap, root: nat, a: nat, m: nat) { SelfBehind(4, s0, s, root, a, m) }

  lemma OpenSelf(s0: Snap, s: Snap, root: nat, a: nat, m: nat)
    ensures SelfMapping(s0, s, root, a, m) <==> SelfFacts(s0, s, root, a, m)
  {
    assert SelfBehind(1, s0, s, root, a, m) <==> SelfFacts(s0, s, root, a, m);
    assert SelfBehind(3, s0, s, root, a, m) <==> SelfBehind(1, s0, s, root, a, m);
  }

  ghost predicate LowerOpen(s: Snap, root: nat) {
    forall w: nat | w < LOWER_HALF :: s.NotLarge(root, w)
  }

  // One round of the loops that map pages to themselves.
  lemma SelfRound(s0: Snap, s: Snap, s': Snap, root: nat, a: nat, m: nat, fault: bool)
    requires SelfMapping(s0, s, root, a, m) && a + m < LOWER_HALF
    requires MappedOne(s, s', root, a + m, SelfEntry(a + m), fault)
    ensures !fault ==> SelfMapping(s0, s', root, a, m + 1)
    ensures fault ==> Grew(s0, s') && RanOut(s0, s', root, RangeNodes(a, m + 1))
  {
    if fault {
      OpenSelf(s0, s, root, a, m);
      GrewTwice(s0, s, s');
      RanOutHere(s0, s, s', root, a, m);
    } else {
      SelfRoundOn(s0, s, s', root, a, m);
    }
  }

  lemma SelfRoundOn(s0: Snap, s: Snap, s': Snap, root: nat, a: nat, m: nat)
    requires SelfMapping(s0, s, root, a, m) && a + m < LOWER_HALF
    requires MappedOne(s, s', root, a + m, SelfEntry(a + m), false)
    ensures SelfMapping(s0, s', root, a, m + 1)
  {
    OpenSelf(s0, s, root, a, m);
    assert Grew(s0, s') by { GrewTwice(s0, s, s'); }
    assert Built(s0, s', RangeNodes(a, m + 1)) by {
      PathPlaced(s', root, a + m);
      BuiltMore(s0, s, s', a, m);
    }
    assert SelfMapped(s0, s', root, a, m + 1) by { SelfMappedMore(s0, s, s', root, a, m); }
    OpenSelf(s0, s', root, a, m + 1);
  }

  lemma AffordsBuilt(s0: Snap, s: Snap, root: nat, ns: set<Node>, ms: set<Node>)
    requires s0.Ok(root) && s.Ok(root) && Grew(s0, s) && Built(s0, s, ns) && ns <= ms && Affords(s0, ms)
    ensures Affords(s, ms)
  {
    AffordsOn(s0, s, root, ms);
  }

  // The next page mapped to itself is affordable if the whole range was.
  lemma SelfAffords(s0: Snap, s: Snap, root: nat, a: nat, m: nat, n: nat)
    requires s0.Ok(root) && SelfMapping(s0, s, root, a, m) && m < n && Affords(s0, RangeNodes(a, n))
    ensures Affords(s, PathNodes(a + m))
  {
    SelfBuilt(s0, s, root, a, m);
    RangeNodesGrow(a, m, n);
    RangeNodesGrow(a, m + 1, n);
    AffordsBuilt(s0, s, root, RangeNodes(a, m), RangeNodes(a, n));
    AffordsFewer(s, PathNodes(a + m), RangeNodes(a, n));
  }

  lemma SelfBuilt(s0: Snap, s: Snap, root: nat, a: nat, m: nat)
    requires SelfMapping(s0, s, root, a, m)
    ensures s.Ok(root) && Grew(s0, s) && Built(s0, s, RangeNodes(a, m))
  {
    OpenSelf(s0, s, root, a, m);
  }

  lemma SelfNotLarge(s0: Snap, s: Snap, root: nat, a: nat, m: nat, w: nat)
    requires SelfMapping(s0, s, root, a, m) && LowerOpen(s0, root) && w < LOWER_HALF
    ensures s.Ok(root) && s.NotLarge(root, w)
  {
    OpenSelf(s0, s, root, a, m);
    assert s0.NotLarge(root, w);
  }

  // The next page can be mapped to itself.
  lemma SelfReady(s0: Snap, s: Snap, root: nat, a: nat, m: nat, n: nat, w: nat)
    requires SelfMapping(s0, s, root, a, m) && LowerOpen(s0, root) && w == a + m < LOWER_HALF
    requires s0.Ok(root) && m < n && Affords(s0, RangeNodes(a, n))
    ensures s.Ok(root) && s.NotLarge(root, w) && Affords(s, PathNodes(w))
  {
    SelfNotLarge(s0, s, root, a, m, w);
    SelfAffords(s0, s, root, a, m, n);
  }

  lemma SelfStaysOpen(s0: Snap, s: Snap, root: nat, a: nat, m: nat)
    requires SelfMapping(s0, s, root, a, m) && LowerOpen(s0, root)
    ensures LowerOpen(s, root) && s.Ok(root) && Grew(s0, s) && Built(s0, s, RangeNodes(a, m))
  {
    OpenSelf(s0, s, root, a, m);
    forall w: nat | w < LOWER_HALF ensures s.NotLarge(root, w) { SelfNotLarge(s0, s, root, a, m, w); }
  }

  // ---- The direct map, GiB by GiB ----

  ghost predicate HhdmMapping(s0: Snap, s: Snap, root: nat, n: nat) {
    && n <= 0x2_0000 && s.Ok(root) && Grew(s0, s)
    && (forall w: nat | w < PAGES :: s.View(root, w) == HhdmView(n, w))
    && (forall t | t in s.nodes :: s.nodes[t].level >= 3)
    && Built(s0, s, HhdmNodes(n))
  }

  // What the loop over the GiBs has done after k rounds, or when it gave up, of n: behind a
  // counter, for the loop that only carries it (see PageTable.Behind).
  ghost predicate HhdmBehind(j: nat, s0: Snap, s: Snap, root: nat, k: nat, n: nat, ok: bool)
    decreases j, n
  {
    if j > 0 then HhdmBehind(j - 1, s0, s, root, k, n, ok)
    else if ok then HhdmMapping(s0, s, root, k) else Grew(s0, s) && RanOut(s0, s, root, HhdmNodes(n))
  }

  ghost predicate HhdmLoop(s0: Snap, s: Snap, root: nat, k: nat, n: nat, ok: bool) {
    HhdmBehind(4, s0, s, root, k, n, ok)
  }

  lemma OpenHhdm(s0: Snap, s: Snap, root: nat, k: nat, n: nat, ok: bool)
    ensures HhdmLoop(s0, s, root, k, n, ok) <==>
      if ok then HhdmMapping(s0, s, root, k) else Grew(s0, s) && RanOut(s0, s, root, HhdmNodes(n))
  {
    assert HhdmBehind(1, s0, s, root, k, n, ok) <==>
      if ok then HhdmMapping(s0, s, root, k) else Grew(s0, s) && RanOut(s0, s, root, HhdmNodes(n));
    assert HhdmBehind(3, s0, s, root, k, n, ok) <==> HhdmBehind(1, s0, s, root, k, n, ok);
  }

  lemma NoLowTables(s: Snap, root: nat, p: nat)
    requires s.Ok(root) && forall t | t in s.nodes :: s.nodes[t].level >= 3
    ensures TableAt(s.mem, root, 2, p) == None
  {
    if TableAt(s.mem, root, 2, p).Some? {
      TableIn(s, root, 2, p, TableAt(s.mem, root, 2, p).value);
    }
  }

  // The new tables, if any, are all for GiB k.
  ghost predicate NewForGib(s: Snap, s': Snap, k: nat) {
    forall t | t in s'.nodes && t !in s.nodes :: s'.nodes[t] == Node(3, 256 + k / 512)
  }

  lemma HhdmValues(s: Snap, s': Snap, k: nat)
    requires Grew(s, s') && NewForGib(s, s', k)
    ensures s.nodes.Values <= s'.nodes.Values <= s.nodes.Values + {Node(3, 256 + k / 512)}
  {
    forall n | n in s.nodes.Values ensures n in s'.nodes.Values {
      var t :| t in s.nodes && s.nodes[t] == n;
      assert s'.nodes[t] == n;
    }
    forall n | n in s'.nodes.Values ensures n in s.nodes.Values + {Node(3, 256 + k / 512)} {
      var t :| t in s'.nodes && s'.nodes[t] == n;
      if t in s.nodes { assert s.nodes[t] == n; }
    }
  }

  // One more GiB mapped.
  lemma HhdmMappingMore(s0: Snap, s: Snap, s': Snap, root: nat, k: nat, vpn: nat)
    requires HhdmMapping(s0, s, root, k) && k < 0x2_0000 && s'.Ok(root) && Grew(s, s') && NewForGib(s, s', k)
    requires Prefix(2, vpn) == 0x2_0000 + k && LargeAt(s, s', root, vpn, GibEntry(k))
    requires Node(3, 256 + k / 512) in s'.nodes.Values
    ensures HhdmMapping(s0, s', root, k + 1)
  {
    GrewTwice(s0, s, s');
    HhdmValues(s, s', k);
    forall w: nat | w < PAGES ensures s'.View(root, w) == HhdmView(k + 1, w) {
      assert s'.View(root, w) == if Prefix(2, w) == Prefix(2, vpn) then Mapped(3, GibEntry(k)) else s.View(root, w);
    }
  }

  lemma {:induction false} HhdmNodesGrow(m: nat, k: nat)
    requires m <= k
    ensures HhdmNodes(m) <= HhdmNodes(k)
    decreases k
  {
    if m < k { HhdmNodesGrow(m, k - 1); }
  }

  // There is a frame for the table of the next GiB, if it still needs one.
  lemma GibAffords(s0: Snap, s: Snap, root: nat, k: nat, n: nat)
    requires s0.Ok(root) && HhdmMapping(s0, s, root, k) && k < n && Affords(s0, HhdmNodes(n))
    ensures Node(3, 256 + k / 512) !in s.nodes.Values ==> s.HasNext()
  {
    HhdmNodesGrow(k, n);
    HhdmNodesGrow(k + 1, n);
    AffordsBuilt(s0, s, root, HhdmNodes(k), HhdmNodes(n));
    if Node(3, 256 + k / 512) !in s.nodes.Values { AffordsNext(s, HhdmNodes(n), Node(3, 256 + k / 512)); }
  }

  lemma HhdmRanOut(s0: Snap, s: Snap, root: nat, k: nat, n: nat, p: nat)
    requires HhdmMapping(s0, s, root, k) && k < n && s.free == {}
    requires p == 256 + k / 512 && TableAt(s.mem, root, 3, p) == None
    ensures RanOut(s0, s, root, HhdmNodes(n))
  {
    HhdmNodesGrow(k + 1, n);
    NotPlaced(s, root, 3, p);
    assert Node(3, p) in HhdmNodes(k + 1);
  }

  lemma NotPlaced(s: Snap, root: nat, l: nat, p: nat)
    requires s.Ok(root) && 1 <= l <= 4 && TableAt(s.mem, root, l, p) == None
    ensures Node(l, p) !in s.nodes.Values
  {
    TreeFacts(s.mem, root, s.nodes);
  }

  lemma Node3Placed(s: Snap, root: nat, p: nat)
    requires s.Ok(root) && TableAt(s.mem, root, 3, p).Some?
    ensures Node(3, p) in s.nodes.Values
  {
    TableIn(s, root, 3, p, TableAt(s.mem, root, 3, p).value);
  }

  lemma HhdmIsHigh(n: nat, w: nat)
    requires n <= 0x2_0000 && w < LOWER_HALF
    ensures HhdmView(n, w) == Unmapped
  {
    PrefixValues(w);
  }

  // ---- The whole plan ----

  // Page counts of the kernel image and of the stack window, as the loops count them.
  function KernelPages(kernelStart: u64, kernelEnd: u64): nat
    requires kernelStart <= kernelEnd
  {
    (kernelEnd - kernelStart + 4095) / 4096
  }

  function StackFirst(rsp: u64): nat
    requires rsp >= STACK_WINDOW
  {
    (rsp - STACK_WINDOW) / 4096
  }

  function StackPages(rsp: u64): nat
    requires rsp >= STACK_WINDOW
  {
    (rsp + 8191) / 4096 - StackFirst(rsp)
  }

  // The window's edges, rounded outwards to pages.
  lemma StackEdges(rsp: u64)
    requires rsp >= STACK_WINDOW
    ensures 4096 * StackFirst(rsp) <= rsp - 0x4_0000 < 4096 * StackFirst(rsp) + 4096
    ensures var end := 4096 * (StackFirst(rsp) + StackPages(rsp)); end - 4096 < rsp + 4096 <= end
  {
  }

  datatype Layout = Layout(gibs: nat, kernelFirst: nat, kernelPages: nat, stackFirst: nat, stackPages: nat) {
    predicate Valid() {
      gibs <= 0x2_0000 && kernelFirst + kernelPages <= LOWER_HALF && stackFirst + stackPages <= LOWER_HALF
    }

    // What every page number translates to.
    function View(w: nat): Translation
      requires Valid()
    {
      if kernelFirst <= w < kernelFirst + kernelPages || stackFirst <= w < stackFirst + stackPages
      then Mapped(1, SelfEntry(w)) else HhdmView(gibs, w)
    }

    // The direct map alone.
    function Direct(): Layout { Layout(gibs, 0, 0, 0, 0) }

    function Nodes(): set<Node> {
      {Node(4, 0)} + HhdmNodes(gibs) + RangeNodes(kernelFirst, kernelPages) + RangeNodes(stackFirst, stackPages)
    }
  }

  function LayoutOf(ceiling: u64, kernelStart: u64, kernelEnd: u64, rsp: u64): Layout
    requires kernelStart <= kernelEnd && rsp >= STACK_WINDOW
  {
    Layout(GibCount(ceiling), kernelStart / 4096, KernelPages(kernelStart, kernelEnd), StackFirst(rsp), StackPages(rsp))
  }

  lemma LayoutFits(ceiling: u64, kernelStart: u64, kernelEnd: u64, rsp: u64)
    requires ceiling <= 0x8000_0000_0000 && kernelStart <= kernelEnd
    requires kernelStart / 4096 + KernelPages(kernelStart, kernelEnd) <= LOWER_HALF
    requires STACK_WINDOW <= rsp <= 0x8000_0000_0000 - 8191
    ensures LayoutOf(ceiling, kernelStart, kernelEnd, rsp).Valid()
  {
    GibCountIs(ceiling, 0);
  }

  ghost predicate BothMapped(s0: Snap, s: Snap, root: nat, k: nat, kn: nat, t: nat, tn: nat)
    requires k + kn <= LOWER_HALF && t + tn <= LOWER_HALF
  {
    && s.Ok(root)
    && (forall w: nat | w < PAGES :: s.View(root, w) ==
          if k <= w < k + kn || t <= w < t + tn then Mapped(1, SelfEntry(w)) else s0.View(root, w))
    && Built(s0, s, RangeNodes(k, kn) + RangeNodes(t, tn))
  }

  lemma BothRanges(s0: Snap, s1: Snap, s: Snap, root: nat, k: nat, kn: nat, t: nat, tn: nat)
    requires SelfMapping(s0, s1, root, k, kn) && SelfMapping(s1, s, root, t, tn)
    ensures k + kn <= LOWER_HALF && t + tn <= LOWER_HALF && BothMapped(s0, s, root, k, kn, t, tn)
    ensures Grew(s1, s)
  {
    OpenSelf(s0, s1, root, k, kn);
    OpenSelf(s1, s, root, t, tn);
    forall w: nat | w < PAGES
      ensures s.View(root, w) ==
        if k <= w < k + kn || t <= w < t + tn then Mapped(1, SelfEntry(w)) else s0.View(root, w)
    {
      assert s1.View(root, w) == if k <= w < k + kn then Mapped(1, SelfEntry(w)) else s0.View(root, w);
    }
  }

  lemma RanOutInUnion(s0: Snap, s: Snap, s': Snap, root: nat, ns: set<Node>, ms: set<Node>)
    requires RanOut(s0, s, root, ns) && s' == s
    ensures RanOut(s0, s', root, ns + ms)
  {
    var n :| n in ns && n !in s.nodes.Values;
    assert n in ns + ms;
  }

  lemma RanOutAfter(s0: Snap, s1: Snap, s: Snap, root: nat, ns: set<Node>, ms: set<Node>)
    requires Built(s0, s1, ns) && RanOut(s1, s, root, ms)
    ensures RanOut(s0, s, root, ns + ms)
  {
    var n :| n in ms && n !in s.nodes.Values;
    assert n in ns + ms;
  }

  // The planned address space, with exactly the planned tables.
  ghost predicate Realizes(s: Snap, root: nat, lay: Layout)
    requires lay.Valid()
  {
    && s.Ok(root)
    && (forall w: nat | w < PAGES :: s.View(root, w) == lay.View(w))
    && s.nodes.Values == lay.Nodes()
  }

  // What a finished start-up has built, from the frames that were free.
  ghost predicate BuiltAs(s: Snap, root: nat, lay: Layout, free: set<nat>)
    requires lay.Valid()
  {
    Realizes(s, root, lay) && s.nodes.Keys <= free && s.free == free - s.nodes.Keys
  }

  lemma RootTree(s: Snap, root: nat)
    requires root in s.mem && s.mem[root] == ZERO_TABLE && s.nodes == map[root := Node(4, 0)]
    requires root !in s.free && root < 64 * BITMAP_WORDS
    requires forall f | f in s.free :: f in s.mem && f < 64 * BITMAP_WORDS && f < s.beyond.limit
    ensures HhdmMapping(s, s, root, 0)
  {
    forall l, p: nat | 1 <= l <= 4
      ensures TableAt(s.mem, root, l, p) == if l == 4 && p == 0 then Some(root) else None
    {
      RootOnly(s.mem, root, l, p);
    }
    TreeFacts(s.mem, root, s.nodes);
  }

  lemma {:induction false} RootOnly(mem: Memory, root: nat, l: nat, p: nat)
    requires root in mem && mem[root] == ZERO_TABLE && 1 <= l <= 4
    ensures TableAt(mem, root, l, p) == if l == 4 && p == 0 then Some(root) else None
    decreases 4 - l
  {
    if l < 4 { RootOnly(mem, root, l + 1, p / 512); }
  }

  lemma HhdmLeavesLower(s0: Snap, s: Snap, root: nat, n: nat)
    requires HhdmMapping(s0, s, root, n)
    ensures s.Ok(root) && LowerOpen(s, root)
  {
    forall w: nat | w < LOWER_HALF ensures s.View(root, w) == Unmapped { HhdmIsHigh(n, w); }
  }

  // ---- Counting ----

  // Every frame taken since the start has become a table.
  lemma Conserved(s0: Snap, s: Snap, root: nat, free: set<nat>)
    requires root in free && s0.free == free - {root} && s0.nodes.Keys == {root} && Grew(s0, s)
    ensures s.nodes.Keys <= free && s.free == free - s.nodes.Keys
    ensures |free| == |s.free| + |s.nodes.Keys|
  {
    var ks := s.nodes.Keys;
    assert free == s.free + ks && s.free !! ks;
  }

  lemma TooFew(s0: Snap, s: Snap, root: nat, free: set<nat>, lay: Layout, ns: set<Node>)
    requires root in free && s0.free == free - {root} && s0.nodes == map[root := Node(4, 0)] && Grew(s0, s)
    requires RanOut(s0, s, root, ns) && {Node(4, 0)} + ns <= lay.Nodes()
    ensures |free| < |lay.Nodes()|
  {
    Conserved(s0, s, root, free);
    OnePlaceEach(s, root);
    var n :| n in ns && n !in s.nodes.Values;
    Subset(s.nodes.Values, lay.Nodes());
  }

  lemma FramesSufficed(s0: Snap, s: Snap, root: nat, free: set<nat>, lay: Layout)
    requires root in free && s0.free == free - {root} && s0.nodes.Keys == {root} && Grew(s0, s)
    requires s.Ok(root) && s.nodes.Values == lay.Nodes()
    ensures |free| >= |lay.Nodes()|
    ensures s.nodes.Keys <= free && s.free == free - s.nodes.Keys
  {
    Conserved(s0, s, root, free);
    OnePlaceEach(s, root);
  }

  lemma RootNeeded(lay: Layout)
    ensures |lay.Nodes()| > 0 && |lay.Direct().Nodes()| > 0
  {
    assert Node(4, 0) in lay.Nodes() && Node(4, 0) in lay.Direct().Nodes();
  }

  // Running out inside the direct map, or getting through it.
  lemma DirectTooFew(s0: Snap, s: Snap, root: nat, free: set<nat>, lay: Layout)
    requires root in free && s0.free == free - {root} && s0.nodes == map[root := Node(4, 0)] && Grew(s0, s)
    requires RanOut(s0, s, root, HhdmNodes(lay.gibs))
    ensures |free| < |lay.Direct().Nodes()| && |free| < |lay.Nodes()|
  {
    TooFew(s0, s, root, free, lay, HhdmNodes(lay.gibs));
    TooFew(s0, s, root, free, lay.Direct(), HhdmNodes(lay.gibs));
  }

  lemma DirectEnough(s0: Snap, s: Snap, root: nat, free: set<nat>, lay: Layout)
    requires root in free && s0.free == free - {root} && s0.nodes == map[root := Node(4, 0)]
    requires HhdmMapping(s0, s, root, lay.gibs)
    ensures |free| >= |lay.Direct().Nodes()|
  {
    assert root in s0.nodes && s0.nodes[root] == Node(4, 0) && s0.nodes.Values == {Node(4, 0)};
    assert s.nodes.Values == lay.Direct().Nodes();
    FramesSufficed(s0, s, root, free, lay.Direct());
  }

  lemma HhdmThenBoth(s0: Snap, s1: Snap, s2: Snap, root: nat, lay: Layout, k: nat, kn: nat, t: nat, tn: nat)
    requires lay.Valid() && lay == Layout(lay.gibs, k, kn, t, tn)
    requires HhdmMapping(s0, s1, root, lay.gibs) && BothMapped(s1, s2, root, k, kn, t, tn)
    requires s0.nodes == map[root := Node(4, 0)]
    ensures s2.nodes.Values == lay.Nodes()
    ensures forall w: nat | w < PAGES :: s2.View(root, w) == lay.View(w)
  {
    assert root in s0.nodes && s0.nodes[root] == Node(4, 0) && s0.nodes.Values == {Node(4, 0)};
    forall w: nat | w < PAGES ensures s2.View(root, w) == lay.View(w) {
      assert s1.View(root, w) == HhdmView(lay.gibs, w);
    }
  }

  // At the outset the plan is affordable if the frames below the limit are as many as its
  // tables, or are all there are.
  lemma PlanAffords(s: Snap, root: nat, free: set<nat>, lay: Layout)
    requires root in free && s.free == free - {root} && s.nodes == map[root := Node(4, 0)]
    requires s.beyond.frames == {} || |free| >= |lay.Nodes()|
    ensures Affords(s, lay.Nodes())
  {
    OpenAffords(s, lay.Nodes());
    assert root in s.nodes && s.nodes[root] == Node(4, 0) && s.nodes.Values == {Node(4, 0)};
  }

  // The direct map done, the rest of the plan is still affordable.
  lemma RestAffords(s0: Snap, s: Snap, root: nat, lay: Layout)
    requires s0.Ok(root) && HhdmMapping(s0, s, root, lay.gibs) && Affords(s0, lay.Nodes())
    ensures Affords(s, RangeNodes(lay.kernelFirst, lay.kernelPages) + RangeNodes(lay.stackFirst, lay.stackPages))
  {
    AffordsBuilt(s0, s, root, HhdmNodes(lay.gibs), lay.Nodes());
    var rest := RangeNodes(lay.kernelFirst, lay.kernelPages) + RangeNodes(lay.stackFirst, lay.stackPages);
    AffordsFewer(s, rest, lay.Nodes());
  }

  // The kernel's pages done, those of the stack are still affordable.
  lemma StackAffords(s0: Snap, s: Snap, root: nat, k: nat, kn: nat, t: nat, tn: nat)
    requires s0.Ok(root) && SelfMapping(s0, s, root, k, kn) && Affords(s0, RangeNodes(k, kn) + RangeNodes(t, tn))
    ensures Affords(s, RangeNodes(t, tn))
  {
    SelfBuilt(s0, s, root, k, kn);
    AffordsBuilt(s0, s, root, RangeNodes(k, kn), RangeNodes(k, kn) + RangeNodes(t, tn));
    AffordsFewer(s, RangeNodes(t, tn), RangeNodes(k, kn) + RangeNodes(t, tn));
  }

  // The end of start-up: everything built from enough frames, or too few of them.
  lemma PopulateDone(s0: Snap, s1: Snap, s2: Snap, root: nat, free: set<nat>, lay: Layout, fault: bool)
    requires lay.Valid() && root in free && s0.free == free - {root} && s0.nodes == map[root := Node(4, 0)]
    requires HhdmMapping(s0, s1, root, lay.gibs) && Grew(s1, s2)
    requires !fault ==> BothMapped(s1, s2, root, lay.kernelFirst, lay.kernelPages, lay.stackFirst, lay.stackPages)
    requires fault ==> RanOut(s1, s2, root,
      RangeNodes(lay.kernelFirst, lay.kernelPages) + RangeNodes(lay.stackFirst, lay.stackPages))
    ensures !fault ==> |free| >= |lay.Nodes()| && BuiltAs(s2, root, lay, free)
    ensures fault ==> |free| < |lay.Nodes()| && s2.free == {}
  {
    GrewTwice(s0, s1, s2);
    if fault {
      var hs := HhdmNodes(lay.gibs);
      var ps := RangeNodes(lay.kernelFirst, lay.kernelPages) + RangeNodes(lay.stackFirst, lay.stackPages);
      RanOutAfter(s0, s1, s2, root, hs, ps);
      TooFew(s0, s2, root, free, lay, hs + ps);
    } else {
      HhdmThenBoth(s0, s1, s2, root, lay, lay.kernelFirst, lay.kernelPages, lay.stackFirst, lay.stackPages);
      FramesSufficed(s0, s2, root, free, lay);
    }
  }
}
