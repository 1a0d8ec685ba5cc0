/** Whole runs of page allocation, page freeing and stores through mapped pages. */
module PageRuns {
  import opened Words
  import opened PageTable
  import opened Entries
  import opened Pmm
  import opened Walks
  import opened LeastFrames
  import opened Counting
  import opened Plan
  import opened Online

  function Without(s: Snap, f: nat): Snap { s.(free := s.free - {f}) }

  // One page allocation with leaf entry e. When the tables cannot be had, the data frame f
  // stays taken.
  ghost predicate Allocated(s: Snap, s': Snap, root: nat, vpn: nat, e: u64, f: nat, ok: bool) {
    if s.free == {} then !ok && s' == s
    else IsLeast(f, s.free) && MappedOne(Without(s, f), s', root, vpn, e, !ok)
  }

  // With the data frame taken, the tables are still affordable.
  lemma AfterDataFrame(s: Snap, f: nat, w: nat)
    requires f in s.free && AffordsAlloc(s, w)
    ensures Affords(Without(s, f), PathNodes(w))
    ensures CanMap(Without(s, f), w) <==> |s.free| > |Need(s, w)|
  {
    OpenCanMap(Without(s, f), w);
    OpenAffordsAlloc(s, w);
    OpenAffords(Without(s, f), PathNodes(w));
    assert |s.free - {f}| == |s.free| - 1;
  }

  // The leaf entry that maps frame f with these flags.
  ghost predicate LeafFor(e: u64, f: nat, flags: u64) {
    f < 64 * BITMAP_WORDS && e == LeafEntry(4096 * f, flags)
  }

  lemma LeafForFrame(f: nat, flags: u64) returns (e: u64)
    requires f < 64 * BITMAP_WORDS
    ensures LeafFor(e, f, flags)
  {
    LeafFields(4096 * f, flags);
    e := LeafEntry(4096 * f, flags);
  }

  lemma LeafForTarget(e: u64, f: nat, flags: u64)
    requires LeafFor(e, f, flags) && And(flags, PAGE_ADDR_MASK) == 0
    ensures Target(e) == f
  {
    LeafOf(4096 * f, f, flags, e);
  }

  // The frame behind a 4 KiB leaf.
  function LeafFrame(s: Snap, root: nat, w: nat): Option<nat> {
    match s.View(root, w)
    case Mapped(1, e) => Some(Target(e))
    case _ => None
  }

  function Freed(s: Snap, root: nat, vpn: nat): set<nat> {
    match LeafFrame(s, root, vpn)
    case Some(g) => if g < PMM_RESERVED_FRAMES then {} else {g}
    case None => {}
  }

  // One page freeing.
  ghost predicate Released(s: Snap, s': Snap, root: nat, vpn: nat) {
    && s'.Ok(root) && s'.nodes == s.nodes && s.mem.Keys <= s'.mem.Keys
    && Updated(s, s', root, vpn, Unmapped) && s'.free == s.free + Freed(s, root, vpn) && s'.beyond == s.beyond
  }

  // Above the reserved limit no frame is behind two leaves, and none is behind a leaf while
  // it is a table or free.
  ghost predicate Exclusive(s: Snap, root: nat, n: nat) {
    && (forall w: nat, v: nat | w < PAGES && v < PAGES && Shared(s, root, w, v) :: w == v)
    && (forall w: nat | w < PAGES && LeafFrame(s, root, w).Some? :: Owned(s, n, LeafFrame(s, root, w).value))
  }

  ghost predicate Shared(s: Snap, root: nat, w: nat, v: nat) {
    var f := LeafFrame(s, root, w);
    f.Some? && f == LeafFrame(s, root, v) && f.value >= PMM_RESERVED_FRAMES
  }

  ghost predicate Owned(s: Snap, n: nat, f: nat) {
    f >= PMM_RESERVED_FRAMES ==>
      f !in s.nodes && f !in s.free && f in s.mem && f < 0x4_0000 * n && f < 64 * BITMAP_WORDS && f < s.beyond.limit
  }

  // The frame behind the leaf of page w, if any, may be freed.
  ghost predicate OwnedLeaf(s: Snap, root: nat, n: nat, w: nat) {
    LeafFrame(s, root, w).Some? ==> Owned(s, n, LeafFrame(s, root, w).value)
  }

  // There is a frame for page w and for every table it still needs, or none from the limit on
  // that could be taken instead.
  ghost predicate AffordsAlloc(s: Snap, w: nat) { AllocBehind(4, s, w) }

  // Behind a counter (see PageTable.Behind).
  ghost predicate AllocBehind(n: nat, s: Snap, w: nat)
    decreases n, w
  {
    if n > 0 then AllocBehind(n - 1, s, w) else s.beyond.frames == {} || |s.free| > |Need(s, w)|
  }

  lemma OpenAffordsAlloc(s: Snap, w: nat)
    ensures AffordsAlloc(s, w) <==> s.beyond.frames == {} || |s.free| > |Need(s, w)|
  {
    assert AllocBehind(1, s, w) <==> s.beyond.frames == {} || |s.free| > |Need(s, w)|;
    assert AllocBehind(3, s, w) <==> AllocBehind(1, s, w);
  }

  lemma AllocKeepsRunning(s: Snap, s': Snap, root: nat, n: nat, vpn: nat, e: u64, f: nat, ok: bool)
    requires Running(s, root, n) && vpn < PAGES && !InHhdm(n, vpn) && Allocated(s, s', root, vpn, e, f, ok)
    ensures Running(s', root, n)
  {
    if s.free != {} {
      var s1 := Without(s, f);
      TakeFrame(s, s1, root, n, f);
      if ok {
        UpdatedRunning(s1, s', root, n, vpn, Mapped(1, e));
      } else {
        WalkedRunning(s1, s', root, n, vpn);
      }
    }
  }

  lemma FramesAfterAlloc(s: Snap, s': Snap, root: nat, vpn: nat, e: u64, f: nat, ok: bool, w: nat)
    requires s.free != {} && Allocated(s, s', root, vpn, e, f, ok) && Target(e) == f && w < PAGES
    ensures LeafFrame(s', root, w) == if ok && w == vpn then Some(f) else LeafFrame(s, root, w)
  {
    assert s'.View(root, w) == if ok && w == vpn then Mapped(1, e) else s.View(root, w) by {
      assert Without(s, f).View(root, w) == s.View(root, w);
    }
  }

  lemma OwnedAfterAlloc(s: Snap, s': Snap, root: nat, n: nat, vpn: nat, e: u64, f: nat, ok: bool, g: nat)
    requires Running(s, root, n) && s.free != {} && Allocated(s, s', root, vpn, e, f, ok)
    requires Owned(s, n, g) || g == f
    ensures Owned(s', n, g)
  {
    assert g !in s'.nodes.Keys - s.nodes.Keys;
  }

  lemma NotFree(s: Snap, root: nat, n: nat, f: nat, w: nat)
    requires Running(s, root, n) && Exclusive(s, root, n) && f in s.free && w < PAGES
    ensures LeafFrame(s, root, w) != Some(f)
  {
    if LeafFrame(s, root, w).Some? { assert Owned(s, n, LeafFrame(s, root, w).value); }
  }

  lemma AllocKeepsExclusive(s: Snap, s': Snap, root: nat, n: nat, vpn: nat, e: u64, f: nat, ok: bool)
    requires Running(s, root, n) && Exclusive(s, root, n) && vpn < PAGES && !InHhdm(n, vpn)
    requires Allocated(s, s', root, vpn, e, f, ok) && Target(e) == f
    ensures Exclusive(s', root, n)
  {
    if s.free != {} {
      forall w: nat, v: nat | w < PAGES && v < PAGES && Shared(s', root, w, v) ensures w == v {
        FramesAfterAlloc(s, s', root, vpn, e, f, ok, w);
        FramesAfterAlloc(s, s', root, vpn, e, f, ok, v);
        NotFree(s, root, n, f, w);
        NotFree(s, root, n, f, v);
        if !ok || (w != vpn && v != vpn) { assert Shared(s, root, w, v); }
      }
      forall w: nat | w < PAGES && LeafFrame(s', root, w).Some?
        ensures Owned(s', n, LeafFrame(s', root, w).value)
      {
        FramesAfterAlloc(s, s', root, vpn, e, f, ok, w);
        OwnedAfterAlloc(s, s', root, n, vpn, e, f, ok, LeafFrame(s', root, w).value);
      }
    }
  }

  // ---- Freeing ----

  lemma FramesAfterFree(s: Snap, s': Snap, root: nat, vpn: nat, w: nat)
    requires Released(s, s', root, vpn) && w < PAGES
    ensures LeafFrame(s', root, w) == if w == vpn then None else LeafFrame(s, root, w)
  {
    assert s'.View(root, w) == if w == vpn then Unmapped else s.View(root, w);
  }

  lemma FreeKeepsRunning(s: Snap, s': Snap, root: nat, n: nat, vpn: nat)
    requires Running(s, root, n) && Exclusive(s, root, n) && vpn < PAGES && !InHhdm(n, vpn)
    requires Released(s, s', root, vpn)
    ensures Running(s', root, n)
  {
    forall w: nat | w < PAGES
      ensures if InHhdm(n, w) then s'.View(root, w) == HhdmView(n, w) else s'.NotLarge(root, w)
    {
      assert s'.View(root, w) == if w == vpn then Unmapped else s.View(root, w);
    }
    if LeafFrame(s, root, vpn).Some? { assert Owned(s, n, LeafFrame(s, root, vpn).value); }
  }

  lemma FreeKeepsExclusive(s: Snap, s': Snap, root: nat, n: nat, vpn: nat)
    requires Running(s, root, n) && Exclusive(s, root, n) && vpn < PAGES && !InHhdm(n, vpn)
    requires Released(s, s', root, vpn)
    ensures Exclusive(s', root, n)
  {
    forall w: nat, v: nat | w < PAGES && v < PAGES && Shared(s', root, w, v) ensures w == v {
      FramesAfterFree(s, s', root, vpn, w);
      FramesAfterFree(s, s', root, vpn, v);
      assert Shared(s, root, w, v);
    }
    forall w: nat | w < PAGES && LeafFrame(s', root, w).Some?
      ensures Owned(s', n, LeafFrame(s', root, w).value)
    {
      FramesAfterFree(s, s', root, vpn, w);
      assert Owned(s, n, LeafFrame(s, root, w).value);
      if LeafFrame(s, root, vpn) == LeafFrame(s, root, w) && LeafFrame(s, root, w).value >= PMM_RESERVED_FRAMES {
        assert Shared(s, root, vpn, w);
      }
    }
  }

  // What is freed is a frame of the bitmap.
  lemma FreedFrame(s: Snap, root: nat, n: nat, vpn: nat)
    requires Running(s, root, n) && OwnedLeaf(s, root, n, vpn) && vpn < PAGES && !InHhdm(n, vpn)
    ensures LeafTarget(s.View(root, vpn)) < 64 * BITMAP_WORDS
  {
    assert s.NotLarge(root, vpn);
    if LeafFrame(s, root, vpn).Some? { assert Owned(s, n, LeafFrame(s, root, vpn).value); }
  }

  lemma ReleasedBy(s: Snap, s1: Snap, s2: Snap, root: nat, n: nat, vpn: nat, ok: bool)
    requires Running(s, root, n) && OwnedLeaf(s, root, n, vpn) && vpn < PAGES && !InHhdm(n, vpn)
    requires Unlinked(s, s1, root, vpn) && (!ok ==> s.View(root, vpn) == Unmapped)
    requires var g := LeafTarget(s.View(root, vpn));
      s2 == if ok && g >= PMM_RESERVED_FRAMES then s1.(free := s1.free + {g}) else s1
    ensures Released(s, s2, root, vpn)
  {
    assert s.NotLarge(root, vpn);
    var g := LeafTarget(s.View(root, vpn));
    assert Freed(s, root, vpn) == if ok && g >= PMM_RESERVED_FRAMES then {g} else {};
    if LeafFrame(s, root, vpn).Some? { assert Owned(s, n, g); }
    assert forall w: nat | w < PAGES :: s2.View(root, w) == s1.View(root, w);
  }

  // ---- Stores by whoever uses the mapped pages ----

  // The contents of the frame behind the 4 KiB leaf of page w become `page`.
  ghost predicate Stored(s: Snap, s': Snap, root: nat, w: nat, page: Table) {
    && LeafFrame(s, root, w).Some? && LeafFrame(s, root, w).value in s.mem
    && s' == s.(mem := s.mem[LeafFrame(s, root, w).value := page])
  }

  // No store through a mapped page can change a translation.
  lemma StoreIsHarmless(s: Snap, s': Snap, root: nat, n: nat, w: nat, page: Table)
    requires Running(s, root, n) && Exclusive(s, root, n) && w < PAGES && Stored(s, s', root, w, page)
    ensures SameView(s, s', root) && Running(s', root, n) && Exclusive(s', root, n)
  {
    var f := LeafFrame(s, root, w).value;
    assert Owned(s, n, f);
    StoreKeepsView(s, s', root, f, page);
    SameDirectMap(s, s', root, n);
    forall v: nat | v < PAGES ensures LeafFrame(s', root, v) == LeafFrame(s, root, v) {
      assert s'.View(root, v) == s.View(root, v);
    }
    forall u: nat, v: nat | u < PAGES && v < PAGES && Shared(s', root, u, v) ensures u == v {
      assert Shared(s, root, u, v);
    }
    forall v: nat | v < PAGES && LeafFrame(s', root, v).Some?
      ensures Owned(s', n, LeafFrame(s', root, v).value)
    {
      assert Owned(s, n, LeafFrame(s, root, v).value);
    }
  }

  // ---- Runs ----

  datatype Op =
    | Alloc(vpn: nat, e: u64, f: nat, flags: u64, ok: bool)
    | Free(vpn: nat)
    | Store(vpn: nat, page: Table)

  ghost predicate Legal(op: Op, n: nat) {
    && op.vpn < PAGES
    && (!op.Store? ==> !InHhdm(n, op.vpn))
    && (op.Alloc? ==> LeafFor(op.e, op.f, op.flags) && And(op.flags, PAGE_ADDR_MASK) == 0)
  }

  ghost predicate Step(s: Snap, s': Snap, root: nat, op: Op) {
    match op
    case Alloc(vpn, e, f, flags, ok) => AffordsAlloc(s, vpn) && Allocated(s, s', root, vpn, e, f, ok)
    case Free(vpn) => Released(s, s', root, vpn)
    case Store(vpn, page) => Stored(s, s', root, vpn, page)
  }

  ghost predicate Run(ss: seq<Snap>, ops: seq<Op>, root: nat, n: nat) {
    && |ss| == |ops| + 1
    && forall i | 0 <= i < |ops| :: Legal(ops[i], n) && Step(ss[i], ss[i + 1], root, ops[i])
  }

  lemma StepKeeps(s: Snap, s': Snap, root: nat, n: nat, op: Op)
    requires Running(s, root, n) && Exclusive(s, root, n) && Legal(op, n) && Step(s, s', root, op)
    ensures Running(s', root, n) && Exclusive(s', root, n)
  {
    match op
    case Alloc(vpn, e, f, flags, ok) =>
      LeafForTarget(e, f, flags);
      AllocKeepsRunning(s, s', root, n, vpn, e, f, ok);
      AllocKeepsExclusive(s, s', root, n, vpn, e, f, ok);
    case Free(vpn) =>
      FreeKeepsRunning(s, s', root, n, vpn);
      FreeKeepsExclusive(s, s', root, n, vpn);
    case Store(vpn, page) =>
      StoreIsHarmless(s, s', root, n, vpn, page);
  }

  // Every state of every run is exclusive, and the direct map stays whole.
  lemma {:induction false} RunsStayExclusive(ss: seq<Snap>, ops: seq<Op>, root: nat, n: nat, k: nat)
    requires Run(ss, ops, root, n) && Running(ss[0], root, n) && Exclusive(ss[0], root, n)
    requires k < |ss|
    ensures Running(ss[k], root, n) && Exclusive(ss[k], root, n)
  {
    if k > 0 {
      RunsStayExclusive(ss, ops, root, n, k - 1);
      StepKeeps(ss[k - 1], ss[k], root, n, ops[k - 1]);
    }
  }

  // ---- How long a run stays affordable ----

  lemma AllocHasNext(s: Snap, w: nat)
    requires AffordsAlloc(s, w)
    ensures s.HasNext()
  {
    OpenAffordsAlloc(s, w);
  }

  // One allocation takes at most four frames.
  lemma FourAtMost(s: Snap, s': Snap, root: nat, n: nat, vpn: nat, e: u64, f: nat, ok: bool)
    requires Running(s, root, n) && vpn < PAGES && !InHhdm(n, vpn) && Allocated(s, s', root, vpn, e, f, ok)
    ensures |s'.free| + 4 >= |s.free| && s'.beyond == s.beyond
  {
    if s.free != {} {
      AllocKeepsRunning(s, s', root, n, vpn, e, f, ok);
      AtMostThree(Without(s, f), s', root, vpn);
      TakenFrames(s.free, s'.free, f, s'.nodes.Keys - s.nodes.Keys);
    }
  }

  lemma TakenFrames(free: set<nat>, free': set<nat>, f: nat, taken: set<nat>)
    requires free' == free - {f} - taken && |taken| <= 3
    ensures |free'| + 4 >= |free|
  {
    assert free <= free' + {f} + taken;
    Fewer(free, free' + {f} + taken);
  }

  lemma FourSuffice(s: Snap, vpn: nat)
    requires s.beyond.frames == {} || |s.free| >= 4
    ensures AffordsAlloc(s, vpn)
  {
    OpenAffordsAlloc(s, vpn);
    var ns := PathNodes(vpn);
    ThreeAtMost(ns, Node(1, Prefix(1, vpn)), Node(2, Prefix(2, vpn)), Node(3, Prefix(3, vpn)));
    Subset(Need(s, vpn), ns);
  }

  lemma FreeTakesNone(s: Snap, s': Snap, root: nat, n: nat, vpn: nat)
    requires Running(s, root, n) && Exclusive(s, root, n) && vpn < PAGES && Released(s, s', root, vpn)
    ensures |s'.free| >= |s.free| && s'.beyond == s.beyond
  {
    assert s.free <= s'.free;
    assert s'.free == s.free + (s'.free - s.free);
  }

  // A run takes at most four frames a call, so it can be continued while four are left.
  lemma {:induction false} RunTakesFour(ss: seq<Snap>, ops: seq<Op>, root: nat, n: nat, k: nat)
    requires Run(ss, ops, root, n) && Running(ss[0], root, n) && Exclusive(ss[0], root, n) && k < |ss|
    ensures |ss[k].free| + 4 * k >= |ss[0].free| && ss[k].beyond == ss[0].beyond
  {
    if k > 0 {
      RunTakesFour(ss, ops, root, n, k - 1);
      RunsStayExclusive(ss, ops, root, n, k - 1);
      StepTakesFour(ss[k - 1], ss[k], root, n, ops[k - 1]);
    }
  }

  lemma StepTakesFour(s: Snap, s': Snap, root: nat, n: nat, op: Op)
    requires Running(s, root, n) && Exclusive(s, root, n) && Legal(op, n) && Step(s, s', root, op)
    ensures |s'.free| + 4 >= |s.free| && s'.beyond == s.beyond
  {
    match op
    case Alloc(vpn, e, f, flags, ok) => FourAtMost(s, s', root, n, vpn, e, f, ok);
    case Free(vpn) => FreeTakesNone(s, s', root, n, vpn);
    case Store(vpn, page) =>
  }

  lemma RunOn(ss: seq<Snap>, ops: seq<Op>, root: nat, n: nat, op: Op, s': Snap)
    requires Run(ss, ops, root, n) && Legal(op, n) && Step(ss[|ops|], s', root, op)
    ensures Run(ss + [s'], ops + [op], root, n)
  {
    var ss', ops' := ss + [s'], ops + [op];
    forall i | 0 <= i < |ops'| ensures Legal(ops'[i], n) && Step(ss'[i], ss'[i + 1], root, ops'[i]) {
      if i < |ops| { assert ss'[i] == ss[i] && ss'[i + 1] == ss[i + 1] && ops'[i] == ops[i]; }
    }
  }

  // ---- Allocation undone ----

  // Allocating and freeing an unmapped page restores every translation and gives back the
  // data frame; only the new tables, at most three, stay taken.
  lemma AllocThenFree(s: Snap, s1: Snap, s2: Snap, root: nat, n: nat, vpn: nat, e: u64, f: nat, flags: u64)
    requires Running(s, root, n) && vpn < PAGES && s.View(root, vpn) == Unmapped
    requires LeafFor(e, f, flags) && And(flags, PAGE_ADDR_MASK) == 0
    requires Allocated(s, s1, root, vpn, e, f, true) && Released(s1, s2, root, vpn)
    ensures SameView(s, s2, root)
    ensures s1.View(root, vpn) == Mapped(1, e) && Target(e) == f && s2.free == s1.free + {f}
    ensures s2.free == s.free - (s2.nodes.Keys - s.nodes.Keys) && |s2.nodes.Keys - s.nodes.Keys| <= 3
  {
    LeafForTarget(e, f, flags);
    assert s1.View(root, vpn) == Mapped(1, e);
    ViewRestored(s, s1, s2, root, vpn, e, f);
    AtMostThree(Without(s, f), s1, root, vpn);
    FrameBack(Without(s, f), s1, s2, s.free, f);
  }

  lemma FrameBack(s0: Snap, s1: Snap, s2: Snap, free: set<nat>, f: nat)
    requires s0.free == free - {f} && f in free && Grew(s0, s1) && s2.nodes == s1.nodes && s2.free == s1.free + {f}
    ensures s2.free == free - (s2.nodes.Keys - s0.nodes.Keys)
  {
  }

  lemma ViewRestored(s: Snap, s1: Snap, s2: Snap, root: nat, vpn: nat, e: u64, f: nat)
    requires vpn < PAGES && s.View(root, vpn) == Unmapped && s.free != {}
    requires Allocated(s, s1, root, vpn, e, f, true) && Released(s1, s2, root, vpn)
    ensures SameView(s, s2, root)
  {
    forall w: nat | w < PAGES ensures s2.View(root, w) == s.View(root, w) {
      assert s2.View(root, w) == if w == vpn then Unmapped else s1.View(root, w);
      assert s1.View(root, w) == if w == vpn then Mapped(1, e) else Without(s, f).View(root, w);
    }
  }

  lemma AtMostThree(s0: Snap, s: Snap, root: nat, vpn: nat)
    requires s.Ok(root) && NewOnPath(s0, s, vpn)
    ensures |s.nodes.Keys - s0.nodes.Keys| <= 3
  {
    var m := map t | t in s.nodes && t !in s0.nodes :: s.nodes[t];
    assert m.Keys == s.nodes.Keys - s0.nodes.Keys;
    assert |m.Values| == |m.Keys| by {
      OnePlaceEach(s, root);
      assert Injective(m);
      ValuesCount(m);
    }
    NewValues(s0, s, m, vpn);
    Subset(m.Values, PathNodes(vpn));
    ThreeAtMost(PathNodes(vpn), Node(1, Prefix(1, vpn)), Node(2, Prefix(2, vpn)), Node(3, Prefix(3, vpn)));
  }

  // Freeing a page that is not mapped changes no translation and no bit of the bitmap.
  lemma FreeOfUnmapped(s: Snap, s': Snap, root: nat, vpn: nat)
    requires vpn < PAGES && s.View(root, vpn) == Unmapped && Released(s, s', root, vpn)
    ensures SameView(s, s', root) && s'.free == s.free && s'.nodes == s.nodes
  {
    forall w: nat | w < PAGES ensures s'.View(root, w) == s.View(root, w) {
      assert s'.View(root, w) == if w == vpn then Unmapped else s.View(root, w);
    }
  }

  lemma ThreeAtMost(xs: set<Node>, a: Node, b: Node, c: Node)
    requires xs == {a, b, c}
    ensures |xs| <= 3
  {
  }

  lemma NewValues(s0: Snap, s: Snap, m: map<nat, Node>, vpn: nat)
    requires NewOnPath(s0, s, vpn) && forall t | t in m :: t in s.nodes && t !in s0.nodes && m[t] == s.nodes[t]
    ensures m.Values <= PathNodes(vpn)
  {
    forall x | x in m.Values ensures x in PathNodes(vpn) {
      var t :| t in m && m[t] == x;
      assert x == Node(x.level, Prefix(x.level, vpn)) && 1 <= x.level <= 3;
    }
  }
}
