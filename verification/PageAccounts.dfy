/** Where every frame is: when an allocation fails, what it loses, and the accounts of whole runs. */
module PageAccounts {
  import opened Words
  import opened PageTable
  import opened Entries
  import opened Pmm
  import opened Walks
  import opened LeastFrames
  import opened Counting
  import opened Plan
  import opened Online
  import opened PageRuns

  // ---- When an allocation fails ----

  // An allocation succeeds exactly when there is a free frame for the page and one for every
  // table it still needs.
  lemma AllocIff(s: Snap, s': Snap, root: nat, vpn: nat, e: u64, f: nat, ok: bool)
    requires s.Ok(root) && Allocated(s, s', root, vpn, e, f, ok)
    ensures ok <==> |s.free| > |Need(s, vpn)|
  {
    if s.free != {} {
      var s1 := Without(s, f);
      assert SameView(s, s1, root) && s1.Ok(root);
      assert |s1.free| == |s.free| - 1;
      OpenCanMap(s1, vpn);
      MapsIff(s1, s', root, vpn, e, !ok);
    }
  }

  ghost predicate HeldByLeaf(s: Snap, root: nat, f: nat) {
    exists w: nat :: w < PAGES && LeafFrame(s, root, w) == Some(f)
  }

  ghost predicate Astray(s: Snap, root: nat, f: nat) { f !in s.free && f !in s.nodes && !HeldByLeaf(s, root, f) }

  // The data frame goes astray exactly when there is a free frame but too few of them; then
  // every other one becomes a linked table, and no translation changes.
  lemma AllocLosesIff(s: Snap, s': Snap, root: nat, n: nat, vpn: nat, e: u64, f: nat, ok: bool)
    requires Running(s, root, n) && Exclusive(s, root, n) && vpn < PAGES && !InHhdm(n, vpn)
    requires Allocated(s, s', root, vpn, e, f, ok) && f in s.free && Target(e) == f
    ensures Astray(s', root, f) <==> 0 < |s.free| <= |Need(s, vpn)|
    ensures |s.free| <= |Need(s, vpn)| ==>
      SameView(s, s', root) && s'.free == {} && s.free == (s'.nodes.Keys - s.nodes.Keys) + {f}
  {
    AllocIff(s, s', root, vpn, e, f, ok);
    if ok {
      FramesAfterAlloc(s, s', root, vpn, e, f, ok, vpn);
    } else {
      FailedAlloc(s, s', root, n, vpn, e, f);
    }
  }

  // A failed allocation changes no translation, but every frame is gone: all but one are
  // linked tables, and that one, the data frame, is lost. It is neither free, nor a table,
  // nor behind any leaf.
  lemma FailedAlloc(s: Snap, s': Snap, root: nat, n: nat, vpn: nat, e: u64, f: nat)
    requires Running(s, root, n) && Exclusive(s, root, n) && vpn < PAGES && s.free != {}
    requires Allocated(s, s', root, vpn, e, f, false)
    ensures SameView(s, s', root) && s'.Ok(root) && s'.free == {}
    ensures s.free == (s'.nodes.Keys - s.nodes.Keys) + {f} && f !in s'.nodes
    ensures forall w: nat | w < PAGES :: LeafFrame(s', root, w) != Some(f)
  {
    var s0 := Without(s, f);
    assert f !in s.nodes;
    assert s0.free - (s'.nodes.Keys - s.nodes.Keys) == {};
    forall w: nat | w < PAGES ensures s'.View(root, w) == s.View(root, w) && LeafFrame(s', root, w) != Some(f) {
      assert s'.View(root, w) == s0.View(root, w);
      NotFree(s, root, n, f, w);
    }
  }

  // What an allocation loses, from the state before it: frame f if there is a free frame but
  // too few, and nothing else.
  ghost predicate LosesOnlyThen(s: Snap, s': Snap, root: nat, n: nat, vpn: nat, f: nat) {
    s.free != {} && Exclusive(s, root, n) ==> (Astray(s', root, f) <==> |s.free| <= |Need(s, vpn)|)
  }

  lemma AllocReport(s: Snap, s': Snap, root: nat, n: nat, vpn: nat, e: u64, f: nat, flags: u64, ok: bool)
    requires Running(s, root, n) && vpn < PAGES && !InHhdm(n, vpn)
    requires Allocated(s, s', root, vpn, e, f, ok) && LeafFor(e, f, flags)
    ensures ok <==> |s.free| > |Need(s, vpn)|
    ensures And(flags, PAGE_ADDR_MASK) == 0 ==> LosesOnlyThen(s, s', root, n, vpn, f)
  {
    AllocIff(s, s', root, vpn, e, f, ok);
    if And(flags, PAGE_ADDR_MASK) == 0 && s.free != {} && Exclusive(s, root, n) {
      LeafForTarget(e, f, flags);
      AllocLosesIff(s, s', root, n, vpn, e, f, ok);
    }
  }

  // A running system with one free frame, and two tables that map the first GiB.
  lemma SmallState() returns (s: Snap, root: nat)
    ensures Running(s, root, 1) && Exclusive(s, root, 1) && !InHhdm(1, 0) && s.View(root, 0) == Unmapped
    ensures root == 0x4000 && s.nodes == map[root := Node(4, 0), 0x4001 := Node(3, 256)]
    ensures s.free == {0x4002} && s.beyond == Beyond(0x4003, {}) && 0 in s.mem && s.mem[0] == ZERO_TABLE
  {
    root := 0x4000;
    var t, g, w := 0x4001, 0x4002, LOWER_HALF;
    var s0 := Snap(map[0 := ZERO_TABLE, root := ZERO_TABLE, t := ZERO_TABLE, g := ZERO_TABLE], map[root := Node(4, 0)],
                   {t, g}, Beyond(0x4003, {}));
    RootTree(s0, root);
    GibMapped(0, 0, w, GibEntry(0));
    RootAt(s0.mem, root, w);
    var s1 := WithTable(s0, 4, w, root, t);
    InstallOk(s0, root, 4, w, root, t, s1);
    NoTableBelow(s0, root, w, t, s1);
    s := s1.(mem := Replaced(s1.mem, t, Prefix(2, w) % 512, GibEntry(0)));
    StoreLarge(s0, s1, s, root, w, t, GibEntry(0));
    OneGib(s0, s, root, w, t);
  }

  // In it page 0 needs three tables, and every allocation of it fails.
  lemma FailingState() returns (s: Snap, root: nat)
    ensures Running(s, root, 1) && Exclusive(s, root, 1) && !InHhdm(1, 0) && AffordsAlloc(s, 0)
    ensures s.View(root, 0) == Unmapped && |s.free| == 1 && |Need(s, 0)| == 3
    ensures forall s', e, f, ok | Allocated(s, s', root, 0, e, f, ok) :: !ok
  {
    s, root := SmallState();
    ThreeNeeded(s, root, 0x4001);
    OpenAffordsAlloc(s, 0);
    forall s', e, f, ok | Allocated(s, s', root, 0, e, f, ok) ensures !ok {
      AllocIff(s, s', root, 0, e, f, ok);
    }
  }

  lemma OneGib(s0: Snap, s: Snap, root: nat, w: nat, t: nat)
    requires HhdmMapping(s0, s0, root, 0) && s.Ok(root)
    requires LargeAt(s0, s, root, w, GibEntry(0)) && Prefix(2, w) == 0x2_0000
    requires root == 0x4000 && t == 0x4001 && s.nodes.Keys == {root, t} && s.free == {0x4002}
    ensures Running(s, root, 1) && Exclusive(s, root, 1) && s.View(root, 0) == Unmapped && !InHhdm(1, 0)
  {
    PrefixValues(0);
    forall v: nat | v < PAGES ensures s.View(root, v) == HhdmView(1, v) {
      assert s.View(root, v) == if Prefix(2, v) == Prefix(2, w) then Mapped(3, GibEntry(0)) else s0.View(root, v);
    }
  }

  lemma ThreeNeeded(s: Snap, root: nat, t: nat)
    requires s.nodes == map[root := Node(4, 0), t := Node(3, 256)] && root != t
    ensures |Need(s, 0)| == 3
  {
    assert root in s.nodes && s.nodes[root] == Node(4, 0) && t in s.nodes && s.nodes[t] == Node(3, 256);
    assert s.nodes.Values == {Node(4, 0), Node(3, 256)};
    PrefixValues(0);
    assert Need(s, 0) == {Node(1, 0), Node(2, 0), Node(3, 0)};
  }

  // ---- The accounts of a run ----

  // The frames that one operation loses: the data frame of a failed allocation, or the frame
  // of a page that is allocated over.
  function LostBy(s: Snap, root: nat, op: Op): set<nat> {
    match op
    case Alloc(vpn, e, f, flags, ok) =>
      if s.free == {} then {} else if !ok then {f} else Freed(s, root, vpn)
    case _ => {}
  }

  function Lost(ss: seq<Snap>, ops: seq<Op>, root: nat, k: nat): set<nat>
    requires k <= |ops| < |ss|
  {
    if k == 0 then {} else Lost(ss, ops, root, k - 1) + LostBy(ss[k - 1], root, ops[k - 1])
  }

  function One(b: bool): nat { if b then 1 else 0 }

  // Frame f is in exactly one of four places.
  ghost predicate InOnePlace(s: Snap, root: nat, lost: set<nat>, f: nat) {
    One(f in s.free) + One(f in s.nodes) + One(HeldByLeaf(s, root, f)) + One(f in lost) == 1
  }

  // Which frames are behind leaves after an allocation.
  lemma LeavesAfterAlloc(s: Snap, s': Snap, root: nat, n: nat, vpn: nat, e: u64, f: nat, ok: bool, x: nat)
    requires Exclusive(s, root, n) && s.free != {} && vpn < PAGES && x >= PMM_RESERVED_FRAMES
    requires Allocated(s, s', root, vpn, e, f, ok) && Target(e) == f
    ensures HeldByLeaf(s', root, x) <==>
      (ok && x == f) || (HeldByLeaf(s, root, x) && !(ok && LeafFrame(s, root, vpn) == Some(x)))
  {
    FramesAfterAlloc(s, s', root, vpn, e, f, ok, vpn);
    if HeldByLeaf(s', root, x) {
      var w: nat :| w < PAGES && LeafFrame(s', root, w) == Some(x);
      FramesAfterAlloc(s, s', root, vpn, e, f, ok, w);
      if LeafFrame(s, root, vpn) == Some(x) && LeafFrame(s, root, w) == Some(x) { assert Shared(s, root, w, vpn); }
    }
    if HeldByLeaf(s, root, x) {
      var w: nat :| w < PAGES && LeafFrame(s, root, w) == Some(x);
      FramesAfterAlloc(s, s', root, vpn, e, f, ok, w);
    }
  }

  lemma LeafIsOwned(s: Snap, root: nat, n: nat, x: nat)
    requires Exclusive(s, root, n) && HeldByLeaf(s, root, x) && x >= PMM_RESERVED_FRAMES
    ensures x !in s.free && x !in s.nodes
  {
    var w: nat :| w < PAGES && LeafFrame(s, root, w) == Some(x);
    assert Owned(s, n, LeafFrame(s, root, w).value);
  }

  lemma AllocKeepsPlaces(s: Snap, s': Snap, root: nat, n: nat, op: Op, lost: set<nat>, x: nat)
    requires Running(s, root, n) && Exclusive(s, root, n) && op.Alloc? && Legal(op, n) && Step(s, s', root, op)
    requires InOnePlace(s, root, lost, x) && x >= PMM_RESERVED_FRAMES
    ensures InOnePlace(s', root, lost + LostBy(s, root, op), x)
  {
    if s.free != {} {
      LeafForTarget(op.e, op.f, op.flags);
      LeavesAfterAlloc(s, s', root, n, op.vpn, op.e, op.f, op.ok, x);
      if HeldByLeaf(s, root, x) { LeafIsOwned(s, root, n, x); }
      if LeafFrame(s, root, op.vpn) == Some(x) { assert HeldByLeaf(s, root, x); }
      FramesMove(Without(s, op.f), s', x);
    }
  }

  // A free frame stays free or becomes a table, a table stays one.
  lemma FramesMove(s: Snap, s': Snap, x: nat)
    requires Grew(s, s')
    ensures x in s'.free ==> x in s.free
    ensures x in s.free ==> (x in s'.free <==> x !in s'.nodes || x in s.nodes)
    ensures x !in s.free ==> (x in s'.nodes <==> x in s.nodes)
    ensures x in s.nodes ==> x in s'.nodes
  {
    assert x in s'.nodes.Keys - s.nodes.Keys <==> x in s'.nodes && x !in s.nodes;
  }

  lemma FreeKeepsPlaces(s: Snap, s': Snap, root: nat, n: nat, vpn: nat, lost: set<nat>, x: nat)
    requires Running(s, root, n) && Exclusive(s, root, n) && vpn < PAGES && Released(s, s', root, vpn)
    requires InOnePlace(s, root, lost, x) && x >= PMM_RESERVED_FRAMES
    ensures InOnePlace(s', root, lost, x)
  {
    if HeldByLeaf(s', root, x) {
      var w: nat :| w < PAGES && LeafFrame(s', root, w) == Some(x);
      FramesAfterFree(s, s', root, vpn, w);
      assert HeldByLeaf(s, root, x) && w != vpn;
      if LeafFrame(s, root, vpn) == Some(x) { assert Shared(s, root, w, vpn); }
    } else if HeldByLeaf(s, root, x) {
      var w: nat :| w < PAGES && LeafFrame(s, root, w) == Some(x);
      FramesAfterFree(s, s', root, vpn, w);
    }
    if LeafFrame(s, root, vpn) == Some(x) { assert HeldByLeaf(s, root, x); }
  }

  lemma StoreKeepsPlaces(s: Snap, s': Snap, root: nat, n: nat, w: nat, page: Table, lost: set<nat>, x: nat)
    requires Running(s, root, n) && Exclusive(s, root, n) && w < PAGES && Stored(s, s', root, w, page)
    requires InOnePlace(s, root, lost, x)
    ensures InOnePlace(s', root, lost, x)
  {
    StoreIsHarmless(s, s', root, n, w, page);
    forall v: nat | v < PAGES ensures LeafFrame(s', root, v) == LeafFrame(s, root, v) {
      assert s'.View(root, v) == s.View(root, v);
    }
  }

  lemma StepKeepsPlaces(s: Snap, s': Snap, root: nat, n: nat, op: Op, lost: set<nat>, x: nat)
    requires Running(s, root, n) && Exclusive(s, root, n) && Legal(op, n) && Step(s, s', root, op)
    requires InOnePlace(s, root, lost, x) && x >= PMM_RESERVED_FRAMES
    ensures InOnePlace(s', root, lost + LostBy(s, root, op), x)
  {
    match op
    case Alloc(_, _, _, _, _) => AllocKeepsPlaces(s, s', root, n, op, lost, x);
    case Free(vpn) =>
      FreeKeepsPlaces(s, s', root, n, vpn, lost, x);
      assert lost + LostBy(s, root, op) == lost;
    case Store(vpn, page) =>
      StoreKeepsPlaces(s, s', root, n, vpn, page, lost, x);
      assert lost + LostBy(s, root, op) == lost;
  }

  lemma FirstPlace(s: Snap, root: nat, n: nat, x: nat)
    requires Running(s, root, n) && Exclusive(s, root, n) && x in s.free
    ensures InOnePlace(s, root, {}, x) && x >= PMM_RESERVED_FRAMES
  {
    if HeldByLeaf(s, root, x) { LeafIsOwned(s, root, n, x); }
  }

  lemma AccountStep(ss: seq<Snap>, ops: seq<Op>, root: nat, n: nat, k: nat, x: nat)
    requires 0 < k <= |ops| < |ss| && Running(ss[k - 1], root, n) && Exclusive(ss[k - 1], root, n)
    requires Legal(ops[k - 1], n) && Step(ss[k - 1], ss[k], root, ops[k - 1])
    requires InOnePlace(ss[k - 1], root, Lost(ss, ops, root, k - 1), x) && x >= PMM_RESERVED_FRAMES
    ensures InOnePlace(ss[k], root, Lost(ss, ops, root, k), x)
  {
    StepKeepsPlaces(ss[k - 1], ss[k], root, n, ops[k - 1], Lost(ss, ops, root, k - 1), x);
  }

  // At every moment of every run, each frame that was free at the start is free, a table,
  // behind a leaf, or lost, and only one of these.
  lemma {:induction false} RunsAccount(ss: seq<Snap>, ops: seq<Op>, root: nat, n: nat, k: nat, x: nat)
    requires Run(ss, ops, root, n) && Running(ss[0], root, n) && Exclusive(ss[0], root, n)
    requires k <= |ops| && x in ss[0].free
    ensures InOnePlace(ss[k], root, Lost(ss, ops, root, k), x)
  {
    if k == 0 {
      FirstPlace(ss[0], root, n, x);
    } else {
      RunsAccount(ss, ops, root, n, k - 1, x);
      RunsStayExclusive(ss, ops, root, n, k - 1);
      AccountStep(ss, ops, root, n, k, x);
    }
  }
}
