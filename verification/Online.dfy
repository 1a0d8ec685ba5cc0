/** The running system: the direct map gives access to every frame, and pages come and go. */
module Online {
  import opened Words
  import opened PageTable
  import opened Entries
  import opened Pmm
  import opened Walks
  import opened Plan

  predicate InHhdm(n: nat, w: nat) { 0x2_0000 <= Prefix(2, w) < 0x2_0000 + n }

  // The first n GiB are mapped at HHDM_OFFSET, and only they by large pages.
  ghost predicate DirectMap(s: Snap, root: nat, n: nat) {
    && n <= 0x2_0000
    && (forall w: nat | w < PAGES ::
          if InHhdm(n, w) then s.View(root, w) == HhdmView(n, w) else s.NotLarge(root, w))
  }

  // ... and every table and free frame lies in them, above the reserved limit.
  ghost predicate Running(s: Snap, root: nat, n: nat) {
    && s.Ok(root) && DirectMap(s, root, n)
    && (forall t | t in s.nodes :: PMM_RESERVED_FRAMES <= t < 0x4_0000 * n)
    && (forall f | f in s.free :: PMM_RESERVED_FRAMES <= f < 0x4_0000 * n)
  }

  // The word at HHDM_OFFSET + 4096 t + 8 i is word i of frame t.
  lemma HhdmAccess(s: Snap, root: nat, n: nat, t: nat, i: nat, va: u64)
    requires DirectMap(s, root, n) && t < 0x4_0000 * n && i < 512
    requires va == 4096 * t + 8 * i + HHDM_OFFSET
    ensures PhysOf(s.View(root, PageOf(va)), va) == Some(4096 * t + 8 * i)
  {
    var p := 4096 * t + 8 * i;
    HhdmReaches(n, p);
    HhdmGib(p, p / 0x4000_0000, p % 0x4000_0000);
    assert InHhdm(n, PageOf(va));
  }

  // Overwriting a frame that is no table changes no translation.
  lemma StoreKeepsView(s: Snap, s': Snap, root: nat, f: nat, page: Table)
    requires s.Ok(root) && f !in s.nodes && s' == s.(mem := s.mem[f := page])
    ensures s'.Ok(root) && SameView(s, s', root)
  {
    TreeFacts(s.mem, root, s.nodes);
    TreeFacts(s'.mem, root, s'.nodes);
    StoreKeepsTree(s.mem, root, s.nodes, f, page);
  }

  lemma SameDirectMap(s: Snap, s': Snap, root: nat, n: nat)
    requires DirectMap(s, root, n) && SameView(s, s', root)
    ensures DirectMap(s', root, n)
  {
    forall w: nat | w < PAGES
      ensures if InHhdm(n, w) then s'.View(root, w) == HhdmView(n, w) else s'.NotLarge(root, w)
    {
      assert s'.View(root, w) == s.View(root, w);
    }
  }

  // Between taking a frame and linking it, the system still runs.
  lemma TakeFrame(s: Snap, s': Snap, root: nat, n: nat, f: nat)
    requires Running(s, root, n) && f in s.free && s' == s.(free := s.free - {f})
    ensures Running(s', root, n) && f in s'.mem && f !in s'.nodes && f < 0x4_0000 * n
  {
    assert SameView(s, s', root);
    SameDirectMap(s, s', root, n);
  }

  lemma ZeroedFrame(s: Snap, s': Snap, root: nat, n: nat, f: nat)
    requires Running(s, root, n) && f in s.free && s' == s.(mem := s.mem[f := ZERO_TABLE], free := s.free - {f})
    ensures Running(s', root, n)
  {
    var s1 := s.(free := s.free - {f});
    TakeFrame(s, s1, root, n, f);
    StoreKeepsView(s1, s', root, f, ZERO_TABLE);
    SameDirectMap(s1, s', root, n);
  }

  lemma WalkedRunning(s0: Snap, s: Snap, root: nat, n: nat, vpn: nat)
    requires Running(s0, root, n) && Walked(s0, s, root, vpn)
    ensures Running(s, root, n)
  {
    SameDirectMap(s0, s, root, n);
    forall t | t in s.nodes ensures PMM_RESERVED_FRAMES <= t < 0x4_0000 * n {
      if t !in s0.nodes { assert t in s.nodes.Keys - s0.nodes.Keys; }
    }
  }

  // Changing the leaf of a page outside the direct map.
  lemma UpdatedRunning(s0: Snap, s: Snap, root: nat, n: nat, vpn: nat, tr: Translation)
    requires Running(s0, root, n) && s.Ok(root) && Grew(s0, s) && Updated(s0, s, root, vpn, tr)
    requires !InHhdm(n, vpn) && (tr.Mapped? ==> tr.level == 1)
    ensures Running(s, root, n)
  {
    forall w: nat | w < PAGES
      ensures if InHhdm(n, w) then s.View(root, w) == HhdmView(n, w) else s.NotLarge(root, w)
    {
      assert s.View(root, w) == if w == vpn then tr else s0.View(root, w);
    }
    forall t | t in s.nodes ensures PMM_RESERVED_FRAMES <= t < 0x4_0000 * n {
      if t !in s0.nodes { assert t in s.nodes.Keys - s0.nodes.Keys; }
    }
  }

  // Page vpn is unmapped, and nothing else has changed.
  ghost predicate Unlinked(s: Snap, s': Snap, root: nat, vpn: nat) {
    && s'.Ok(root) && s.mem.Keys <= s'.mem.Keys && s'.nodes == s.nodes && s'.free == s.free
    && s'.beyond == s.beyond
    && Updated(s, s', root, vpn, Unmapped)
  }

  // The leaf word that unmapping reads.
  function LeafTarget(tr: Translation): nat { if tr.Mapped? then Target(tr.entry) else 0 }

  lemma LeafWord(s: Snap, root: nat, vpn: nat, t: nat)
    requires s.Ok(root) && vpn < PAGES && TableAt(s.mem, root, 1, Prefix(1, vpn)) == Some(t)
    ensures t in s.mem && LeafTarget(s.View(root, vpn)) == Target(s.mem[t][vpn % 512])
  {
    TableIn(s, root, 1, Prefix(1, vpn), t);
    WalkFrom(s.mem, root, 1, vpn, t);
    assert Prefix(0, vpn) == vpn;
  }

  lemma NoLeafTable(s0: Snap, s: Snap, root: nat, vpn: nat)
    requires s.Ok(root) && s.nodes == s0.nodes && s.free == s0.free && s.beyond == s0.beyond
    requires SameView(s0, s, root) && s0.mem.Keys <= s.mem.Keys
    requires vpn < PAGES && s.View(root, vpn) == Unmapped
    ensures Unlinked(s0, s, root, vpn)
  {
    forall w: nat | w < PAGES ensures s.View(root, w) == if w == vpn then Unmapped else s0.View(root, w) {
      assert s.View(root, w) == s0.View(root, w);
    }
  }
}
