/** What the walkers work on, and what one walk does to it. */
module Walks {
  import opened Words
  import opened PageTable
  import opened Entries
  import opened Pmm

  // What a walker hands back: NULL, a pointer &table[index] to an entry, or no return at all
  // because the machine was made to write through PMM_INVALID_FRAME.
  datatype PteResult = Null | Pte(table: u64, index: nat) | Fault

  // Free frames from a limit on, of which nothing is known: they may not be memory at all.
  datatype Beyond = Beyond(limit: nat, frames: set<nat>)

  // Memory, the places of the tables, the free frames below a limit, and those beyond it.
  datatype Snap = Snap(mem: Memory, nodes: map<nat, Node>, free: set<nat>, beyond: Beyond) {
    // Tables are used frames, free frames can be written, empty slots of tables are zero.
    ghost predicate Ok(root: nat) {
      && WellFormed(mem, root, nodes) && CleanSlots(mem, nodes)
      && (forall t | t in nodes :: t in mem && t !in free && t < 64 * BITMAP_WORDS)
      && (forall f | f in free :: f in mem && f < 64 * BITMAP_WORDS && f < beyond.limit)
    }

    // The next free frame, if any, is below the limit.
    ghost predicate HasNext() { free == {} ==> beyond.frames == {} }

    function View(root: nat, vpn: nat): Translation { Walk(mem, root, 4, vpn) }

    predicate NotLarge(root: nat, vpn: nat) { View(root, vpn).Mapped? ==> View(root, vpn).level == 1 }
  }

  ghost predicate CleanSlots(mem: Memory, nodes: map<nat, Node>) {
    forall t, i | t in mem && t in nodes && 0 <= i < 512 :: Present(mem[t][i]) || mem[t][i] == 0
  }

  // Tables were added, all taken from the free frames, and nothing else was taken.
  ghost predicate Grew(s0: Snap, s: Snap) {
    && s0.mem.Keys <= s.mem.Keys
    && s0.nodes.Keys <= s.nodes.Keys && (forall t | t in s0.nodes :: s.nodes[t] == s0.nodes[t])
    && s.nodes.Keys - s0.nodes.Keys <= s0.free
    && s.free == s0.free - (s.nodes.Keys - s0.nodes.Keys)
    && s.beyond == s0.beyond
  }

  // The new tables are on the way to page vpn.
  ghost predicate NewOnPath(s0: Snap, s: Snap, vpn: nat) {
    forall t | t in s.nodes && t !in s0.nodes ::
      1 <= s.nodes[t].level <= 3 && s.nodes[t].prefix == Prefix(s.nodes[t].level, vpn)
  }

  ghost predicate SameView(s0: Snap, s: Snap, root: nat) {
    forall w: nat | w < PAGES :: s.View(root, w) == s0.View(root, w)
  }

  // Everything a walk for page vpn leaves true.
  ghost predicate Walked(s0: Snap, s: Snap, root: nat, vpn: nat) {
    s.Ok(root) && Grew(s0, s) && NewOnPath(s0, s, vpn) && SameView(s0, s, root)
  }

  lemma WalkStart(s: Snap, root: nat, vpn: nat)
    requires s.Ok(root) && vpn < PAGES
    ensures Walked(s, s, root, vpn)
    ensures TableAt(s.mem, root, 4, Prefix(4, vpn)) == Some(root)
  {
    RootAt(s.mem, root, vpn);
  }

  // A table found from the root is one of the tree's.
  lemma TableIn(s: Snap, root: nat, l: nat, p: nat, t: nat)
    requires s.Ok(root) && 1 <= l <= 4 && TableAt(s.mem, root, l, p) == Some(t)
    ensures t in s.nodes && t in s.mem && s.nodes[t] == Node(l, p) && t !in s.free
  {
    TreeFacts(s.mem, root, s.nodes);
  }

  // Following a link keeps the walk on its tree.
  lemma FollowLink(s: Snap, root: nat, l: nat, vpn: nat, t: nat)
    requires s.Ok(root) && 2 <= l <= 4 && vpn < PAGES && (l < 4 ==> s.NotLarge(root, vpn))
    requires TableAt(s.mem, root, l, Prefix(l, vpn)) == Some(t)
    ensures t in s.mem && t in s.nodes
    ensures var e := s.mem[t][Prefix(l - 1, vpn) % 512];
      if Present(e) then TableAt(s.mem, root, l - 1, Prefix(l - 1, vpn)) == Some(Target(e))
      else s.View(root, vpn) == Unmapped
  {
    TreeFacts(s.mem, root, s.nodes);
    WalkFrom(s.mem, root, l, vpn, t);
  }

  function WithTable(s: Snap, l: nat, vpn: nat, t: nat, f: nat): Snap
    requires 2 <= l <= 4 && t in s.mem && f < 64 * BITMAP_WORDS
  {
    s.(mem := Installed(s.mem, t, Prefix(l - 1, vpn) % 512, f, 4096 * f + 3),
       nodes := s.nodes[f := Node(l - 1, Prefix(l - 1, vpn))], free := s.free - {f})
  }

  lemma InstallOk(s: Snap, root: nat, l: nat, vpn: nat, t: nat, f: nat, s': Snap)
    requires s.Ok(root) && 2 <= l <= 4 && vpn < PAGES && f in s.free
    requires TableAt(s.mem, root, l, Prefix(l, vpn)) == Some(t)
    requires t in s.mem && !Present(s.mem[t][Prefix(l - 1, vpn) % 512])
    requires f < 64 * BITMAP_WORDS && s' == WithTable(s, l, vpn, t, f)
    ensures s'.Ok(root) && SameView(s, s', root)
    ensures TableAt(s'.mem, root, l - 1, Prefix(l - 1, vpn)) == Some(f)
  {
    var i := Prefix(l - 1, vpn) % 512;
    assert CanInstall(s.mem, root, s.nodes, t, i, f, 4096 * f + 3) by {
      TableFields(f);
      TreeFacts(s.mem, root, s.nodes);
    }
    assert s.nodes[t] == Node(l, Prefix(l, vpn)) by { TreeFacts(s.mem, root, s.nodes); }
    assert Child(s.nodes[t], i) == Node(l - 1, Prefix(l - 1, vpn));
    InstallKeepsTree(s.mem, root, s.nodes, t, i, f, 4096 * f + 3);
    assert s'.mem == Installed(s.mem, t, i, f, 4096 * f + 3);
    TreeFacts(s'.mem, root, s'.nodes);
  }

  lemma GrewByOne(s0: Snap, s: Snap, s': Snap, f: nat, l: nat, vpn: nat)
    requires Grew(s0, s) && NewOnPath(s0, s, vpn) && f in s.free && f !in s.nodes && 1 <= l <= 3
    requires s'.nodes == s.nodes[f := Node(l, Prefix(l, vpn))] && s'.free == s.free - {f}
    requires s.mem.Keys <= s'.mem.Keys && s'.beyond == s.beyond
    ensures Grew(s0, s') && NewOnPath(s0, s', vpn)
  {
    assert s'.nodes.Keys - s0.nodes.Keys == (s.nodes.Keys - s0.nodes.Keys) + {f};
  }

  lemma WalkedOn(s0: Snap, s: Snap, s': Snap, root: nat, vpn: nat)
    requires Walked(s0, s, root, vpn) && s'.Ok(root)
    requires Grew(s0, s') && NewOnPath(s0, s', vpn) && SameView(s, s', root)
    ensures Walked(s0, s', root, vpn)
  {
  }

  // Installing a free frame as the missing table of page vpn.
  lemma InstallFree(s0: Snap, s: Snap, root: nat, l: nat, vpn: nat, t: nat, f: nat, s': Snap)
    requires Walked(s0, s, root, vpn) && 2 <= l <= 4 && vpn < PAGES && f in s.free
    requires TableAt(s.mem, root, l, Prefix(l, vpn)) == Some(t)
    requires t in s.mem && !Present(s.mem[t][Prefix(l - 1, vpn) % 512])
    requires f < 64 * BITMAP_WORDS && s' == WithTable(s, l, vpn, t, f)
    ensures Walked(s0, s', root, vpn)
    ensures TableAt(s'.mem, root, l - 1, Prefix(l - 1, vpn)) == Some(f)
  {
    GrewByOne(s0, s, s', f, l - 1, vpn);
    InstallOk(s, root, l, vpn, t, f, s');
    WalkedOn(s0, s, s', root, vpn);
  }

  ghost predicate Updated(s0: Snap, s: Snap, root: nat, vpn: nat, tr: Translation) {
    forall w: nat | w < PAGES :: s.View(root, w) == if w == vpn then tr else s0.View(root, w)
  }

  lemma LeafThrough(vpn: nat, w: nat)
    ensures Through(Node(1, Prefix(1, vpn)), vpn % 512, w) <==> w == vpn
  {
    assert Prefix(1, vpn) == vpn / 512 && Prefix(1, w) == w / 512;
  }

  // Storing into the leaf slot of page vpn.
  lemma StoreLeaf(s0: Snap, s: Snap, s': Snap, root: nat, vpn: nat, t: nat, e: u64)
    requires Walked(s0, s, root, vpn) && vpn < PAGES && (Present(e) || e == 0)
    requires TableAt(s.mem, root, 1, Prefix(1, vpn)) == Some(t)
    requires t in s.mem && s' == s.(mem := Replaced(s.mem, t, vpn % 512, e))
    ensures s'.Ok(root) && Grew(s0, s') && NewOnPath(s0, s', vpn)
    ensures Updated(s0, s', root, vpn, Meaning(1, e))
    ensures TableAt(s'.mem, root, 1, Prefix(1, vpn)) == Some(t)
  {
    TreeFacts(s.mem, root, s.nodes);
    TreeFacts(s'.mem, root, s'.nodes);
    assert s.nodes[t] == Node(1, Prefix(1, vpn));
    ReplaceKeepsTree(s.mem, root, s.nodes, t, vpn % 512, e);
    forall w: nat | w < PAGES
      ensures s'.View(root, w) == if w == vpn then Meaning(1, e) else s0.View(root, w)
    {
      LeafThrough(vpn, w);
      assert s.View(root, w) == s0.View(root, w);
    }
  }

  // One page mapped, or no frame left for its tables.
  ghost predicate MappedOne(s: Snap, s': Snap, root: nat, vpn: nat, e: nat, fault: bool) {
    && s'.Ok(root) && Grew(s, s') && NewOnPath(s, s', vpn) && e < TWO64
    && (!fault ==> Updated(s, s', root, vpn, Mapped(1, e)) && TableAt(s'.mem, root, 1, Prefix(1, vpn)).Some?)
    && (fault ==> SameView(s, s', root) && s'.free == {} && Missing(s', vpn))
  }

  // Storing a large entry into slot i of the level-3 table t, which links no table there.
  ghost predicate LargeAt(s0: Snap, s: Snap, root: nat, vpn: nat, e: u64) {
    forall w: nat | w < PAGES ::
      s.View(root, w) == if Prefix(2, w) == Prefix(2, vpn) then Mapped(3, e) else s0.View(root, w)
  }

  lemma LargeThrough(vpn: nat, w: nat)
    ensures Through(Node(3, Prefix(3, vpn)), Prefix(2, vpn) % 512, w) <==> Prefix(2, w) == Prefix(2, vpn)
  {
    assert Prefix(3, vpn) == Prefix(2, vpn) / 512 && Prefix(3, w) == Prefix(2, w) / 512;
  }

  lemma StoreLarge(s0: Snap, s: Snap, s': Snap, root: nat, vpn: nat, t: nat, e: u64)
    requires s.Ok(root) && SameView(s0, s, root) && vpn < PAGES
    requires TableAt(s.mem, root, 3, Prefix(3, vpn)) == Some(t)
    requires TableAt(s.mem, root, 2, Prefix(2, vpn)) == None && Present(e) && LargePage(e)
    requires t in s.mem && s' == s.(mem := Replaced(s.mem, t, Prefix(2, vpn) % 512, e))
    ensures s'.Ok(root) && LargeAt(s0, s', root, vpn, e)
  {
    var i := Prefix(2, vpn) % 512;
    TreeFacts(s.mem, root, s.nodes);
    TreeFacts(s'.mem, root, s'.nodes);
    assert s.nodes[t] == Node(3, Prefix(3, vpn));
    assert TableAt(s.mem, root, 2, Prefix(2, vpn)) == Follow(s.mem, t, 3, i);
    ReplaceKeepsTree(s.mem, root, s.nodes, t, i, e);
    forall w: nat | w < PAGES
      ensures s'.View(root, w) == if Prefix(2, w) == Prefix(2, vpn) then Mapped(3, e) else s0.View(root, w)
    {
      LargeThrough(vpn, w);
      assert s.View(root, w) == s0.View(root, w);
    }
  }

  lemma NoTableBelow(s: Snap, root: nat, vpn: nat, f: nat, s': Snap)
    requires s.Ok(root) && vpn < PAGES && f in s.free && root in s.mem
    requires TableAt(s.mem, root, 4, Prefix(4, vpn)) == Some(root)
    requires !Present(s.mem[root][Prefix(3, vpn) % 512]) && s'.Ok(root)
    requires f < 64 * BITMAP_WORDS && s' == WithTable(s, 4, vpn, root, f)
    ensures TableAt(s'.mem, root, 2, Prefix(2, vpn)) == None
  {
    TreeFacts(s.mem, root, s.nodes);
    TableFields(f);
    InstallTableAt(s.mem, root, s.nodes, root, Prefix(3, vpn) % 512, f, 4096 * f + 3, 2, Prefix(2, vpn));
  }

  // A walk that stopped early: no table and none wanted, or none to be had.
  ghost predicate Stopped(s: Snap, root: nat, vpn: nat, create: bool, r: PteResult) {
    && (r.Null? ==> !create && s.View(root, vpn) == Unmapped && TableAt(s.mem, root, 1, Prefix(1, vpn)) == None)
    && (r.Fault? ==> create && s.free == {} && Missing(s, vpn))
  }

  // NULL from the online walker means, when tables were to be created, that none could be had.
  function Refusal(create: bool, r: PteResult): PteResult { if create && r.Null? then Fault else r }

  // Some table on the way to page vpn has no place yet.
  ghost predicate Missing(s: Snap, vpn: nat) {
    exists l: nat :: 1 <= l <= 3 && Node(l, Prefix(l, vpn)) !in s.nodes.Values
  }

  lemma NoTable(s: Snap, root: nat, l: nat, vpn: nat)
    requires s.Ok(root) && 1 <= l <= 3 && TableAt(s.mem, root, l, Prefix(l, vpn)) == None
    ensures Missing(s, vpn)
  {
    TreeFacts(s.mem, root, s.nodes);
    assert Node(l, Prefix(l, vpn)) !in s.nodes.Values;
  }

  // All tables on the way to page vpn have their places.
  ghost predicate PathBuilt(s: Snap, vpn: nat) {
    forall l: nat | 1 <= l <= 3 :: Node(l, Prefix(l, vpn)) in s.nodes.Values
  }

  // A leaf table's place comes with those above it.
  lemma PathPlaced(s: Snap, root: nat, vpn: nat)
    requires s.Ok(root) && TableAt(s.mem, root, 1, Prefix(1, vpn)).Some?
    ensures PathBuilt(s, vpn)
  {
    assert TableAt(s.mem, root, 2, Prefix(2, vpn)).Some?;
    assert TableAt(s.mem, root, 3, Prefix(3, vpn)).Some?;
    forall l: nat | 1 <= l <= 3 ensures Node(l, Prefix(l, vpn)) in s.nodes.Values {
      assert TableAt(s.mem, root, l, Prefix(l, vpn)).Some?;
      TableIn(s, root, l, Prefix(l, vpn), TableAt(s.mem, root, l, Prefix(l, vpn)).value);
    }
  }

  // One round of the walk's loop at table t, slot i: what it does to memory and bitmap, and
  // the frame u of the next table.
  ghost predicate Stepped(s: Snap, s': Snap, t: nat, i: nat, create: bool, u: nat, r: PteResult)
    requires t in s.mem && i < 512
  {
    if Present(s.mem[t][i]) then s' == s && r.Pte? && u == Target(s.mem[t][i])
    else if !create then s' == s && r.Null?
    else if s.free == {} then s' == s && r.Fault?
    else (
      && r.Pte? && u in s.free && u < 64 * BITMAP_WORDS
      && s' == s.(mem := Installed(s.mem, t, i, u, 4096 * u + 3), free := s.free - {u}))
  }

  function Placed(s: Snap, s': Snap, u: nat, l: nat, vpn: nat): Snap {
    if s'.free == s.free then s' else s'.(nodes := s.nodes[u := Node(l, Prefix(l, vpn))])
  }

  lemma StepKeepsWalk(s0: Snap, s: Snap, s': Snap, root: nat, l: nat, vpn: nat, t: nat,
                      create: bool, u: nat, r: PteResult)
    requires Walked(s0, s, root, vpn) && 2 <= l <= 4 && vpn < PAGES && s0.NotLarge(root, vpn)
    requires TableAt(s.mem, root, l, Prefix(l, vpn)) == Some(t)
    requires t in s.mem && Stepped(s, s', t, Prefix(l - 1, vpn) % 512, create, u, r)
    ensures Walked(s0, Placed(s, s', u, l - 1, vpn), root, vpn)
    ensures r.Pte? ==> TableAt(s'.mem, root, l - 1, Prefix(l - 1, vpn)) == Some(u)
    ensures Stopped(s', root, vpn, create, r)
  {
    assert s.View(root, vpn) == s0.View(root, vpn);
    FollowLink(s, root, l, vpn, t);
    if r.Null? { NoneBelow(s.mem, root, l - 1, 1, vpn); }
    if r.Pte? && !Present(s.mem[t][Prefix(l - 1, vpn) % 512]) {
      InstallFree(s0, s, root, l, vpn, t, u, Placed(s, s', u, l - 1, vpn));
    }
    if r.Fault? {
      TableIn(s, root, l, Prefix(l, vpn), t);
      NoTable(s, root, l - 1, vpn);
    }
  }
}
