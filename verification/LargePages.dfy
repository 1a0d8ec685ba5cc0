/** What the walkers do below a large page, whose PS bit they never test. */
module LargePages {
  import opened Words
  import opened PageTable
  import opened Entries
  import opened Pmm
  import opened Walks
  import opened Counting
  import opened Plan
  import opened Online
  import opened LeastFrames
  import opened PageRuns
  import opened PageAccounts

  // The leaf table that the walkers' loop arrives at from table t, if every entry is present.
  function Arrival(mem: Memory, t: nat, level: nat, vpn: nat): Option<nat>
    requires 1 <= level <= 4
    decreases level, vpn
  {
    if t !in mem then None
    else if level == 1 then Some(t)
    else
      var e := mem[t][Prefix(level - 1, vpn) % 512];
      if Present(e) then Arrival(mem, Target(e), level - 1, vpn) else None
  }

  // Where the walkers arrive from table t, beside what the processor's walk gives.
  ghost predicate Arrives(s: Snap, root: nat, l: nat, vpn: nat, t: nat)
    requires 1 <= l <= 4
  {
    match Walk(s.mem, t, l, vpn)
    case Mapped(k, e) =>
      if 2 <= k <= 3 && k <= l
      then Arrival(s.mem, t, l, vpn) == Arrival(s.mem, Target(e), k - 1, vpn)
           && TableAt(s.mem, root, 1, Prefix(1, vpn)) == None
      else k == 1 && Arrival(s.mem, t, l, vpn) == TableAt(s.mem, root, 1, Prefix(1, vpn))
    case _ => Arrival(s.mem, t, l, vpn) == TableAt(s.mem, root, 1, Prefix(1, vpn))
  }

  lemma {:induction false} ArrivalFrom(s: Snap, root: nat, l: nat, vpn: nat, t: nat)
    requires s.Ok(root) && 1 <= l <= 4 && vpn < PAGES && TableAt(s.mem, root, l, Prefix(l, vpn)) == Some(t)
    ensures Arrives(s, root, l, vpn, t)
    decreases l
  {
    TableIn(s, root, l, Prefix(l, vpn), t);
    if l > 1 {
      var e := s.mem[t][Prefix(l - 1, vpn) % 512];
      TableBelow(s.mem, root, l, vpn, t);
      if Links(l, e) {
        ArrivalFrom(s, root, l - 1, vpn, Target(e));
      } else {
        NoneBelow(s.mem, root, l - 1, 1, vpn);
      }
    }
  }

  lemma TableBelow(mem: Memory, root: nat, l: nat, vpn: nat, t: nat)
    requires 2 <= l <= 4 && TableAt(mem, root, l, Prefix(l, vpn)) == Some(t)
    ensures TableAt(mem, root, l - 1, Prefix(l - 1, vpn)) == Follow(mem, t, l, Prefix(l - 1, vpn) % 512)
  {
  }

  // The walkers arrive at the processor's leaf table for every page that is not in a large
  // page; inside one they go on into the page itself, as if its contents were tables.
  lemma WalkersArrive(s: Snap, root: nat, vpn: nat)
    requires s.Ok(root) && vpn < PAGES
    ensures s.NotLarge(root, vpn) ==> Arrival(s.mem, root, 4, vpn) == TableAt(s.mem, root, 1, Prefix(1, vpn))
    ensures !s.NotLarge(root, vpn) ==>
      var tr := s.View(root, vpn);
      && TableAt(s.mem, root, 1, Prefix(1, vpn)) == None && 2 <= tr.level <= 3
      && Arrival(s.mem, root, 4, vpn) == Arrival(s.mem, Target(tr.entry), tr.level - 1, vpn)
  {
    RootAt(s.mem, root, vpn);
    ArrivalFrom(s, root, 4, vpn, root);
  }

  // ---- What walking on into a large page does ----

  // The first frame of the GiB around page vpn of the direct map, which the walkers take for a
  // level-2 table, and the word they find there.
  function BaseOf(vpn: nat): nat
    requires Prefix(2, vpn) >= 0x2_0000
  {
    0x4_0000 * (Prefix(2, vpn) - 0x2_0000)
  }

  function WordOf(s: Snap, vpn: nat): u64
    requires Prefix(2, vpn) >= 0x2_0000 && BaseOf(vpn) in s.mem
  {
    s.mem[BaseOf(vpn)][Prefix(1, vpn) % 512]
  }

  // A frame that can be read and written through the direct map and is no table of the tree:
  // someone's data, or a free frame.
  ghost predicate Alien(s: Snap, n: nat, t: nat) { t !in s.nodes && t in s.mem && t < 0x4_0000 * n }

  // The frames that the walk for a page of the direct map reaches are no tables of the tree.
  ghost predicate DataPath(s: Snap, n: nat, vpn: nat) {
    && InHhdm(n, vpn) && Alien(s, n, BaseOf(vpn))
    && (Present(WordOf(s, vpn)) ==> Alien(s, n, Target(WordOf(s, vpn))))
  }

  // No translation has changed and no table was touched; frames may have been taken and frames
  // that are no tables overwritten.
  ghost predicate Strayed(s0: Snap, s: Snap, root: nat) {
    && s.Ok(root) && s.nodes == s0.nodes && s.beyond == s0.beyond && s.free <= s0.free
    && s.mem.Keys == s0.mem.Keys && SameView(s0, s, root)
    && forall t | t in s.nodes && t in s.mem :: s.mem[t] == s0.mem[t]
  }

  // The large entry that covers page vpn.
  lemma LargeEntry(s: Snap, root: nat, n: nat, vpn: nat, l: nat, t: nat)
    requires Running(s, root, n) && InHhdm(n, vpn) && vpn < PAGES && 3 <= l <= 4
    requires TableAt(s.mem, root, l, Prefix(l, vpn)) == Some(t)
    ensures t in s.mem && t in s.nodes
    ensures var e := s.mem[t][Prefix(l - 1, vpn) % 512];
      Present(e) &&
      if l == 4 then TableAt(s.mem, root, 3, Prefix(3, vpn)) == Some(Target(e)) else Target(e) == BaseOf(vpn)
  {
    assert s.View(root, vpn) == HhdmView(n, vpn);
    HugeFields(Prefix(2, vpn) - 0x2_0000, GibEntry(Prefix(2, vpn) - 0x2_0000));
    TableIn(s, root, l, Prefix(l, vpn), t);
    WalkFrom(s.mem, root, l, vpn, t);
    var e := s.mem[t][Prefix(l - 1, vpn) % 512];
    if Links(l, e) { WalkLevel(s.mem, Target(e), l - 1, vpn); }
    if l == 4 { TableBelow(s.mem, root, 4, vpn, t); }
  }

  lemma {:induction false} WalkLevel(mem: Memory, t: nat, l: nat, vpn: nat)
    requires 1 <= l <= 4
    ensures Walk(mem, t, l, vpn).Mapped? ==> Walk(mem, t, l, vpn).level <= l
    decreases l
  {
    if t in mem && Links(l, mem[t][Prefix(l - 1, vpn) % 512]) {
      WalkLevel(mem, Target(mem[t][Prefix(l - 1, vpn) % 512]), l - 1, vpn);
    }
  }

  // One round of the walk at a frame that is no table.
  lemma StepStrays(s: Snap, s': Snap, root: nat, n: nat, t: nat, i: nat, create: bool, u: nat, r: PteResult)
    requires Running(s, root, n) && Alien(s, n, t) && i < 512 && Stepped(s, s', t, i, create, u, r)
    ensures Strayed(s, s', root) && Running(s', root, n)
    ensures r.Pte? && !Present(s.mem[t][i]) ==> Alien(s', n, u)
  {
    if s' != s {
      var s1 := s.(free := s.free - {u});
      TakeFrame(s, s1, root, n, u);
      var s2 := s1.(mem := s1.mem[u := ZERO_TABLE]);
      StrayStore(s1, s2, root, n, u, ZERO_TABLE);
      StrayStore(s2, s', root, n, t, s'.mem[t]);
      assert s'.mem == s2.mem[t := s'.mem[t]];
      StrayedTwice(s1, s2, s', root);
    }
  }

  // A store to a frame that is no table.
  lemma StrayStore(s: Snap, s': Snap, root: nat, n: nat, t: nat, page: Table)
    requires Running(s, root, n) && Alien(s, n, t) && s' == s.(mem := s.mem[t := page])
    ensures Strayed(s, s', root) && Running(s', root, n)
  {
    StoreKeepsView(s, s', root, t, page);
    SameDirectMap(s, s', root, n);
    assert s'.mem.Keys == s.mem.Keys;
  }

  lemma StrayedTwice(s: Snap, s1: Snap, s2: Snap, root: nat)
    requires Strayed(s, s1, root) && Strayed(s1, s2, root)
    ensures Strayed(s, s2, root)
  {
    forall w: nat | w < PAGES ensures s2.View(root, w) == s.View(root, w) {
      assert s2.View(root, w) == s1.View(root, w);
    }
    forall t | t in s2.nodes && t in s2.mem ensures s2.mem[t] == s.mem[t] { assert t in s1.mem; }
  }

  // ---- The online walk, outside and inside the direct map ----

  // What the walk needs beforehand.
  ghost predicate CanWalk(s: Snap, root: nat, n: nat, vpn: nat, create: bool) {
    && vpn < PAGES && Running(s, root, n)
    && if InHhdm(n, vpn) then DataPath(s, n, vpn) && (create ==> s.HasNext())
       else create ==> Affords(s, PathNodes(vpn))
  }

  // Where the walk stands before level l, or how it has stopped.
  ghost predicate Walking(s0: Snap, s: Snap, root: nat, n: nat, l: nat, vpn: nat, create: bool, t: nat, r: PteResult)
    requires 1 <= l <= 4
  {
    && !r.Fault? && (!create ==> s.mem == s0.mem && s.nodes == s0.nodes)
    && if InHhdm(n, vpn) then InLarge(s0, s, root, l, vpn, create, t, r) else InTree(s0, s, root, l, vpn, create, t, r)
  }

  ghost predicate InTree(s0: Snap, s: Snap, root: nat, l: nat, vpn: nat, create: bool, t: nat, r: PteResult)
    requires 1 <= l <= 4
  {
    && Walked(s0, s, root, vpn) && Stopped(s, root, vpn, create, Refusal(create, r))
    && (r.Pte? ==> TableAt(s.mem, root, l, Prefix(l, vpn)) == Some(t))
  }

  ghost predicate InLarge(s0: Snap, s: Snap, root: nat, l: nat, vpn: nat, create: bool, t: nat, r: PteResult)
    requires 1 <= l <= 4 && Prefix(2, vpn) >= 0x2_0000
  {
    if l == 1 then
      BaseOf(vpn) in s0.mem && Stepped(s0, s, BaseOf(vpn), Prefix(1, vpn) % 512, create, t, Refusal(create, r))
    else
      s == s0 && r.Pte? && if l == 2 then t == BaseOf(vpn) else TableAt(s.mem, root, l, Prefix(l, vpn)) == Some(t)
  }

  lemma WalkBegins(s: Snap, root: nat, n: nat, vpn: nat, create: bool, r: PteResult)
    requires CanWalk(s, root, n, vpn, create) && r.Pte?
    ensures Walking(s, s, root, n, 4, vpn, create, root, r)
  {
    WalkStart(s, root, vpn);
  }

  // The frame to be read next can be, and there is a frame for a table if one is missing.
  lemma BeforeStep(s0: Snap, s: Snap, root: nat, n: nat, l: nat, vpn: nat, create: bool, t: nat, r: PteResult)
    requires CanWalk(s0, root, n, vpn, create) && 2 <= l <= 4
    requires Walking(s0, s, root, n, l, vpn, create, t, r) && r.Pte?
    ensures Running(s, root, n) && t in s.mem && t < 0x4_0000 * n
    ensures create && !Present(s.mem[t][Prefix(l - 1, vpn) % 512]) ==> s.HasNext()
  {
    if InHhdm(n, vpn) {
      if l > 2 { LargeEntry(s, root, n, vpn, l, t); }
    } else {
      WalkedRunning(s0, s, root, n, vpn);
      TableIn(s, root, l, Prefix(l, vpn), t);
      if create { StepAffords(s0, s, root, l, vpn, t); }
    }
  }

  // Where the tables are after a round: a new table in the tree has its place there, one hung
  // into a large page has none.
  function After(s: Snap, s': Snap, n: nat, u: nat, l: nat, vpn: nat): Snap {
    if InHhdm(n, vpn) then s' else Placed(s, s', u, l, vpn)
  }

  lemma AfterStep(s0: Snap, s: Snap, s': Snap, root: nat, n: nat, l: nat, vpn: nat, create: bool, t: nat,
                  r: PteResult, u: nat, r': PteResult)
    requires CanWalk(s0, root, n, vpn, create) && 2 <= l <= 4 && !r'.Fault?
    requires Walking(s0, s, root, n, l, vpn, create, t, r) && r.Pte? && t in s.mem
    requires Stepped(s, s', t, Prefix(l - 1, vpn) % 512, create, u, Refusal(create, r'))
    requires !create ==> s'.mem == s.mem
    ensures Walking(s0, After(s, s', n, u, l - 1, vpn), root, n, l - 1, vpn, create, u, r')
  {
    if InHhdm(n, vpn) {
      if l > 2 { LargeEntry(s, root, n, vpn, l, t); }
    } else {
      assert s0.NotLarge(root, vpn);
      StepKeepsWalk(s0, s, s', root, l, vpn, t, create, u, Refusal(create, r'));
    }
  }

  // The leaf slot arrived at can be read and written.
  lemma AtLeaf(s0: Snap, s: Snap, root: nat, n: nat, vpn: nat, create: bool, t: nat, r: PteResult)
    requires CanWalk(s0, root, n, vpn, create) && Walking(s0, s, root, n, 1, vpn, create, t, r)
    ensures Running(s, root, n)
    ensures r.Pte? ==> t in s.mem && t < 0x4_0000 * n
    ensures InHhdm(n, vpn) ==> Strayed(s0, s, root) && (r.Pte? ==> Alien(s, n, t)) && TookFor(s0, s, vpn, create)
    ensures InHhdm(n, vpn) ==> (r.Pte? <==> Present(WordOf(s0, vpn)) || (create && s0.free != {}))
    ensures !InHhdm(n, vpn) && create ==> (r.Pte? <==> CanMap(s0, vpn))
  {
    if InHhdm(n, vpn) {
      StepStrays(s0, s, root, n, BaseOf(vpn), Prefix(1, vpn) % 512, create, t, Refusal(create, r));
    } else {
      WalkedRunning(s0, s, root, n, vpn);
      if r.Pte? { TableIn(s, root, 1, Prefix(1, vpn), t); }
      if create { PathIff(s0, s, root, vpn, r.Pte?); }
    }
  }

  // A walk inside a large page takes a frame, the next one, exactly where it finds no entry.
  ghost predicate TookFor(s0: Snap, s: Snap, vpn: nat, create: bool)
    requires Prefix(2, vpn) >= 0x2_0000 && BaseOf(vpn) in s0.mem
  {
    if Present(WordOf(s0, vpn)) || !create || s0.free == {} then s.free == s0.free
    else exists f :: f in s0.free && s.free == s0.free - {f}
  }

  // ---- Mapping a page, outside and inside ----

  ghost predicate Mapping(s0: Snap, s: Snap, root: nat, n: nat, vpn: nat, e: nat, ok: bool) {
    if InHhdm(n, vpn) then
      && Strayed(s0, s, root) && BaseOf(vpn) in s0.mem && TookFor(s0, s, vpn, true)
      && (ok <==> Present(WordOf(s0, vpn)) || s0.free != {})
    else MappedOne(s0, s, root, vpn, e, !ok) && (ok <==> CanMap(s0, vpn))
  }

  // A mapping that reports success has mapped the page if and only if the page is not in the
  // direct map.
  lemma MapsIffSmall(s0: Snap, s: Snap, root: nat, n: nat, vpn: nat, e: u64)
    requires Running(s0, root, n) && vpn < PAGES && Mapping(s0, s, root, n, vpn, e, true)
    ensures Updated(s0, s, root, vpn, Mapped(1, e)) <==> s0.NotLarge(root, vpn)
    ensures s0.NotLarge(root, vpn) <==> !InHhdm(n, vpn)
  {
    if InHhdm(n, vpn) {
      assert s0.View(root, vpn) == HhdmView(n, vpn) && s.View(root, vpn) == s0.View(root, vpn);
    }
  }

  lemma MapInside(s0: Snap, s: Snap, s': Snap, root: nat, n: nat, vpn: nat, t: nat, r: PteResult, e: u64)
    requires CanWalk(s0, root, n, vpn, true) && InHhdm(n, vpn) && Walking(s0, s, root, n, 1, vpn, true, t, r)
    requires if r.Pte? then t in s.mem && s' == s.(mem := Replaced(s.mem, t, vpn % 512, e)) else s' == s
    ensures Mapping(s0, s', root, n, vpn, e, r.Pte?) && Running(s', root, n)
  {
    AtLeaf(s0, s, root, n, vpn, true, t, r);
    if r.Pte? {
      StrayStore(s, s', root, n, t, s.mem[t][vpn % 512 := e]);
      StrayedTwice(s0, s, s', root);
    }
  }

  lemma MapOutside(s0: Snap, s: Snap, s': Snap, root: nat, n: nat, vpn: nat, t: nat, r: PteResult, e: u64)
    requires CanWalk(s0, root, n, vpn, true) && !InHhdm(n, vpn) && Walking(s0, s, root, n, 1, vpn, true, t, r)
    requires Present(e)
    requires if r.Pte? then t in s.mem && s' == s.(mem := Replaced(s.mem, t, vpn % 512, e)) else s' == s
    ensures Mapping(s0, s', root, n, vpn, e, r.Pte?) && Running(s', root, n)
  {
    AtLeaf(s0, s, root, n, vpn, true, t, r);
    if r.Pte? {
      StoreLeaf(s0, s, s', root, vpn, t, e);
      UpdatedRunning(s0, s', root, n, vpn, Mapped(1, e));
    }
  }

  lemma MapEnds(s0: Snap, s: Snap, s': Snap, root: nat, n: nat, vpn: nat, t: nat, r: PteResult, e: u64)
    requires CanWalk(s0, root, n, vpn, true) && Walking(s0, s, root, n, 1, vpn, true, t, r) && Present(e)
    requires if r.Pte? then t in s.mem && s' == s.(mem := Replaced(s.mem, t, vpn % 512, e)) else s' == s
    ensures Mapping(s0, s', root, n, vpn, e, r.Pte?) && Running(s', root, n)
  {
    if InHhdm(n, vpn) {
      MapInside(s0, s, s', root, n, vpn, t, r, e);
    } else {
      MapOutside(s0, s, s', root, n, vpn, t, r, e);
    }
  }

  // ---- Unmapping a page, outside and inside ----

  // The word that unmapping reads and clears.
  ghost predicate Unmapping(s0: Snap, s: Snap, root: nat, n: nat, vpn: nat, ok: bool, paddr: nat) {
    if InHhdm(n, vpn) then
      && Strayed(s0, s, root) && s.free == s0.free && BaseOf(vpn) in s0.mem
      && (ok <==> Present(WordOf(s0, vpn)))
      && (ok ==> Target(WordOf(s0, vpn)) in s0.mem)
      && (ok ==> paddr == 4096 * Target(s0.mem[Target(WordOf(s0, vpn))][vpn % 512]))
    else
      && Unlinked(s0, s, root, vpn)
      && (ok ==> paddr == 4096 * LeafTarget(s0.View(root, vpn)))
      && (!ok ==> s.mem == s0.mem && s0.View(root, vpn) == Unmapped)
      && (ok <==> TableAt(s0.mem, root, 1, Prefix(1, vpn)).Some?)
  }

  lemma UnmapEnds(s0: Snap, s: Snap, s': Snap, root: nat, n: nat, vpn: nat, t: nat, r: PteResult, paddr: nat)
    requires CanWalk(s0, root, n, vpn, false) && Walking(s0, s, root, n, 1, vpn, false, t, r)
    requires r.Pte? ==> t in s.mem && s' == s.(mem := Replaced(s.mem, t, vpn % 512, 0))
    requires r.Pte? ==> paddr == 4096 * Target(s.mem[t][vpn % 512])
    requires !r.Pte? ==> s' == s
    ensures Unmapping(s0, s', root, n, vpn, r.Pte?, paddr) && Running(s', root, n)
  {
    AtLeaf(s0, s, root, n, vpn, false, t, r);
    if InHhdm(n, vpn) {
      if r.Pte? {
        StrayStore(s, s', root, n, t, s.mem[t][vpn % 512 := 0]);
        StrayedTwice(s0, s, s', root);
      }
    } else if r.Pte? {
      LeafWord(s, root, vpn, t);
      StoreLeaf(s0, s, s', root, vpn, t, 0);
      UpdatedRunning(s0, s', root, n, vpn, Unmapped);
      assert s.View(root, vpn) == s0.View(root, vpn);
    } else {
      NoLeafTable(s0, s, root, vpn);
    }
  }

  // Inside the direct map a walk stops only where the leaf table is missing.
  lemma StoppedEarly(s0: Snap, s: Snap, root: nat, n: nat, l: nat, vpn: nat, create: bool, t: nat, r: PteResult)
    requires 1 <= l <= 4 && !r.Pte? && Walking(s0, s, root, n, l, vpn, create, t, r)
    ensures Walking(s0, s, root, n, 1, vpn, create, t, r)
  {
  }

  // ---- Allocating a page, outside and inside ----

  // There is a frame for the page and one more, or none from the limit on.
  ghost predicate AffordsTwo(s: Snap) { s.beyond.frames == {} || |s.free| >= 2 }

  ghost predicate Allocating(s0: Snap, s: Snap, root: nat, n: nat, vpn: nat, e: u64, f: nat, ok: bool) {
    if InHhdm(n, vpn) then
      if s0.free == {} then !ok && s == s0
      else IsLeast(f, s0.free) && Mapping(Without(s0, f), s, root, n, vpn, e, ok)
    else Allocated(s0, s, root, vpn, e, f, ok) && (ok <==> |s0.free| > |Need(s0, vpn)|)
  }

  // When the data frame goes astray: in the direct map always.
  ghost predicate Losing(s0: Snap, s: Snap, root: nat, n: nat, vpn: nat, f: nat) {
    if InHhdm(n, vpn) then s0.free != {} && Exclusive(s0, root, n) ==> Astray(s, root, f)
    else LosesOnlyThen(s0, s, root, n, vpn, f)
  }

  lemma AfterFrame(s: Snap, root: nat, n: nat, f: nat, vpn: nat)
    requires Running(s, root, n) && f in s.free && vpn < PAGES
    requires if InHhdm(n, vpn) then DataPath(s, n, vpn) && AffordsTwo(s) else AffordsAlloc(s, vpn)
    ensures CanWalk(Without(s, f), root, n, vpn, true)
  {
    TakeFrame(s, Without(s, f), root, n, f);
    if InHhdm(n, vpn) {
      assert |s.free - {f}| == |s.free| - 1;
    } else {
      AfterDataFrame(s, f, vpn);
    }
  }

  lemma AllocEnds(s0: Snap, s: Snap, root: nat, n: nat, vpn: nat, e: u64, f: nat, flags: u64, ok: bool)
    requires Running(s0, root, n) && vpn < PAGES && LeafFor(e, f, flags)
    requires if s0.free == {} then !ok && s == s0
             else IsLeast(f, s0.free) && Mapping(Without(s0, f), s, root, n, vpn, e, ok)
    ensures Allocating(s0, s, root, n, vpn, e, f, ok)
    ensures And(flags, PAGE_ADDR_MASK) == 0 ==> Losing(s0, s, root, n, vpn, f)
  {
    if InHhdm(n, vpn) {
      if s0.free != {} && Exclusive(s0, root, n) { LostInside(s0, s, root, n, vpn, e, f, ok); }
    } else {
      AllocReport(s0, s, root, n, vpn, e, f, flags, ok);
    }
  }

  lemma LostInside(s0: Snap, s: Snap, root: nat, n: nat, vpn: nat, e: u64, f: nat, ok: bool)
    requires Running(s0, root, n) && Exclusive(s0, root, n) && f in s0.free && InHhdm(n, vpn)
    requires Mapping(Without(s0, f), s, root, n, vpn, e, ok)
    ensures Astray(s, root, f)
  {
    forall w: nat | w < PAGES ensures LeafFrame(s, root, w) != Some(f) {
      assert s.View(root, w) == Without(s0, f).View(root, w);
      NotFree(s0, root, n, f, w);
    }
  }

  // A running system in which mapping the first page of the direct map reports success, takes
  // the last free frame, writes a table entry into frame 0, and maps nothing.
  lemma StrayState() returns (s: Snap, root: nat)
    ensures Running(s, root, 1) && CanWalk(s, root, 1, LOWER_HALF, true) && |s.free| == 1
    ensures forall s', e, ok | Mapping(s, s', root, 1, LOWER_HALF, e, ok) ::
      ok && s'.free == {} && s'.View(root, LOWER_HALF) == s.View(root, LOWER_HALF) == Mapped(3, GibEntry(0))
  {
    s, root := SmallState();
    HhdmPage(0, 0);
    PrefixValues(LOWER_HALF);
    assert BaseOf(LOWER_HALF) == 0 && WordOf(s, LOWER_HALF) == 0;
    assert s.View(root, LOWER_HALF) == HhdmView(1, LOWER_HALF);
    forall s', e, ok | Mapping(s, s', root, 1, LOWER_HALF, e, ok)
      ensures ok && s'.free == {} && s'.View(root, LOWER_HALF) == Mapped(3, GibEntry(0))
    {
      OneLeft(s, s');
    }
  }

  lemma OneLeft(s: Snap, s': Snap)
    requires |s.free| == 1 && exists f :: f in s.free && s'.free == s.free - {f}
    ensures s'.free == {}
  {
    var f :| f in s.free && s'.free == s.free - {f};
    assert |s.free - {f}| == 0;
  }
}
