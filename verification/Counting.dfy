/** Counting tables against free frames: when a walk that adds tables can be finished. */
module Counting {
  import opened PageTable
  import opened Walks

  // The tables on the way to page w, and those of them without a place.
  function PathNodes(w: nat): set<Node> { {Node(1, Prefix(1, w)), Node(2, Prefix(2, w)), Node(3, Prefix(3, w))} }

  function Need(s: Snap, w: nat): set<Node> { PathNodes(w) - s.nodes.Values }

  // There are frames for all these tables, or none from the limit on that could be taken
  // instead of them.
  ghost predicate Enough(s: Snap, ns: set<Node>) { s.beyond.frames == {} || |s.free| >= |ns - s.nodes.Values| }

  // The same behind a counter, for the walks that only carry it (see PageTable.Behind).
  ghost predicate EnoughBehind(n: nat, s: Snap, ns: set<Node>)
    decreases n, |ns|
  {
    if n > 0 then EnoughBehind(n - 1, s, ns) else Enough(s, ns)
  }

  ghost predicate Affords(s: Snap, ns: set<Node>) { EnoughBehind(4, s, ns) }

  lemma OpenAffords(s: Snap, ns: set<Node>)
    ensures Affords(s, ns) <==> Enough(s, ns)
  {
    assert EnoughBehind(1, s, ns) <==> Enough(s, ns);
    assert EnoughBehind(3, s, ns) <==> EnoughBehind(1, s, ns);
  }

  ghost predicate Injective(m: map<nat, Node>) { forall t, u | t in m && u in m && m[t] == m[u] :: t == u }

  lemma {:induction false} ValuesCount(m: map<nat, Node>)
    requires Injective(m)
    ensures |m.Values| == |m.Keys|
    decreases |m|
  {
    if m.Keys != {} {
      var t :| t in m.Keys;
      var r := m - {t};
      assert r.Keys == m.Keys - {t};
      forall n ensures n in r.Values <==> n in m.Values && n != m[t] {
        if n in m.Values && n != m[t] {
          var u :| u in m && m[u] == n;
          assert r[u] == n;
        }
      }
      assert r.Values == m.Values - {m[t]};
      ValuesCount(r);
    }
  }

  lemma OnePlaceEach(s: Snap, root: nat)
    requires s.Ok(root)
    ensures Injective(s.nodes) && |s.nodes.Values| == |s.nodes.Keys|
  {
    TreeFacts(s.mem, root, s.nodes);
    assert Injective(s.nodes);
    ValuesCount(s.nodes);
  }

  lemma Subset(xs: set<Node>, ys: set<Node>)
    requires xs <= ys
    ensures |xs| <= |ys| && (xs != ys ==> |xs| < |ys|)
  {
    assert ys == xs + (ys - xs);
  }

  lemma PlacedSoFar(s: Snap, s': Snap, vpn: nat)
    requires Grew(s, s') && NewOnPath(s, s', vpn)
    ensures s.nodes.Values <= s'.nodes.Values <= s.nodes.Values + PathNodes(vpn)
  {
    forall n | n in s.nodes.Values ensures n in s'.nodes.Values {
      var t :| t in s.nodes && s.nodes[t] == n;
      assert s'.nodes[t] == n;
    }
    forall n | n in s'.nodes.Values ensures n in s.nodes.Values + PathNodes(vpn) {
      var t :| t in s'.nodes && s'.nodes[t] == n;
      if t in s.nodes { assert s.nodes[t] == n; }
    }
  }

  lemma ValuesGrow(s0: Snap, s: Snap)
    requires Grew(s0, s)
    ensures s0.nodes.Values <= s.nodes.Values
  {
    forall n | n in s0.nodes.Values ensures n in s.nodes.Values {
      var t :| t in s0.nodes && s0.nodes[t] == n;
      assert s.nodes[t] == n;
    }
  }

  lemma FramesTaken(free0: set<nat>, free: set<nat>, ts0: set<nat>, ts: set<nat>)
    requires ts0 <= ts && ts - ts0 <= free0 && free == free0 - (ts - ts0)
    ensures |free| + |ts| == |free0| + |ts0|
  {
    assert free0 == free + (ts - ts0);
    assert ts == ts0 + (ts - ts0);
  }

  lemma PlacesFilled(ns: set<Node>, vs0: set<Node>, vs: set<Node>)
    requires vs0 <= vs <= vs0 + ns
    ensures |ns - vs0| + |vs0| == |ns - vs| + |vs|
  {
    assert ns - vs0 == (ns - vs) + (vs - vs0);
    assert vs == vs0 + (vs - vs0);
  }

  // Each table added takes one frame and fills one wanted place.
  lemma Balance(s0: Snap, s: Snap, root: nat, ns: set<Node>)
    requires s0.Ok(root) && s.Ok(root) && Grew(s0, s) && s.nodes.Values <= s0.nodes.Values + ns
    ensures |s.free| + |ns - s0.nodes.Values| == |s0.free| + |ns - s.nodes.Values|
  {
    OnePlaceEach(s0, root);
    OnePlaceEach(s, root);
    ValuesGrow(s0, s);
    FramesTaken(s0.free, s.free, s0.nodes.Keys, s.nodes.Keys);
    PlacesFilled(ns, s0.nodes.Values, s.nodes.Values);
  }

  lemma AffordsOn(s0: Snap, s: Snap, root: nat, ns: set<Node>)
    requires s0.Ok(root) && s.Ok(root) && Grew(s0, s) && s.nodes.Values <= s0.nodes.Values + ns
    requires Affords(s0, ns)
    ensures Affords(s, ns)
  {
    OpenAffords(s0, ns);
    OpenAffords(s, ns);
    Balance(s0, s, root, ns);
  }

  lemma AffordsFewer(s: Snap, ns: set<Node>, ms: set<Node>)
    requires ns <= ms && Affords(s, ms)
    ensures Affords(s, ns)
  {
    OpenAffords(s, ns);
    OpenAffords(s, ms);
    Subset(ns - s.nodes.Values, ms - s.nodes.Values);
  }

  lemma AffordsNext(s: Snap, ns: set<Node>, n: Node)
    requires n in ns && n !in s.nodes.Values && Affords(s, ns)
    ensures s.HasNext()
  {
    OpenAffords(s, ns);
    assert n in ns - s.nodes.Values;
  }

  lemma MissingNeed(s: Snap, w: nat)
    ensures Missing(s, w) <==> Need(s, w) != {}
    ensures PathBuilt(s, w) <==> Need(s, w) == {}
  {
    if Missing(s, w) {
      var l: nat :| 1 <= l <= 3 && Node(l, Prefix(l, w)) !in s.nodes.Values;
      assert Node(l, Prefix(l, w)) in Need(s, w);
    }
    if Need(s, w) != {} {
      var n :| n in Need(s, w);
      assert Node(n.level, Prefix(n.level, w)) !in s.nodes.Values;
    }
  }

  // A walk on its way to page w affords what it still needs.
  lemma WalkAffords(s0: Snap, s: Snap, root: nat, w: nat)
    requires s0.Ok(root) && Walked(s0, s, root, w) && Affords(s0, PathNodes(w))
    ensures Affords(s, PathNodes(w)) && (Missing(s, w) ==> s.HasNext())
  {
    PlacedSoFar(s0, s, w);
    AffordsOn(s0, s, root, PathNodes(w));
    MissingNeed(s, w);
    if Missing(s, w) {
      var n :| n in Need(s, w);
      AffordsNext(s, PathNodes(w), n);
    }
  }

  // Where the walk finds no table there is a frame for one.
  lemma StepAffords(s0: Snap, s: Snap, root: nat, l: nat, w: nat, t: nat)
    requires s0.Ok(root) && Walked(s0, s, root, w) && Affords(s0, PathNodes(w)) && 2 <= l <= 4 && w < PAGES
    requires TableAt(s.mem, root, l, Prefix(l, w)) == Some(t)
    ensures t in s.mem && (!Present(s.mem[t][Prefix(l - 1, w) % 512]) ==> s.HasNext())
  {
    TableIn(s, root, l, Prefix(l, w), t);
    WalkAffords(s0, s, root, w);
    if !Present(s.mem[t][Prefix(l - 1, w) % 512]) { NoTable(s, root, l - 1, w); }
  }

  // There is a free frame for every table that page w still needs. Behind a counter as well.
  ghost predicate CanMapBehind(n: nat, s: Snap, w: nat)
    decreases n, w
  {
    if n > 0 then CanMapBehind(n - 1, s, w) else |s.free| >= |Need(s, w)|
  }

  ghost predicate CanMap(s: Snap, w: nat) { CanMapBehind(4, s, w) }

  lemma OpenCanMap(s: Snap, w: nat)
    ensures CanMap(s, w) <==> |s.free| >= |Need(s, w)|
  {
    assert CanMapBehind(1, s, w) <==> |s.free| >= |Need(s, w)|;
    assert CanMapBehind(3, s, w) <==> CanMapBehind(1, s, w);
  }

  // Table counts before and after tables were added on the way to page w.
  lemma PathIff(s0: Snap, s: Snap, root: nat, w: nat, found: bool)
    requires s0.Ok(root) && s.Ok(root) && Grew(s0, s) && NewOnPath(s0, s, w)
    requires if found then TableAt(s.mem, root, 1, Prefix(1, w)).Some? else s.free == {} && Missing(s, w)
    ensures found <==> CanMap(s0, w)
  {
    OpenCanMap(s0, w);
    PlacedSoFar(s0, s, w);
    Balance(s0, s, root, PathNodes(w));
    MissingNeed(s, w);
    if found { PathPlaced(s, root, w); }
  }

  // Mapping a page succeeds exactly when there is a free frame for every table it still needs.
  lemma MapsIff(s: Snap, s': Snap, root: nat, w: nat, e: nat, fault: bool)
    requires s.Ok(root) && MappedOne(s, s', root, w, e, fault)
    ensures !fault <==> CanMap(s, w)
  {
    PathIff(s, s', root, w, !fault);
  }
}
