/** Sets of frame numbers, in order: those below a limit, and the n least. */
module LeastFrames {
  function Below(s: set<nat>, limit: nat): set<nat> { set f | f in s && f < limit }

  function From(s: set<nat>, limit: nat): set<nat> { set f | f in s && f >= limit }

  // The n least members, or all of them.
  function Least(s: set<nat>, n: nat): set<nat> { set f | f in s && |Below(s, f)| < n }

  predicate IsLeast(f: nat, s: set<nat>) { f in s && forall g | g in s :: f <= g }

  lemma LeastOf(s: set<nat>) returns (f: nat)
    requires s != {}
    ensures IsLeast(f, s)
    decreases s
  {
    f :| f in s;
    if s != {f} {
      var g := LeastOf(s - {f});
      assert forall h | h in s :: h == f || h in s - {f};
      if g < f { f := g; }
    }
  }

  lemma LargestOf(s: set<nat>) returns (f: nat)
    requires s != {}
    ensures f in s && forall g | g in s :: g <= f
    decreases s
  {
    f :| f in s;
    if s != {f} {
      var g := LargestOf(s - {f});
      assert forall h | h in s :: h == f || h in s - {f};
      if g > f { f := g; }
    }
  }

  lemma Fewer(xs: set<nat>, ys: set<nat>)
    requires xs <= ys
    ensures |xs| <= |ys| && (xs != ys ==> |xs| < |ys|)
  {
    assert ys == xs + (ys - xs);
  }

  lemma BelowNext(s: set<nat>, limit: nat)
    ensures |Below(s, limit)| <= |Below(s, limit + 1)| <= |Below(s, limit)| + 1
  {
    if limit in s {
      assert Below(s, limit + 1) == Below(s, limit) + {limit};
    } else {
      assert Below(s, limit + 1) == Below(s, limit);
    }
  }

  // Below this limit lie the n least members.
  lemma {:induction false} Cut(s: set<nat>, n: nat, bound: nat) returns (limit: nat)
    requires n <= |Below(s, bound)|
    ensures limit <= bound && |Below(s, limit)| == n && Below(s, limit) == Least(s, n)
  {
    if |Below(s, bound)| == n {
      limit := bound;
      LeastBelow(s, n, limit);
    } else {
      assert bound > 0 by { if bound == 0 { assert Below(s, 0) == {}; } }
      BelowNext(s, bound - 1);
      limit := Cut(s, n, bound - 1);
    }
  }

  lemma LeastBelow(s: set<nat>, n: nat, limit: nat)
    requires |Below(s, limit)| == n
    ensures Below(s, limit) == Least(s, n)
  {
    forall f | f in s ensures f < limit <==> |Below(s, f)| < n {
      if f < limit {
        assert Below(s, f) <= Below(s, limit) && f in Below(s, limit) && f !in Below(s, f);
        Fewer(Below(s, f), Below(s, limit));
      } else {
        Fewer(Below(s, limit), Below(s, f));
      }
    }
  }

  // Taking the least member takes the least one below any limit that is not under it.
  lemma TakeLeast(s: set<nat>, limit: nat, f: nat)
    requires IsLeast(f, s) && Below(s, limit) != {}
    ensures IsLeast(f, Below(s, limit)) && f < limit
    ensures Below(s - {f}, limit) == Below(s, limit) - {f} && From(s - {f}, limit) == From(s, limit)
  {
    var g :| g in Below(s, limit);
    assert f <= g;
  }

  lemma SplitAt(s: set<nat>, limit: nat)
    ensures s == Below(s, limit) + From(s, limit) && Below(s, limit) !! From(s, limit)
    ensures |s| == |Below(s, limit)| + |From(s, limit)|
  {
    assert s == Below(s, limit) + From(s, limit);
  }

  // Some limit has the n least members, or all of them, below it.
  lemma Choose(s: set<nat>, n: nat, bound: nat) returns (limit: nat)
    requires forall f | f in s :: f < bound
    ensures Below(s, limit) == Least(s, n) && |Below(s, limit)| <= n
    ensures From(s, limit) == {} || |Below(s, limit)| == n
  {
    assert Below(s, bound) == s && From(s, bound) == {};
    if |s| >= n {
      limit := Cut(s, n, bound);
    } else {
      limit := bound;
      forall f | f in s ensures |Below(s, f)| < n { Fewer(Below(s, f), s); }
      assert Least(s, n) == s;
    }
  }

  lemma GiveBack(s: set<nat>, limit: nat, f: nat)
    requires f < limit
    ensures Below(s + {f}, limit) == Below(s, limit) + {f} && From(s + {f}, limit) == From(s, limit)
  {
  }

  // ---- The two parts behind a counter, for code that only carries them ----

  function BelowBehind(n: nat, s: set<nat>, limit: nat): set<nat>
    decreases n, limit
  {
    if n > 0 then BelowBehind(n - 1, s, limit) else Below(s, limit)
  }

  function FromBehind(n: nat, s: set<nat>, limit: nat): set<nat>
    decreases n, limit
  {
    if n > 0 then FromBehind(n - 1, s, limit) else From(s, limit)
  }

  function Within(s: set<nat>, limit: nat): set<nat> { BelowBehind(4, s, limit) }

  function Outside(s: set<nat>, limit: nat): set<nat> { FromBehind(4, s, limit) }

  lemma Parts(s: set<nat>, limit: nat)
    ensures Within(s, limit) == Below(s, limit) && Outside(s, limit) == From(s, limit)
  {
    assert BelowBehind(1, s, limit) == Below(s, limit) && FromBehind(1, s, limit) == From(s, limit);
    assert BelowBehind(3, s, limit) == BelowBehind(1, s, limit);
    assert FromBehind(3, s, limit) == FromBehind(1, s, limit);
  }
}
