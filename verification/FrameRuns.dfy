/** Whole runs of the frame allocator: frames are handed out and given back. */
module FrameRuns {
  import opened Words
  import opened Pmm
  import opened LeastFrames
  import opened Startup

  datatype Op = Alloc | Free(f: nat)

  // The free frames, the frames handed out, and what the last call returned.
  datatype State = State(free: set<nat>, held: set<nat>, last: Return)
  datatype Return = Nothing | Invalid | Frame(f: nat)

  // What FrameAlloc and FrameFree do, as their contracts say.
  ghost predicate Step(s: State, s': State, op: Op) {
    match op
    case Alloc =>
      if s.free == {} then s' == s.(last := Invalid)
      else exists f :: IsLeast(f, s.free) && s' == State(s.free - {f}, s.held + {f}, Frame(f))
    case Free(f) =>
      // only frames handed out are given back
      && f in s.held
      && s' == State(if f < PMM_RESERVED_FRAMES then s.free else s.free + {f}, s.held - {f}, Nothing)
  }

  // They do: a call on the bitmap is a step.
  method Call(a: FrameAllocator, op: Op, ghost s: State) returns (ghost s': State)
    requires a.Valid() && a.FreeSet() == s.free
    requires op.Free? ==> op.f in s.held && op.f < 64 * BITMAP_WORDS
    modifies a.bitmap
    ensures Step(s, s', op) && a.FreeSet() == s'.free
  {
    match op {
      case Alloc =>
        var addr;
        ghost var f;
        addr, f := a.FrameAlloc();
        s' := if s.free == {} then s.(last := Invalid) else State(s.free - {f}, s.held + {f}, Frame(f));
      case Free(f) =>
        a.FrameFree(f);
        s' := State(a.FreeSet(), s.held - {f}, Nothing);
    }
  }

  ghost predicate Run(ss: seq<State>, ops: seq<Op>, free0: set<nat>) {
    && |ss| == |ops| + 1 && ss[0] == State(free0, {}, Nothing)
    && forall i | 0 <= i < |ops| :: Step(ss[i], ss[i + 1], ops[i])
  }

  // Frames are neither lost nor doubled.
  lemma {:induction false} RunsConserve(ss: seq<State>, ops: seq<Op>, free0: set<nat>, k: nat)
    requires Run(ss, ops, free0) && k < |ss| && forall f | f in free0 :: f >= PMM_RESERVED_FRAMES
    ensures ss[k].free + ss[k].held == free0 && ss[k].free !! ss[k].held
  {
    if k > 0 {
      RunsConserve(ss, ops, free0, k - 1);
      assert Step(ss[k - 1], ss[k], ops[k - 1]);
    }
  }

  // ---- Which frames are handed out ----

  // A frame returned comes after none but held ones: it is among the least, one more than are
  // held.
  lemma ReturnedIsLeast(ss: seq<State>, ops: seq<Op>, free0: set<nat>, k: nat, f: nat)
    requires Run(ss, ops, free0) && forall g | g in free0 :: g >= PMM_RESERVED_FRAMES
    requires k < |ops| && ops[k].Alloc? && ss[k + 1].last == Frame(f)
    ensures f in Least(free0, |ss[k].held| + 1) && f !in ss[k].held
  {
    RunsConserve(ss, ops, free0, k);
    assert Step(ss[k], ss[k + 1], ops[k]) && IsLeast(f, ss[k].free);
    Fewer(Below(free0, f), ss[k].held);
  }

  // In some run a call made while fewer than m frames are held returns frame f.
  ghost predicate HandsOut(free0: set<nat>, m: nat, f: nat) {
    exists ss: seq<State>, ops: seq<Op>, k: nat :: Run(ss, ops, free0) && ReturnsAt(ss, ops, k, f) && |ss[k].held| < m
  }

  ghost predicate ReturnsAt(ss: seq<State>, ops: seq<Op>, k: nat, f: nat) {
    |ss| == |ops| + 1 && k < |ops| && ops[k].Alloc? && ss[k + 1].last == Frame(f)
  }

  // Allocating n times hands out the n least.
  lemma {:induction false} AllocRun(free0: set<nat>, n: nat) returns (ss: seq<State>, ops: seq<Op>)
    requires n <= |free0|
    ensures Run(ss, ops, free0) && |ops| == n
    ensures ss[n].free == free0 - Least(free0, n) && ss[n].held == Least(free0, n)
    ensures n > 0 ==> ops[n - 1].Alloc? && |ss[n - 1].held| < n && LastHasRank(ss[n], free0, n - 1)
  {
    if n == 0 {
      ss, ops := [State(free0, {}, Nothing)], [];
    } else {
      var ss1, ops1 := AllocRun(free0, n - 1);
      LeastSize(free0, n - 1);
      var f := LeastOf(ss1[n - 1].free);
      NextRank(free0, n - 1, f);
      ss, ops := OneMore(ss1, ops1, free0, f);
      assert RankIs(free0, f, n - 1);
    }
  }

  lemma OneMore(ss1: seq<State>, ops1: seq<Op>, free0: set<nat>, f: nat) returns (ss: seq<State>, ops: seq<Op>)
    requires Run(ss1, ops1, free0) && IsLeast(f, ss1[|ops1|].free)
    ensures Run(ss, ops, free0) && ops == ops1 + [Alloc]
    ensures var s := ss1[|ops1|]; ss == ss1 + [State(s.free - {f}, s.held + {f}, Frame(f))]
  {
    var s := ss1[|ops1|];
    var s' := State(s.free - {f}, s.held + {f}, Frame(f));
    ss, ops := ss1 + [s'], ops1 + [Alloc];
    assert Step(s, s', Alloc);
    forall i | 0 <= i < |ops| ensures Step(ss[i], ss[i + 1], ops[i]) {
      if i < |ops1| { assert Step(ss1[i], ss1[i + 1], ops1[i]); }
    }
  }

  ghost predicate LastHasRank(s: State, free0: set<nat>, n: nat) { s.last.Frame? && RankIs(free0, s.last.f, n) }

  ghost predicate RankIs(s: set<nat>, f: nat, n: nat) { f in s && |Below(s, f)| == n }

  lemma LeastSize(s: set<nat>, n: nat)
    ensures |Least(s, n)| <= n && (n < |s| ==> s - Least(s, n) != {})
  {
    if s != {} {
      var top := LargestOf(s);
      var limit := Choose(s, n, top + 1);
    } else {
      assert Least(s, n) == {};
    }
    assert s == Least(s, n) + (s - Least(s, n));
  }

  // The least of the others has rank n, and completes the n + 1 least.
  lemma NextRank(s: set<nat>, n: nat, f: nat)
    requires IsLeast(f, s - Least(s, n)) && |Least(s, n)| <= n
    ensures RankIs(s, f, n) && Least(s, n + 1) == Least(s, n) + {f}
  {
    assert |Below(s, f)| >= n;
    assert Below(s, f) <= Least(s, n) by {
      assert forall g | g in s && g !in Least(s, n) :: g in s - Least(s, n);
    }
    Fewer(Below(s, f), Least(s, n));
    forall g | g in s ensures |Below(s, g)| < n + 1 <==> g in Least(s, n) || g == f {
      if g > f {
        assert f in Below(s, g) && f !in Below(s, f) && Below(s, f) <= Below(s, g);
        Fewer(Below(s, f), Below(s, g));
      }
    }
  }

  // The frames handed out while fewer than m are held are exactly the m least.
  lemma HandsOutIff(free0: set<nat>, m: nat, f: nat)
    requires forall g | g in free0 :: g >= PMM_RESERVED_FRAMES
    ensures HandsOut(free0, m, f) <==> f in Least(free0, m)
  {
    if HandsOut(free0, m, f) {
      var ss: seq<State>, ops: seq<Op>, k: nat :| Run(ss, ops, free0) && ReturnsAt(ss, ops, k, f) && |ss[k].held| < m;
      ReturnedIsLeast(ss, ops, free0, k, f);
    }
    if f in Least(free0, m) {
      var r := |Below(free0, f)|;
      assert f !in Below(free0, f) && f in free0;
      Fewer(Below(free0, f), free0);
      var ss, ops := AllocRun(free0, r + 1);
      SameRank(free0, f, ss[r + 1].last.f);
      assert ReturnsAt(ss, ops, r, f);
    }
  }

  lemma SameRank(s: set<nat>, f: nat, g: nat)
    requires f in s && g in s && |Below(s, f)| == |Below(s, g)|
    ensures f == g
  {
    if f < g {
      assert f in Below(s, g) && f !in Below(s, f) && Below(s, f) <= Below(s, g);
      Fewer(Below(s, f), Below(s, g));
    } else if g < f {
      assert g in Below(s, f) && g !in Below(s, g) && Below(s, g) <= Below(s, f);
      Fewer(Below(s, g), Below(s, f));
    }
  }

  // ---- After start-up ----

  // A frame returned at any point of any run after start-up, whatever word fills the bitmap,
  // is not held by anyone, is past the reserved limit, and holds no byte of the kernel.
  lemma ReturnedFrameIsSafe(ss: seq<State>, ops: seq<Op>, entries: seq<E820Entry>, fill: u64,
                            kernelStart: u64, kernelEnd: u64, k: nat, f: nat)
    requires Run(ss, ops, StartFree(entries, fill, kernelStart, kernelEnd)) && ReturnsAt(ss, ops, k, f)
    ensures f !in ss[k].held && f >= 0x4000
    ensures 4096 * f + 4096 <= kernelStart || kernelEnd <= 4096 * f || kernelEnd <= kernelStart
    ensures f in Least(StartFree(entries, fill, kernelStart, kernelEnd), |ss[k].held| + 1)
  {
    ReturnedIsLeast(ss, ops, StartFree(entries, fill, kernelStart, kernelEnd), k, f);
  }

  // With the all-ones fill it is memory below the highest address.
  lemma ReturnedFrameIsRam(ss: seq<State>, ops: seq<Op>, entries: seq<E820Entry>, kernelStart: u64, kernelEnd: u64,
                           k: nat, f: nat)
    requires NoWrap(entries)
    requires Run(ss, ops, StartFree(entries, ALL_ONES, kernelStart, kernelEnd)) && ReturnsAt(ss, ops, k, f)
    ensures MapContains(entries, f) && 4096 * f + 4096 <= CeilingOf(entries, 0)
  {
    var free0 := StartFree(entries, ALL_ONES, kernelStart, kernelEnd);
    ReturnedIsLeast(ss, ops, free0, k, f);
    OnesAreRam(entries, kernelStart, kernelEnd);
    var e :| e in entries && e.kind == 1 && Inside(e, f);
    CeilingIsHighest(entries, 0);
    assert 4096 * f + 4096 <= e.base + e.length == EndOf(e);
  }

  // As coded, all frames handed out while fewer than m are held are memory if and only if m
  // free frames come before every hole.
  lemma CodedRunsIff(entries: seq<E820Entry>, kernelStart: u64, kernelEnd: u64, m: nat)
    requires NoWrap(entries)
    ensures var free0 := StartFree(entries, FILL_AS_CODED, kernelStart, kernelEnd);
      (forall f | HandsOut(free0, m, f) :: MapContains(entries, f)) <==>
      (forall h | Hole(entries, kernelStart, kernelEnd, h) :: |Below(free0, h)| >= m)
  {
    var free0 := StartFree(entries, FILL_AS_CODED, kernelStart, kernelEnd);
    CodedFillIff(entries, kernelStart, kernelEnd, m);
    forall f ensures HandsOut(free0, m, f) <==> f in Least(free0, m) { HandsOutIff(free0, m, f); }
  }

  // A failing input: with memory ending at 64 MiB the first frame handed out is 4008h.
  lemma FirstFrameAsCoded(entries: seq<E820Entry>, kernelStart: u64, kernelEnd: u64)
    requires NoWrap(entries) && kernelEnd <= 0x400_0000
    requires forall e | e in entries && e.kind == 1 :: e.base + e.length <= 0x400_0000
    ensures IsLeast(0x4008, StartFree(entries, FILL_AS_CODED, kernelStart, kernelEnd))
    ensures HandsOut(StartFree(entries, FILL_AS_CODED, kernelStart, kernelEnd), 1, 0x4008)
    ensures !MapContains(entries, 0x4008)
  {
    var free0 := StartFree(entries, FILL_AS_CODED, kernelStart, kernelEnd);
    forall f | 0x4000 <= f <= 0x4008 ensures f in free0 <==> f == 0x4008 {
      InitiallyFreeIff(entries, f);
    }
    assert Below(free0, 0x4008) == {};
    HandsOutIff(free0, 1, 0x4008);
  }

  // Only the all-ones fill frees what the memory map frees and nothing else: any other word
  // frees a frame beyond the managed 64 GiB as well.
  lemma FillMatters(entries: seq<E820Entry>, fill: u64)
    ensures InitialFree(entries, fill) == InitialFree(entries, ALL_ONES) <==> fill == ALL_ONES
  {
    if fill != ALL_ONES {
      var f := LastWordFrame(fill);
      AboveManaged(entries, f);
    }
  }

  // A frame of the last word that such a fill leaves free.
  lemma LastWordFrame(fill: u64) returns (f: nat)
    requires fill != ALL_ONES
    ensures f in FillFrames(fill) && f >= 0x100_0000
  {
    LowestClear(fill);
    f := 64 * (BITMAP_WORDS - 1) + Ctz(Not64(fill));
    assert f % 64 == Ctz(Not64(fill));
  }

  // As coded, such a frame is the last one of the bitmap.
  lemma FillAsCodedFreesHoles(entries: seq<E820Entry>)
    ensures 0x7FF_FFFF in InitialFree(entries, FILL_AS_CODED) && 0x7FF_FFFF >= 0x100_0000
    ensures 0x7FF_FFFF !in InitialFree(entries, ALL_ONES)
  {
    AboveManaged(entries, 0x7FF_FFFF);
  }
}
