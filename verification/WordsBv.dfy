/** The operators of Words agree with Dafny's 64-bit vectors. */
module WordsBv {
  import opened Words

  datatype Word64 = Word64(bits: bv64) {
    function Half(): Word64 { Word64(bits >> 1) }
    predicate IsOdd() { bits & 1 == 1 }
    function BvAnd(y: Word64): Word64 { Word64(bits & y.bits) }
    function BvOr(y: Word64): Word64 { Word64(bits | y.bits) }

    // The number written by the low n bits.
    function Val(n: nat): nat
      decreases n
    {
      if n == 0 then 0 else Glue(Half().Val(n - 1), IsOdd())
    }
  }

  lemma HalfAnd(x: Word64, y: Word64)
    ensures x.BvAnd(y).Half() == x.Half().BvAnd(y.Half())
    ensures x.BvAnd(y).IsOdd() == (x.IsOdd() && y.IsOdd())
  {
  }

  lemma HalfOr(x: Word64, y: Word64)
    ensures x.BvOr(y).Half() == x.Half().BvOr(y.Half())
    ensures x.BvOr(y).IsOdd() == (x.IsOdd() || y.IsOdd())
  {
  }

  lemma AndGlue(a: nat, b: nat, p: bool, q: bool)
    ensures And(Glue(a, p), Glue(b, q)) == Glue(And(a, b), p && q)
  {
    var x, y := Glue(a, p), Glue(b, q);
    assert x / 2 == a && y / 2 == b;
    AndHalf(x, y);
  }

  lemma OrGlue(a: nat, b: nat, p: bool, q: bool)
    ensures Or(Glue(a, p), Glue(b, q)) == Glue(Or(a, b), p || q)
  {
    var x, y := Glue(a, p), Glue(b, q);
    assert x / 2 == a && y / 2 == b;
    OrHalf(x, y);
  }

  lemma {:induction false} AndMatchesBv(x: Word64, y: Word64, n: nat)
    ensures x.BvAnd(y).Val(n) == And(x.Val(n), y.Val(n))
    decreases n
  {
    if n > 0 {
      HalfAnd(x, y);
      AndMatchesBv(x.Half(), y.Half(), n - 1);
      AndGlue(x.Half().Val(n - 1), y.Half().Val(n - 1), x.IsOdd(), y.IsOdd());
    }
  }

  lemma {:induction false} OrMatchesBv(x: Word64, y: Word64, n: nat)
    ensures x.BvOr(y).Val(n) == Or(x.Val(n), y.Val(n))
    decreases n
  {
    if n > 0 {
      HalfOr(x, y);
      OrMatchesBv(x.Half(), y.Half(), n - 1);
      OrGlue(x.Half().Val(n - 1), y.Half().Val(n - 1), x.IsOdd(), y.IsOdd());
    }
  }
}
