/** Unsigned C words as integers, and the C bit operators by binary expansion. */
module Words {
  const TWO64: int := 0x1_0000_0000_0000_0000

  type u8 = x: int | 0 <= x < 0x100
  type u16 = x: int | 0 <= x < 0x1_0000
  type u32 = x: int | 0 <= x < 0x1_0000_0000
  type u64 = x: int | 0 <= x < 0x1_0000_0000_0000_0000

  function Pow2(k: nat): (p: nat)
    ensures p >= 1
  {
    if k == 0 then 1 else 2 * Pow2(k - 1)
  }

  // Two binary digits side by side.
  function Glue(high: nat, low: bool): nat { 2 * high + (if low then 1 else 0) }

  predicate Odd(x: nat) { x % 2 == 1 }

  function And(x: nat, y: nat): (r: nat)
    ensures r <= x && r <= y
  {
    if x == 0 then 0 else Glue(And(x / 2, y / 2), Odd(x) && Odd(y))
  }

  function Or(x: nat, y: nat): (r: nat)
    ensures x <= r <= x + y && y <= r
  {
    if x == 0 then y else Glue(Or(x / 2, y / 2), Odd(x) || Odd(y))
  }

  function Not64(x: u64): u64 { TWO64 - 1 - x }

  function Shr(x: nat, k: nat): (r: nat)
    ensures r <= x
    decreases k, x
  {
    if k == 0 then x else Shr(x / 2, k - 1)
  }

  function Shl64(x: u64, k: nat): u64
    decreases k, x
  {
    if k == 0 then x else Shl64(if 2 * x < TWO64 then 2 * x else 2 * x - TWO64, k - 1)
  }

  // Unsigned addition and subtraction, modulo 2^64.
  function Add64(x: u64, y: u64): u64 { if x + y < TWO64 then x + y else x + y - TWO64 }

  function Sub64(x: u64, y: u64): u64 { if x >= y then x - y else x - y + TWO64 }

  // Bit k: what `(x >> k) & 1` reads.
  predicate Bit(x: nat, k: nat) { Odd(Shr(x, k)) }

  // The number written by the low k bits.
  function Low(x: nat, k: nat): nat
    decreases k, x
  {
    if k == 0 then 0 else Glue(Low(x / 2, k - 1), Odd(x))
  }

  // ---- Powers of two ----

  lemma {:induction false} Pow2Add(a: nat, b: nat)
    ensures Pow2(a + b) == Pow2(a) * Pow2(b)
  {
    if a > 0 { Pow2Add(a - 1, b); }
  }

  lemma Pow2Constants()
    ensures Pow2(5) == 32 && Pow2(6) == 64 && Pow2(7) == 128 && Pow2(8) == 256 && Pow2(9) == 512 && Pow2(12) == 4096
    ensures Pow2(21) == 0x20_0000 && Pow2(30) == 0x4000_0000 && Pow2(39) == 0x80_0000_0000
    ensures Pow2(52) == 0x10_0000_0000_0000 && Pow2(64) == TWO64
  {
    assert Pow2(3) == 8;
    Pow2Add(3, 3); Pow2Add(3, 6); Pow2Add(6, 6);
    Pow2Add(9, 12); Pow2Add(9, 21); Pow2Add(9, 30);
    Pow2Add(3, 9); Pow2Add(12, 12); Pow2Add(24, 24);
    Pow2Add(3, 1); Pow2Add(48, 4); Pow2Add(12, 52);
  }

  lemma {:induction false} Pow2Monotone(a: nat, b: nat)
    requires a <= b
    ensures Pow2(a) <= Pow2(b)
    decreases b
  {
    if a < b { Pow2Monotone(a, b - 1); }
  }

  // ---- Bits of the operators ----

  lemma AndHalf(x: nat, y: nat)
    ensures And(x, y) / 2 == And(x / 2, y / 2)
    ensures Odd(And(x, y)) == (Odd(x) && Odd(y))
  {
  }

  lemma OrHalf(x: nat, y: nat)
    ensures Or(x, y) / 2 == Or(x / 2, y / 2)
    ensures Odd(Or(x, y)) == (Odd(x) || Odd(y))
  {
  }

  lemma {:induction false} AndBit(x: nat, y: nat, k: nat)
    ensures Bit(And(x, y), k) == (Bit(x, k) && Bit(y, k))
    decreases k, x
  {
    AndHalf(x, y);
    if k > 0 { AndBit(x / 2, y / 2, k - 1); }
  }

  lemma {:induction false} OrBit(x: nat, y: nat, k: nat)
    ensures Bit(Or(x, y), k) == (Bit(x, k) || Bit(y, k))
    decreases k, x
  {
    OrHalf(x, y);
    if k > 0 { OrBit(x / 2, y / 2, k - 1); }
  }

  lemma {:induction false} Pow2Bit(k: nat, j: nat)
    ensures Bit(Pow2(k), j) == (j == k)
  {
    if k == 0 {
      if j > 0 { ZeroBit(j - 1); }
    } else if j > 0 {
      Pow2Bit(k - 1, j - 1);
    }
  }

  lemma {:induction false} ZeroBit(j: nat)
    ensures !Bit(0, j)
  {
    if j > 0 { ZeroBit(j - 1); }
  }

  lemma {:induction false} NotBit(x: nat, n: nat, k: nat)
    requires x < Pow2(n) && k < n
    ensures Bit(Pow2(n) - 1 - x, k) == !Bit(x, k)
  {
    if k > 0 {
      assert (Pow2(n) - 1 - x) / 2 == Pow2(n - 1) - 1 - x / 2;
      NotBit(x / 2, n - 1, k - 1);
    }
  }

  // Two n-bit words with the same bits are the same word.
  lemma {:induction false} BitsDetermine(x: nat, y: nat, n: nat)
    requires x < Pow2(n) && y < Pow2(n)
    requires forall k: nat | k < n :: Bit(x, k) == Bit(y, k)
    ensures x == y
  {
    if n > 0 {
      assert Bit(x, 0) == Bit(y, 0);
      forall k: nat | k < n - 1 ensures Bit(x / 2, k) == Bit(y / 2, k) {
        assert Bit(x, k + 1) == Bit(y, k + 1);
      }
      BitsDetermine(x / 2, y / 2, n - 1);
    }
  }

  lemma {:induction false} OrBound(x: nat, y: nat, n: nat)
    requires x < Pow2(n) && y < Pow2(n)
    ensures Or(x, y) < Pow2(n)
  {
    if n > 0 { OrBound(x / 2, y / 2, n - 1); }
  }

  lemma Or64(x: u64, y: u64)
    ensures Or(x, y) < TWO64
  {
    Pow2Constants();
    OrBound(x, y, 64);
  }

  // ---- Shifts and masks as arithmetic ----

  lemma {:induction false} Split(x: nat, k: nat)
    ensures x == Pow2(k) * Shr(x, k) + Low(x, k) && Low(x, k) < Pow2(k)
    decreases k, x
  {
    if k > 0 {
      Split(x / 2, k - 1);
      Double(Pow2(k - 1), Shr(x, k));
    }
  }

  // Low bits are a remainder, a right shift is a quotient.
  lemma ShrLow(x: nat, k: nat, d: nat)
    requires Pow2(k) == d
    ensures Shr(x, k) == x / d && Low(x, k) == x % d
  {
    Split(x, k);
    DivMod(x, d, Shr(x, k), Low(x, k));
  }

  lemma DivMod(x: nat, d: nat, q: nat, r: nat)
    requires x == d * q + r && r < d
    ensures x / d == q && x % d == r
  {
    var q', r' := x / d, x % d;
    assert x == d * q' + r' && 0 <= r' < d by { DivModAxiom(x, d); }
    MulGap(d, q, q');
    MulGap(d, q', q);
  }

  lemma DivModAxiom(x: nat, d: nat)
    requires d > 0
    ensures x == d * (x / d) + x % d && 0 <= x % d < d
  {
  }

  lemma {:induction false} MulGap(d: nat, a: nat, b: nat)
    ensures a < b ==> d * a + d <= d * b
    decreases b
  {
    if a < b {
      MulGap(d, a, b - 1);
      MulStep(d, b - 1);
    }
  }

  lemma MulStep(d: nat, b: nat)
    ensures d * (b + 1) == d * b + d
  {
  }

  lemma Double(p: nat, s: nat)
    ensures (2 * p) * s == 2 * (p * s)
  {
  }

  lemma {:induction false} ShlOne(j: nat, k: nat)
    requires j + k < 64
    ensures Pow2(j) < TWO64 && Shl64(Pow2(j), k) == Pow2(j + k)
    decreases k
  {
    Pow2Constants();
    Pow2Monotone(j, 63);
    if k > 0 { ShlOne(j + 1, k - 1); }
  }

  lemma ShlStep(x: u64, k: nat)
    requires k >= 1 && 2 * x < TWO64
    ensures Shl64(x, k) == Shl64(2 * x, k - 1)
  {
  }

  lemma Shl3(x: u64, k: nat)
    requires k >= 3 && 8 * x < TWO64
    ensures Shl64(x, k) == Shl64(8 * x, k - 3)
  {
    ShlStep(x, k);
    ShlStep(2 * x, k - 1);
    ShlStep(4 * x, k - 2);
  }

  lemma Shl6(x: u64, k: nat)
    requires k >= 6 && 64 * x < TWO64
    ensures Shl64(x, k) == Shl64(64 * x, k - 6)
  {
    Shl3(x, k);
    Shl3(8 * x, k - 3);
  }

  lemma Shl12(x: u64)
    requires 4096 * x < TWO64
    ensures Shl64(x, 12) == 4096 * x
  {
    Shl6(x, 12);
    Shl6(64 * x, 6);
  }

  // The frame-sized shifts of the C sources.
  lemma Shr6(x: u64)
    ensures Shr(x, 6) == x / 64 && Low(x, 6) == x % 64
  {
    ShrLow(x, 6, 64) by { Pow2Constants(); }
  }

  lemma Shr12(x: u64)
    ensures Shr(x, 12) == x / 4096 && Low(x, 12) == x % 4096
  {
    ShrLow(x, 12, 4096) by { Pow2Constants(); }
  }

  // x & (2^n - 2^m) keeps the bits m..n-1 in place.
  lemma {:induction false} AndField(x: nat, m: nat, n: nat)
    requires m <= n
    ensures Low(x, m) <= Low(x, n) && Pow2(m) <= Pow2(n)
    ensures And(x, Pow2(n) - Pow2(m)) == Low(x, n) - Low(x, m)
  {
    Pow2Monotone(m, n);
    if n == 0 {
      AndZero(x);
    } else {
      var k := if m == 0 then 0 else m - 1;
      AndField(x / 2, k, n - 1);
      HalfMask(m, n);
      AndHalf(x, Pow2(n) - Pow2(m));
    }
  }

  lemma HalfMask(m: nat, n: nat)
    requires m <= n && n > 0
    ensures Pow2(m) <= Pow2(n)
    ensures (Pow2(n) - Pow2(m)) / 2 == Pow2(n - 1) - Pow2(if m == 0 then 0 else m - 1)
    ensures Odd(Pow2(n) - Pow2(m)) == (m == 0)
  {
    Pow2Monotone(m, n);
  }

  lemma {:induction false} AndZero(x: nat)
    ensures And(x, 0) == 0
  {
    if x > 0 { AndZero(x / 2); }
  }

  // A disjoint `|` is `+`.
  lemma {:induction false} OrIsAdd(x: nat, y: nat)
    requires And(x, y) == 0
    ensures Or(x, y) == x + y
  {
    AndHalf(x, y);
    if x > 0 { OrIsAdd(x / 2, y / 2); }
  }

  lemma {:induction false} AndOrDistributes(x: nat, y: nat, m: nat)
    ensures And(Or(x, y), m) == Or(And(x, m), And(y, m))
  {
    if x > 0 {
      AndOrDistributes(x / 2, y / 2, m / 2);
      OrHalf(x, y);
      AndHalf(x, m); AndHalf(y, m); AndHalf(Or(x, y), m);
      OrHalf(And(x, m), And(y, m));
    }
  }

  lemma {:induction false} AndIdempotent(x: nat, m: nat)
    ensures And(And(x, m), m) == And(x, m)
  {
    if x > 0 {
      AndIdempotent(x / 2, m / 2);
      AndHalf(x, m);
      AndHalf(And(x, m), m);
    }
  }

  lemma {:induction false} ShrFrom(x: nat, m: nat, k: nat)
    requires m <= k
    ensures Shr(x, k) == Shr(Shr(x, m), k - m)
    decreases m
  {
    if m > 0 { ShrFrom(x / 2, m - 1, k - 1); }
  }

  lemma Low64(x: u64)
    ensures Low(x, 64) == x
  {
    ShrLow(x, 64, TWO64) by { Pow2Constants(); }
  }

  // x & ~0xFFF
  lemma AndPageMask(x: u64)
    ensures And(x, 0xFFFF_FFFF_FFFF_F000) == x - x % 4096
  {
    FieldMask(x, 12, 64, 0xFFFF_FFFF_FFFF_F000) by { Pow2Constants(); }
    Low64(x);
    Shr12(x);
  }

  // x & 63
  lemma And63(x: u64)
    ensures And(x, 63) == x % 64
  {
    FieldMask(x, 0, 6, 63) by { Pow2Constants(); }
    Shr6(x);
  }

  lemma FieldMask(x: nat, m: nat, n: nat, mask: nat)
    requires m <= n && mask == Pow2(n) - Pow2(m)
    ensures And(x, mask) == Low(x, n) - Low(x, m)
  {
    AndField(x, m, n);
  }

  // `|` of a multiple of 2^n and a number below 2^n is their sum.
  lemma {:induction false} OrLow(x: nat, y: nat, n: nat)
    requires Low(x, n) == 0 && y < Pow2(n)
    ensures Or(x, y) == x + y
  {
    if n == 0 {
      OrHalf(x, 0); OrZero(x);
    } else {
      OrLow(x / 2, y / 2, n - 1);
      OrHalf(x, y);
    }
  }

  lemma {:induction false} OrZero(x: nat)
    ensures Or(x, 0) == x
  {
    if x > 0 { OrZero(x / 2); }
  }

  lemma {:induction false} OrCommutes(x: nat, y: nat)
    ensures Or(x, y) == Or(y, x)
  {
    if x > 0 {
      OrCommutes(x / 2, y / 2);
      OrHalf(x, y);
      OrHalf(y, x);
    } else {
      OrZero(y);
    }
  }

  lemma {:induction false} OrAssociates(x: nat, y: nat, z: nat)
    ensures Or(Or(x, y), z) == Or(x, Or(y, z))
  {
    if x > 0 {
      OrAssociates(x / 2, y / 2, z / 2);
      OrHalf(x, y); OrHalf(y, z);
      OrHalf(Or(x, y), z);
      OrHalf(x, Or(y, z));
    }
  }

  lemma {:induction false} AndCommutes(x: nat, y: nat)
    ensures And(x, y) == And(y, x)
  {
    if x > 0 {
      AndCommutes(x / 2, y / 2);
      AndHalf(x, y);
      AndHalf(y, x);
    } else {
      AndZero(y);
    }
  }

  // A mask of one bit.
  lemma AndBitMask(x: nat, k: nat, mask: nat, d: nat)
    requires mask == Pow2(k) && d == Pow2(k + 1)
    ensures And(x, mask) == x % d - x % mask
  {
    FieldMask(x, k, k + 1, mask);
    ShrLow(x, k, mask);
    ShrLow(x, k + 1, d);
  }
}
