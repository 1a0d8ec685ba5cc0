/** The entries the kernel builds with `|` and `&`, read back field by field. */
module Entries {
  import opened Words
  import opened PageTable

  const PAGE_PRESENT: u64 := 1
  const PAGE_WRITABLE: u64 := 2
  const PS_BIT: u64 := 0x80
  const PAGE_NX: u64 := 0x8000_0000_0000_0000
  const PAGE_ADDR_MASK: u64 := 0x000F_FFFF_FFFF_F000
  const GIB_ADDR_MASK: u64 := 0x000F_FFFF_C000_0000
  const GIB_SIZE: u64 := 0x4000_0000
  const HHDM_OFFSET: u64 := 0xFFFF_8000_0000_0000

  function TableEntry(frameAddr: u64): nat { Or(Or(frameAddr, PAGE_PRESENT), PAGE_WRITABLE) }

  function LeafEntry(paddr: u64, flags: u64): nat { Or(Or(And(paddr, PAGE_ADDR_MASK), flags), PAGE_PRESENT) }

  function HugeEntry(paddr: u64, flags: u64): nat { HugeBits(And(paddr, GIB_ADDR_MASK), flags) }

  function HugeBits(base: nat, flags: u64): nat { Or(Or(Or(base, flags), PAGE_PRESENT), PS_BIT) }

  lemma AndOne(x: nat)
    ensures And(x, 1) == x % 2
  {
    AndHalf(x, 1);
    AndZero(x / 2);
  }

  lemma Low9(x: nat)
    ensures Low(x, 9) == x % 512
  {
    ShrLow(x, 9, 512) by { Pow2Constants(); }
  }

  lemma AndNine(x: nat)
    ensures And(x, 0x1FF) == x % 512
  {
    FieldMask(x, 0, 9, 0x1FF) by { Pow2Constants(); }
    Low9(x);
  }

  lemma Low52(x: u64)
    ensures Low(x, 52) == x % 0x10_0000_0000_0000
  {
    ShrLow(x, 52, 0x10_0000_0000_0000) by { Pow2Constants(); }
  }

  // ---- The four indices in a virtual address ----

  function PageOf(vaddr: u64): nat { vaddr / 4096 % PAGES }

  function IndexAt(vaddr: u64, shift: nat): nat { And(Shr(vaddr, shift), 0x1FF) }

  lemma ShrPrefix(vaddr: u64, k: nat)
    requires k <= 3
    ensures Shr(vaddr, 12 + 9 * k) == Prefix(k, vaddr / 4096)
  {
    if k == 0 {
      Shr12(vaddr);
    } else {
      ShrPrefix(vaddr, k - 1);
      ShrFrom(vaddr, 12 + 9 * (k - 1), 12 + 9 * k);
      ShrNine(Prefix(k - 1, vaddr / 4096));
    }
  }

  lemma ShrNine(x: nat)
    ensures Shr(x, 9) == x / 512
  {
    ShrLow(x, 9, 512) by { Pow2Constants(); }
  }

  lemma PrefixBelow(x: nat)
    ensures x % 512 == x % PAGES % 512
    ensures x / 512 % 512 == x % PAGES / 512 % 512
    ensures x / 512 / 512 % 512 == x % PAGES / 512 / 512 % 512
    ensures x / 512 / 512 / 512 % 512 == x % PAGES / 512 / 512 / 512 % 512
  {
    var h, y := x / PAGES, x % PAGES;
    assert x == 0x10_0000_0000 * h + y;
    assert x / 512 == 0x800_0000 * h + y / 512;
    assert x / 512 / 512 == 0x4_0000 * h + y / 512 / 512;
    assert x / 512 / 512 / 512 == 512 * h + y / 512 / 512 / 512;
  }

  lemma PrefixValues(x: nat)
    ensures Prefix(0, x) == x && Prefix(1, x) == x / 512
    ensures Prefix(2, x) == x / 512 / 512 && Prefix(3, x) == x / 512 / 512 / 512
  {
  }

  lemma IndexIsPrefix(vaddr: u64, k: nat)
    requires k <= 3
    ensures IndexAt(vaddr, 12 + 9 * k) == Prefix(k, PageOf(vaddr)) % 512 < 512
  {
    ShrPrefix(vaddr, k);
    AndNine(Shr(vaddr, 12 + 9 * k));
    PrefixBelow(vaddr / 4096);
    PrefixValues(vaddr / 4096);
    PrefixValues(PageOf(vaddr));
  }

  // e & PAGE_ADDR_MASK is the address of the target frame.
  lemma AndAddrMask(e: u64)
    ensures And(e, PAGE_ADDR_MASK) == 4096 * Target(e)
  {
    FieldMask(e, 12, 52, PAGE_ADDR_MASK) by { Pow2Constants(); }
    Low52(e);
    Shr12(e);
    AddrBits(e);
  }

  lemma AddrBits(e: u64)
    ensures e % 0x10_0000_0000_0000 - e % 4096 == 4096 * Target(e)
  {
    var h, y := e / 0x10_0000_0000_0000, e % 0x10_0000_0000_0000;
    assert e / 4096 == 0x100_0000_0000 * h + y / 4096;
    assert e % 4096 == y % 4096;
  }

  lemma TableEntryFields(f: nat)
    requires f < 0x100_0000_0000
    ensures TableEntry(4096 * f) == 4096 * f + 3
    ensures Present(4096 * f + 3) && !LargePage(4096 * f + 3) && Target(4096 * f + 3) == f
  {
    TableEntryValue(4096 * f);
    TableFields(f);
  }

  lemma TableEntryValue(a: u64)
    requires a % 4 == 0
    ensures TableEntry(a) == a + 3
  {
    OrOne(a);
    OrTwo(a + 1);
  }

  lemma TableFields(f: nat)
    requires f < 0x100_0000_0000
    ensures Present(4096 * f + 3) && !LargePage(4096 * f + 3) && Target(4096 * f + 3) == f
  {
    assert (4096 * f + 3) / 128 == 32 * f;
    assert (4096 * f + 3) / 4096 == f;
  }

  lemma OrOne(x: nat)
    requires x % 2 == 0
    ensures Or(x, 1) == x + 1
  {
    AndOne(x);
    OrIsAdd(x, 1);
  }

  lemma OrTwo(x: nat)
    requires x % 4 < 2
    ensures Or(x, 2) == x + 2
  {
    AndTwo(x);
    OrIsAdd(x, 2);
  }

  lemma AndTwo(x: nat)
    requires x % 4 < 2
    ensures And(x, 2) == 0
  {
    AndBitMask(x, 1, 2, 4) by { assert Pow2(1) == 2 && Pow2(2) == 4; }
    BelowTwo(x);
  }

  lemma BelowTwo(x: nat)
    requires x % 4 < 2
    ensures x % 4 == x % 2
  {
    assert x == 2 * (2 * (x / 4)) + x % 4;
  }

  // A leaf is present, and its frame bits are those of the address and the flags together.
  lemma LeafFields(paddr: u64, flags: u64)
    ensures LeafEntry(paddr, flags) < TWO64
    ensures Present(LeafEntry(paddr, flags))
    ensures And(LeafEntry(paddr, flags), PAGE_ADDR_MASK) == Or(And(paddr, PAGE_ADDR_MASK), And(flags, PAGE_ADDR_MASK))
    ensures And(flags, PAGE_ADDR_MASK) == 0 ==> Target(LeafEntry(paddr, flags)) == paddr / 4096 % 0x100_0000_0000
  {
    var a := And(paddr, PAGE_ADDR_MASK);
    Or64(a, flags);
    Or64(Or(a, flags), PAGE_PRESENT);
    OrHalf(Or(a, flags), PAGE_PRESENT);
    var e: u64 := LeafEntry(paddr, flags);
    AndOrDistributes(Or(a, flags), PAGE_PRESENT, PAGE_ADDR_MASK);
    AndOrDistributes(a, flags, PAGE_ADDR_MASK);
    AndIdempotent(paddr, PAGE_ADDR_MASK);
    AndAddrMask(PAGE_PRESENT);
    OrZero(Or(a, And(flags, PAGE_ADDR_MASK)));
    OrZero(a);
    AndAddrMask(e);
    AndAddrMask(paddr);
  }

  // So the leaf leads to the address's frame exactly when the flags add no frame bit to it.
  lemma LeafExact(paddr: u64, flags: u64)
    ensures LeafEntry(paddr, flags) < TWO64
    ensures Target(LeafEntry(paddr, flags)) == Target(paddr) <==>
            Or(And(paddr, PAGE_ADDR_MASK), And(flags, PAGE_ADDR_MASK)) == And(paddr, PAGE_ADDR_MASK)
  {
    LeafFields(paddr, flags);
    AndAddrMask(LeafEntry(paddr, flags));
    AndAddrMask(paddr);
  }

  lemma {:induction false} MaskBit(m: nat, n: nat, k: nat)
    requires m <= n
    ensures Pow2(m) <= Pow2(n) && (Bit(Pow2(n) - Pow2(m), k) <==> m <= k < n)
    decreases n
  {
    Pow2Monotone(m, n);
    if n == 0 {
      ZeroBit(k);
    } else {
      HalfMask(m, n);
      if k > 0 { MaskBit(if m == 0 then 0 else m - 1, n - 1, k - 1); }
    }
  }

  // Outside the frame bits a leaf has exactly the bits of the flags, and PRESENT.
  lemma LeafFlags(paddr: u64, flags: u64, k: nat)
    requires k < 12 || k >= 52
    ensures Bit(LeafEntry(paddr, flags), k) <==> Bit(flags, k) || k == 0
  {
    var a := And(paddr, PAGE_ADDR_MASK);
    OrBit(Or(a, flags), PAGE_PRESENT, k);
    OrBit(a, flags, k);
    MaskedOff(paddr, k);
    assert Pow2(0) == PAGE_PRESENT;
    Pow2Bit(0, k);
  }

  lemma MaskedOff(paddr: u64, k: nat)
    requires k < 12 || k >= 52
    ensures !Bit(And(paddr, PAGE_ADDR_MASK), k)
  {
    AndBit(paddr, PAGE_ADDR_MASK, k);
    AddrMaskBits();
    MaskBit(12, 52, k);
  }

  lemma AddrMaskBits()
    ensures PAGE_ADDR_MASK == Pow2(52) - Pow2(12)
  {
    Pow2Constants();
  }

  lemma LeafOf(paddr: u64, f: nat, flags: u64, e: u64)
    requires paddr == 4096 * f && e == LeafEntry(paddr, flags) && And(flags, PAGE_ADDR_MASK) == 0
    requires f < 0x100_0000_0000
    ensures Target(e) == f
  {
    LeafFields(paddr, flags);
    FrameOfAddress(paddr, f);
  }

  lemma FrameOfAddress(paddr: u64, f: nat)
    requires paddr == 4096 * f && f < 0x100_0000_0000
    ensures paddr / 4096 % 0x100_0000_0000 == f
  {
  }

  // An identity leaf below 2^47, read and write.
  lemma IdentityLeaf(addr: u64)
    requires addr < 0x8000_0000_0000
    ensures LeafEntry(addr, PAGE_WRITABLE) == 4096 * (addr / 4096) + 3
  {
    AndAddrMask(addr);
    LowTarget(addr);
    MultipleOfFour(And(addr, PAGE_ADDR_MASK), addr / 4096);
    LeafOr(And(addr, PAGE_ADDR_MASK));
  }

  lemma LowTarget(addr: u64)
    requires addr < 0x8000_0000_0000
    ensures Target(addr) == addr / 4096
  {
  }

  lemma MultipleOfFour(x: nat, f: nat)
    requires x == 4096 * f
    ensures x % 4 == 0
  {
    assert x == 4 * (1024 * f);
  }

  lemma LeafOr(x: nat)
    requires x % 4 == 0
    ensures Or(Or(x, PAGE_WRITABLE), PAGE_PRESENT) == x + 3
  {
    OrTwo(x);
    OrOne(x + 2);
  }

  const HHDM_FLAGS: u64 := 0x8000_0000_0000_0002   // PAGE_WRITABLE | PAGE_NX

  lemma HhdmFlags()
    ensures Or(PAGE_WRITABLE, PAGE_NX) == HHDM_FLAGS
  {
    OrTopBit(2);
  }

  // The large entry for GiB number k of physical memory.
  lemma HhdmEntry(k: nat)
    requires k < 0x2_0000
    ensures HugeEntry(0x4000_0000 * k, HHDM_FLAGS) == 0x4000_0000 * k + 0x8000_0000_0000_0083
  {
    AndGibMask(k);
    GibBounds(k, 0x4000_0000 * k);
    HugeOfMasked(0x4000_0000 * k);
  }

  lemma GibBounds(k: nat, p: nat)
    requires k < 0x2_0000 && p == 0x4000_0000 * k
    ensures p % 256 == 0 && p < 0x8000_0000_0000
  {
    assert p == 256 * (0x40_0000 * k);
  }

  lemma HugeOfMasked(p: u64)
    requires And(p, GIB_ADDR_MASK) == p && p % 256 == 0 && p < 0x8000_0000_0000
    ensures HugeEntry(p, HHDM_FLAGS) == p + 0x8000_0000_0000_0083
  {
    HhdmOr(p);
  }

  lemma HhdmOr(p: nat)
    requires p % 256 == 0 && p < 0x8000_0000_0000
    ensures HugeBits(p, HHDM_FLAGS) == p + 0x8000_0000_0000_0083
  {
    MultipleOf256(p);
    OrFlags(p);
    OrLowBits(p + HHDM_FLAGS);
  }

  lemma MultipleOf256(p: nat)
    requires p % 256 == 0
    ensures p % 4 == 0 && (p + HHDM_FLAGS) % 256 == 2
  {
    assert p == 4 * (64 * (p / 256));
    assert HHDM_FLAGS == 256 * 0x80_0000_0000_0000 + 2;
  }

  lemma OrFlags(p: nat)
    requires p % 4 == 0 && p < 0x8000_0000_0000
    ensures Or(p, HHDM_FLAGS) == p + HHDM_FLAGS
  {
    HhdmFlags();
    OrAssociates(p, PAGE_WRITABLE, PAGE_NX);
    OrTwo(p);
    OrTopBit(p + 2);
  }

  lemma OrLowBits(x: nat)
    requires x % 256 == 2
    ensures Or(Or(x, PAGE_PRESENT), PS_BIT) == x + 129
  {
    OrOne(x);
    OrSeven(x + 1);
  }

  lemma Low30(k: nat)
    ensures Low(0x4000_0000 * k, 30) == 0
  {
    ShrLow(0x4000_0000 * k, 30, 0x4000_0000) by { Pow2Constants(); }
    WholeGibs(k, 0x4000_0000 * k);
  }

  lemma WholeGibs(k: nat, p: nat)
    requires p == 0x4000_0000 * k
    ensures p % 0x4000_0000 == 0
  {
  }

  lemma AndGibMask(k: nat)
    requires k < 0x2_0000
    ensures And(0x4000_0000 * k, GIB_ADDR_MASK) == 0x4000_0000 * k
  {
    FieldMask(0x4000_0000 * k, 30, 52, GIB_ADDR_MASK) by { Pow2Constants(); }
    Low52(0x4000_0000 * k);
    Low30(k);
    GibBelow52(k, 0x4000_0000 * k);
  }

  lemma GibBelow52(k: nat, p: nat)
    requires k < 0x2_0000 && p == 0x4000_0000 * k
    ensures p % 0x10_0000_0000_0000 == p
  {
    assert p < 0x10_0000_0000_0000;
  }

  lemma OrTopBit(x: nat)
    requires x < PAGE_NX
    ensures Or(x, PAGE_NX) == x + PAGE_NX
  {
    OrCommutes(x, PAGE_NX);
    assert Pow2(63) == PAGE_NX by { Pow2Constants(); }
    TopBitLow();
    OrLow(PAGE_NX, x, 63);
  }

  lemma TopBitLow()
    ensures Low(PAGE_NX, 63) == 0
  {
    assert Pow2(63) == PAGE_NX by { Pow2Constants(); }
    PowerLow(63);
  }

  lemma {:induction false} PowerLow(n: nat)
    ensures Low(Pow2(n), n) == 0
  {
    if n > 0 { PowerLow(n - 1); }
  }

  lemma OrSeven(x: nat)
    requires x % 256 < 128
    ensures Or(x, PS_BIT) == x + 128
  {
    AndSeven(x);
    OrIsAdd(x, 128);
  }

  lemma AndSeven(x: nat)
    requires x % 256 < 128
    ensures And(x, 128) == 0
  {
    FieldMask(x, 7, 8, 128) by { Pow2Constants(); }
    Low7(x);
    Low8(x);
    SmallMod(x);
  }

  lemma SmallMod(x: nat)
    requires x % 256 < 128
    ensures x % 256 == x % 128
  {
    assert x == 128 * (2 * (x / 256)) + x % 256;
  }

  lemma Low7(x: nat)
    ensures Low(x, 7) == x % 128
  {
    ShrLow(x, 7, 128) by { Pow2Constants(); }
  }

  lemma Low8(x: nat)
    ensures Low(x, 8) == x % 256
  {
    ShrLow(x, 8, 256) by { Pow2Constants(); }
  }

  // ---- Physical addresses ----

  // The byte that a virtual address reaches under a translation.
  function PhysOf(tr: Translation, vaddr: u64): Option<nat> {
    match tr
    case Mapped(1, e) => Some(4096 * Target(e) + vaddr % 4096)
    case Mapped(2, e) => Some(0x20_0000 * (Target(e) / 512) + vaddr % 0x20_0000)
    case Mapped(3, e) => Some(0x4000_0000 * (Target(e) / 0x4_0000) + vaddr % 0x4000_0000)
    case _ => None
  }

  lemma HugeFields(k: nat, e: u64)
    requires k < 0x2_0000 && e == 0x4000_0000 * k + 0x8000_0000_0000_0083
    ensures Present(e) && LargePage(e) && Target(e) == 0x4_0000 * k
  {
    HugeBit7(k, e);
    HugeTarget(k, e);
  }

  lemma HugeBit7(k: nat, e: u64)
    requires k < 0x2_0000 && e == 0x4000_0000 * k + 0x8000_0000_0000_0083
    ensures Present(e) && LargePage(e)
  {
    assert e == 128 * (0x80_0000 * k + 0x100_0000_0000_0001) + 3;
  }

  lemma HugeTarget(k: nat, e: u64)
    requires k < 0x2_0000 && e == 0x4000_0000 * k + 0x8000_0000_0000_0083
    ensures Target(e) == 0x4_0000 * k
  {
    assert e == 4096 * (0x4_0000 * k + 0x8_0000_0000_0000) + 131;
    assert e / 4096 == 0x4_0000 * k + 0x8_0000_0000_0000;
    assert 0x8_0000_0000_0000 == 2048 * 0x100_0000_0000;
  }
}
