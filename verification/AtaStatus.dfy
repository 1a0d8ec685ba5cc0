/** The status byte of an ATA device. */
module AtaStatus {
  import opened Words

  const SR_ERR_DF: u8 := 0x21
  const SR_DRQ: u8 := 0x08
  const SR_DRDY: u8 := 0x40
  const SR_BSY: u8 := 0x80

  // Bit 0 is ERR, bit 3 DRQ, bit 5 DF, bit 6 DRDY, bit 7 BSY.
  predicate ErrOrDf(st: u8) { st % 2 == 1 || st / 32 % 2 == 1 }
  predicate Drq(st: u8) { st / 8 % 2 == 1 }
  predicate Drdy(st: u8) { st / 64 % 2 == 1 }
  predicate Bsy(st: u8) { st / 128 % 2 == 1 }

  // A floating bus, or a failure.
  predicate Bad(st: u8) { st == 0xFF || ErrOrDf(st) }

  lemma StatusBits(st: u8)
    ensures And(st, SR_ERR_DF) != 0 <==> ErrOrDf(st)
    ensures And(st, SR_DRQ) != 0 <==> Drq(st)
    ensures And(st, SR_DRDY) != 0 <==> Drdy(st)
    ensures And(st, SR_BSY) != 0 <==> Bsy(st)
  {
    DrqBit(st);
    DrdyBit(st);
    BsyBit(st);
    ErrBits(st);
  }

  lemma DrdyBit(st: u8)
    ensures And(st, SR_DRDY) != 0 <==> Drdy(st)
  {
    AndBitMask(st, 6, 64, 128) by { Pow2Constants(); }
    SecondHighest(st);
  }

  lemma SecondHighest(st: u8)
    ensures st % 128 - st % 64 != 0 <==> st / 64 % 2 == 1
  {
  }

  lemma BsyBit(st: u8)
    ensures And(st, SR_BSY) != 0 <==> Bsy(st)
  {
    AndBitMask(st, 7, 128, 256) by { Pow2Constants(); }
    Highest(st);
  }

  lemma Highest(st: u8)
    ensures st % 256 - st % 128 != 0 <==> st / 128 % 2 == 1
  {
  }

  lemma DrqBit(st: u8)
    ensures And(st, SR_DRQ) != 0 <==> Drq(st)
  {
    AndBitMask(st, 3, 8, 16) by { assert Pow2(3) == 8 && Pow2(4) == 16; }
    LowNibble(st);
  }

  lemma LowNibble(st: u8)
    ensures st % 16 - st % 8 != 0 <==> st / 8 % 2 == 1
  {
  }

  lemma DfBit(st: u8)
    ensures And(st, 0x20) != 0 <==> st / 32 % 2 == 1
  {
    AndBitMask(st, 5, 32, 64) by { Pow2Constants(); }
    HighHalf(st);
  }

  lemma HighHalf(st: u8)
    ensures st % 64 - st % 32 != 0 <==> st / 32 % 2 == 1
  {
  }

  lemma ErrBit(st: u8)
    ensures And(st, 1) != 0 <==> st % 2 == 1
  {
    AndHalf(st, 1);
    AndZero(st / 2);
  }

  lemma ErrOrDfMask()
    ensures Or(1, 0x20) == 0x21
  {
    AndHalf(1, 0x20);
    OrIsAdd(1, 0x20);
  }

  lemma ErrBits(st: u8)
    ensures And(st, SR_ERR_DF) != 0 <==> ErrOrDf(st)
  {
    ErrBit(st);
    DfBit(st);
    AndCommutes(st, 1);
    AndCommutes(st, 0x20);
    AndCommutes(st, 0x21);
    ErrOrDfMask();
    AndOrDistributes(1, 0x20, st);
  }

  // st & mask, as a condition.
  method TestBits(st: u8, mask: u8) returns (some: bool)
    ensures mask == SR_ERR_DF ==> some == ErrOrDf(st)
    ensures mask == SR_DRQ ==> some == Drq(st)
    ensures mask == SR_DRDY ==> some == Drdy(st)
    ensures mask == SR_BSY ==> some == Bsy(st)
  {
    StatusBits(st);
    some := And(st, mask) != 0;
  }
}
