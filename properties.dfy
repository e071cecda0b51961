/**
 Properties that relate the operations of `BitOps` to each other: the two
 ways of reading a bit agree, setting and clearing a bit undo and repeat
 safely, a shift one way and back keeps exactly the bits that were not
 pushed out, the arithmetic right shift keeps the sign, and the mask keeps
 the upper half. The last group gives the worked examples of the program's
 comments and documentation as lemmas.
 */
module BitOpsProperties {
  import opened Word
  import opened BitOps

  // ---------------------------------------------------------------------------
  // Reading a bit

  /** `getV2` is always 0 or 1, and it is 1 exactly when `get` is true. */
  lemma GetV2AgreesWithGet(value: bv32, p: bv32)
    ensures GetV2(value, p) == if Get(value, p) then 1 else 0
  {}

  // ---------------------------------------------------------------------------
  // Setting and clearing one bit

  /** After `set(value, p)`, bit `p` reads as set. */
  lemma GetAfterSet(value: bv32, p: bv32)
    ensures Get(Set(value, p), p)
  {}

  /** `set(value, p)` leaves every bit other than `p` as it was. */
  lemma SetKeepsOtherBits(value: bv32, p: bv32, q: bv32)
    requires p & 31 != q & 31
    ensures Get(Set(value, p), q) == Get(value, q)
  {}

  /** Setting an already set bit changes nothing. */
  lemma SetIdempotent(value: bv32, p: bv32)
    ensures Set(Set(value, p), p) == Set(value, p)
  {
    var s := Set(value, p);
    var t := Set(s, p);
    forall i ensures Bit(t, i) == Bit(s, i) {
      SetTwiceBit(value, (p & 31) as bv5, s, t, i);
    }
    BitsDetermine(t, s);
  }

  lemma SetTwiceBit(value: bv32, d: bv5, s: bv32, t: bv32, i: bv5)
    requires forall j :: Bit(s, j) == (j == d || Bit(value, j))
    requires forall j :: Bit(t, j) == (j == d || Bit(s, j))
    ensures Bit(t, i) == Bit(s, i)
  {}

  /** When bit `p` is set already, `set(value, p)` is `value` itself. */
  lemma SetWhenSet(value: bv32, p: bv32)
    requires Get(value, p)
    ensures Set(value, p) == value
  {
    var s := Set(value, p);
    forall i ensures Bit(s, i) == Bit(value, i) {
      SetWhenSetBit(value, (p & 31) as bv5, s, i);
    }
    BitsDetermine(s, value);
  }

  lemma SetWhenSetBit(value: bv32, d: bv5, s: bv32, i: bv5)
    requires Bit(value, d)
    requires forall j :: Bit(s, j) == (j == d || Bit(value, j))
    ensures Bit(s, i) == Bit(value, i)
  {}

  /** After `clear(value, p)`, bit `p` reads as clear. */
  lemma GetAfterClear(value: bv32, p: bv32)
    ensures !Get(Clear(value, p), p)
  {}

  /** `clear(value, p)` leaves every bit other than `p` as it was. */
  lemma ClearKeepsOtherBits(value: bv32, p: bv32, q: bv32)
    requires p & 31 != q & 31
    ensures Get(Clear(value, p), q) == Get(value, q)
  {}

  /** Clearing an already clear bit changes nothing. */
  lemma ClearIdempotent(value: bv32, p: bv32)
    ensures Clear(Clear(value, p), p) == Clear(value, p)
  {
    var c := Clear(value, p);
    var e := Clear(c, p);
    forall i ensures Bit(e, i) == Bit(c, i) {
      ClearTwiceBit(value, (p & 31) as bv5, c, e, i);
    }
    BitsDetermine(e, c);
  }

  lemma ClearTwiceBit(value: bv32, d: bv5, c: bv32, e: bv32, i: bv5)
    requires forall j :: Bit(c, j) == (j != d && Bit(value, j))
    requires forall j :: Bit(e, j) == (j != d && Bit(c, j))
    ensures Bit(e, i) == Bit(c, i)
  {}

  /** When bit `p` is clear already, `clear(value, p)` is `value` itself. */
  lemma ClearWhenClear(value: bv32, p: bv32)
    requires !Get(value, p)
    ensures Clear(value, p) == value
  {
    var c := Clear(value, p);
    forall i ensures Bit(c, i) == Bit(value, i) {
      ClearWhenClearBit(value, (p & 31) as bv5, c, i);
    }
    BitsDetermine(c, value);
  }

  lemma ClearWhenClearBit(value: bv32, d: bv5, c: bv32, i: bv5)
    requires !Bit(value, d)
    requires forall j :: Bit(c, j) == (j != d && Bit(value, j))
    ensures Bit(c, i) == Bit(value, i)
  {}

  /** `set(value, p)` does not depend on what bit `p` of `value` was. */
  lemma SetIgnoresOldBit(x: bv32, y: bv32, p: bv32)
    requires var d := (p & 31) as bv5; forall j :: j != d ==> Bit(x, j) == Bit(y, j)
    ensures Set(x, p) == Set(y, p)
  {
    var a := Set(x, p);
    var b := Set(y, p);
    forall i ensures Bit(a, i) == Bit(b, i) {
      SameOutsideBit(x, y, (p & 31) as bv5, a, b, i);
    }
    BitsDetermine(a, b);
  }

  lemma SameOutsideBit(x: bv32, y: bv32, d: bv5, a: bv32, b: bv32, i: bv5)
    requires forall j :: j != d ==> Bit(x, j) == Bit(y, j)
    requires forall j :: Bit(a, j) == (j == d || Bit(x, j))
    requires forall j :: Bit(b, j) == (j == d || Bit(y, j))
    ensures Bit(a, i) == Bit(b, i)
  {}

  /** `clear(value, p)` does not depend on what bit `p` of `value` was. */
  lemma ClearIgnoresOldBit(x: bv32, y: bv32, p: bv32)
    requires var d := (p & 31) as bv5; forall j :: j != d ==> Bit(x, j) == Bit(y, j)
    ensures Clear(x, p) == Clear(y, p)
  {
    var a := Clear(x, p);
    var b := Clear(y, p);
    forall i ensures Bit(a, i) == Bit(b, i) {
      SameOutsideClearedBit(x, y, (p & 31) as bv5, a, b, i);
    }
    BitsDetermine(a, b);
  }

  lemma SameOutsideClearedBit(x: bv32, y: bv32, d: bv5, a: bv32, b: bv32, i: bv5)
    requires forall j :: j != d ==> Bit(x, j) == Bit(y, j)
    requires forall j :: Bit(a, j) == (j != d && Bit(x, j))
    requires forall j :: Bit(b, j) == (j != d && Bit(y, j))
    ensures Bit(a, i) == Bit(b, i)
  {}

  /**
   Setting a bit that was just cleared gives what setting it directly
   gives: `set(clear(value, p), p)` differs from `value` at most in bit `p`,
   which it makes 1.
   */
  lemma SetAfterClear(value: bv32, p: bv32)
    ensures Set(Clear(value, p), p) == Set(value, p)
  {
    SetIgnoresOldBit(Clear(value, p), value, p);
  }

  /** Symmetrically, clearing a bit that was just set gives `clear(value, p)`. */
  lemma ClearAfterSet(value: bv32, p: bv32)
    ensures Clear(Set(value, p), p) == Clear(value, p)
  {
    ClearIgnoresOldBit(Set(value, p), value, p);
  }

  /** A set bit survives clearing `p` and setting it back: it is restored. */
  lemma SetClearRestores(value: bv32, p: bv32)
    requires Get(value, p)
    ensures Set(Clear(value, p), p) == value
  {
    SetAfterClear(value, p);
    SetWhenSet(value, p);
  }

  /** `clearAll` is clearing every position in turn: no bit survives either. */
  lemma ClearAllClearsEveryBit(value: bv32, p: bv32)
    ensures !Get(ClearAll(value), p)
  {}

  // ---------------------------------------------------------------------------
  // Shifts

  /**
   A left shift is multiplication by 2^n in 32-bit arithmetic, so the bits
   above bit 31 are lost (`bv32` multiplication wraps modulo 2^32).
   */
  lemma ShiftLeftIsMultiplication(value: bv32, n: bv32)
    ensures ShiftLeftN(value, n) == value * (1 << (n & 31) as bv5)
  {
    var d := (n & 31) as bv5;
    ShiftLeftIs(value, d);
    ShiftIsMultiplication(value, d);
  }

  /** Unfolding step: the kernel `ShiftLeft` by its definition. */
  lemma ShiftLeftIs(value: bv32, d: bv5)
    ensures ShiftLeft(value, d) == value << d
  {}

  /** On `bv32`, `<<` by `d` is multiplication by `1 << d`. */
  lemma ShiftIsMultiplication(value: bv32, d: bv5)
    ensures value << d == value * (1 << d)
  {}

  /**
   Shifting left by `n` and back with the logical shift keeps the low
   `32 - n` bits of `value` in place and clears the top `n`.
   */
  lemma ShiftLeftThenRightLogical(value: bv32, n: bv32, i: bv5)
    ensures var d := (n & 31) as bv5;
      Bit(ShiftRightLogicalN(ShiftLeftN(value, n), n), i) == (i <= 31 - d && Bit(value, i))
  {
    RoundTripBit(value, (n & 31) as bv5, i);
  }

  lemma RoundTripBit(value: bv32, d: bv5, i: bv5)
    ensures Bit(ShiftRightLogical(ShiftLeft(value, d), d), i) == (i <= 31 - d && Bit(value, i))
  {
    if i <= 31 - d {
      UpAndDown(d, i);
    }
  }

  /** Within the word, moving position `i` up by `d` and back returns to `i`. */
  lemma UpAndDown(d: bv5, i: bv5)
    requires i <= 31 - d
    ensures i + d >= d && i + d - d == i
  {}

  /**
   The same round trip as a word: it is `value` with its top `n` bits
   cleared, that is `value & (0xFFFF_FFFF >>> n)`.
   */
  lemma ShiftRoundTripIsLowBits(value: bv32, n: bv32)
    ensures ShiftRightLogicalN(ShiftLeftN(value, n), n)
         == value & ShiftRightLogicalN(0xFFFF_FFFF, n)
  {
    RoundTripIsLowBits(value, (n & 31) as bv5);
  }

  lemma RoundTripIsLowBits(value: bv32, d: bv5)
    ensures ShiftRightLogical(ShiftLeft(value, d), d) == value & ShiftRightLogical(0xFFFF_FFFF, d)
  {
    var l := ShiftLeft(value, d);
    var a := ShiftRightLogical(l, d);
    var m := ShiftRightLogical(0xFFFF_FFFF, d);
    LowBitsKept(value, l, a, m, d);
  }

  /**
   The round trip on words given only by their bits: `l` is `value << d`,
   `a` is `l >>> d` and `m` is `0xFFFF_FFFF >>> d`.
   */
  lemma LowBitsKept(value: bv32, l: bv32, a: bv32, m: bv32, d: bv5)
    requires forall j :: Bit(l, j) == (j >= d && Bit(value, j - d))
    requires forall j :: Bit(a, j) == (j <= 31 - d && Bit(l, j + d))
    requires forall j :: Bit(m, j) == (j <= 31 - d && Bit(0xFFFF_FFFF, j + d))
    ensures a == value & m
  {
    forall i ensures Bit(a, i) == Bit(value & m, i) {
      RoundTripKeptBit(value, l, a, m, d, i);
    }
    BitsDetermine(a, value & m);
  }

  lemma RoundTripKeptBit(value: bv32, l: bv32, a: bv32, m: bv32, d: bv5, i: bv5)
    requires forall j :: Bit(l, j) == (j >= d && Bit(value, j - d))
    requires forall j :: Bit(a, j) == (j <= 31 - d && Bit(l, j + d))
    requires forall j :: Bit(m, j) == (j <= 31 - d && Bit(0xFFFF_FFFF, j + d))
    ensures Bit(a, i) == Bit(value & m, i)
  {
    AndBit(value, m, i);
    if i <= 31 - d {
      UpAndDown(d, i);
      OnesBit(i + d);
    }
  }

  lemma AndBit(x: bv32, y: bv32, i: bv5)
    ensures Bit(x & y, i) == (Bit(x, i) && Bit(y, i))
  {}

  lemma OnesBit(i: bv5)
    ensures Bit(0xFFFF_FFFF, i)
  {}

  /** The arithmetic right shift keeps bit 31, the sign bit. */
  lemma ShiftRightArithmeticKeepsSignBit(value: bv32, n: bv32)
    ensures Bit(ShiftRightArithmeticN(value, n), 31) == Bit(value, 31)
  {}

  /** The result of `value >> n` is negative exactly when `value` is. */
  lemma ShiftRightArithmeticKeepsSign(value: bv32, n: bv32)
    ensures ToInt(ShiftRightArithmeticN(value, n)) < 0 <==> ToInt(value) < 0
  {
    ShiftRightArithmeticKeepsSignBit(value, n);
    NegativeIffSignBit(value);
    NegativeIffSignBit(ShiftRightArithmeticN(value, n));
  }

  /** On a non-negative `int` the two right shifts agree. */
  lemma ShiftRightOfNonNegative(value: bv32, n: bv32)
    requires ToInt(value) >= 0
    ensures ShiftRightArithmeticN(value, n) == ShiftRightLogicalN(value, n)
  {
    NegativeIffSignBit(value);
    RightShiftsAgree(value, n);
  }

  lemma RightShiftsAgree(value: bv32, n: bv32)
    requires !Bit(value, 31)
    ensures ShiftRightArithmeticN(value, n) == ShiftRightLogicalN(value, n)
  {
    KernelRightShiftsAgree(value, (n & 31) as bv5);
  }

  lemma KernelRightShiftsAgree(value: bv32, d: bv5)
    requires !Bit(value, 31)
    ensures ShiftRightArithmetic(value, d) == ShiftRightLogical(value, d)
  {
    var a := ShiftRightArithmetic(value, d);
    var b := ShiftRightLogical(value, d);
    forall i ensures Bit(a, i) == Bit(b, i) {
      RightShiftsAgreeBit(value, d, a, b, i);
    }
    BitsDetermine(a, b);
  }

  lemma RightShiftsAgreeBit(value: bv32, d: bv5, a: bv32, b: bv32, i: bv5)
    requires !Bit(value, 31)
    requires forall j :: Bit(a, j) == if j <= 31 - d then Bit(value, j + d) else Bit(value, 31)
    requires forall j :: Bit(b, j) == (j <= 31 - d && Bit(value, j + d))
    ensures Bit(a, i) == Bit(b, i)
  {}

  /**
   On a negative `int` and a distance other than 0 the two right shifts
   differ: `>>` gives a negative number and `>>>` a non-negative one.
   */
  lemma ShiftRightOfNegative(value: bv32, n: bv32)
    requires ToInt(value) < 0 && n & 31 != 0
    ensures ToInt(ShiftRightArithmeticN(value, n)) < 0
    ensures ToInt(ShiftRightLogicalN(value, n)) >= 0
  {
    ShiftRightArithmeticKeepsSign(value, n);
    ShiftRightLogicalClearsSignBit(value, n);
    NonNegativeWithoutSignBit(ShiftRightLogicalN(value, n));
  }

  lemma ShiftRightLogicalClearsSignBit(value: bv32, n: bv32)
    requires n & 31 != 0
    ensures !Bit(ShiftRightLogicalN(value, n), 31)
  {}

  /** Shifting by 31 leaves only the sign: -1 for a negative `int`, else 0. */
  lemma ShiftRightArithmeticBy31(value: bv32)
    ensures ShiftRightArithmeticN(value, 31) == if ToInt(value) < 0 then 0xFFFF_FFFF else 0
  {
    var r := ShiftRightArithmeticN(value, 31);
    var s: bv32 := if ToInt(value) < 0 then 0xFFFF_FFFF else 0;
    NegativeIffSignBit(value);
    forall i ensures Bit(r, i) == Bit(s, i) {
      SignFillBit(value, 31, r, i);
      if Bit(value, 31) {
        OnesBit(i);
      } else {
        ZeroBit(i);
      }
    }
    BitsDetermine(r, s);
  }

  lemma SignFillBit(value: bv32, d: bv5, r: bv32, i: bv5)
    requires d == 31
    requires forall j :: Bit(r, j) == if j <= 31 - d then Bit(value, j + d) else Bit(value, 31)
    ensures Bit(r, i) == Bit(value, 31)
  {}

  lemma ZeroBit(i: bv5)
    ensures !Bit(0, i)
  {}

  // ---------------------------------------------------------------------------
  // The upper-half mask

  /** `-(1 << 16)` is the pattern with exactly the upper 16 bits set. */
  lemma UpperHalfIsHighOnes()
    ensures UpperHalf == 0xFFFF_0000
  {}

  /** Masking twice is masking once. */
  lemma MaskIdempotent(value: bv32)
    ensures Mask(Mask(value)) == Mask(value)
  {
    var m := Mask(value);
    var a := Mask(m);
    forall i ensures Bit(a, i) == Bit(m, i) {
      MaskTwiceBit(value, m, a, i);
    }
    BitsDetermine(a, m);
  }

  lemma MaskTwiceBit(value: bv32, m: bv32, a: bv32, i: bv5)
    requires forall j :: Bit(m, j) == (j >= 16 && Bit(value, j))
    requires forall j :: Bit(a, j) == (j >= 16 && Bit(m, j))
    ensures Bit(a, i) == Bit(m, i)
  {}

  /**
   Masking is shifting the lower half out and back:
   `mask(value) == (value >>> 16) << 16`.
   */
  lemma MaskIsShiftRoundTrip(value: bv32)
    ensures Mask(value) == ShiftLeftN(ShiftRightLogicalN(value, 16), 16)
  {
    MaskIs(value);
    UpperHalfIsHighOnes();
    HalfShiftsAre(value);
    HighHalfByShifts(value);
  }

  /** Unfolding step: `Mask` by its definition. */
  lemma MaskIs(value: bv32)
    ensures Mask(value) == value & UpperHalf
  {}

  /** Unfolding step: the two shifts by 16 by their definitions. */
  lemma HalfShiftsAre(value: bv32)
    ensures ShiftLeftN(ShiftRightLogicalN(value, 16), 16) == (value >> 16) << 16
  {}

  lemma HighHalfByShifts(value: bv32)
    ensures value & 0xFFFF_0000 == (value >> 16) << 16
  {}

  /**
   As an unsigned number, the masked word is `value` rounded down to a
   multiple of 2^16.
   */
  lemma MaskRoundsDown(value: bv32)
    ensures Mask(value) == value - value % 0x1_0000
  {
    var r := Mask(value);
    assert r == value & 0xFFFF_0000;
  }

  // ---------------------------------------------------------------------------
  // Worked examples

  /** Bit 1 of 0b1110 is set; bit 0 of 0b0010 is not. */
  lemma GetExample()
    ensures Get(0xE, 1)
    ensures Get(0x2, 1)
    ensures !Get(0x2, 0)
  {}

  lemma GetV2Example()
    ensures GetV2(0x2, 1) == 1
    ensures GetV2(0x2, 0) == 0
  {}

  lemma SetExample()
    ensures Set(0, 3) == 0x8
    ensures Set(0x8, 3) == 0x8
  {}

  lemma ClearExample()
    ensures Clear(0xF, 0) == 0xE
  {}

  /**
   0b0010 moved left one place at a time: 0b0100, 0b1000, and so on until
   the bit falls off the top of the word and the result is 0.
   */
  lemma ShiftLeftExample()
    ensures ShiftLeftN(0x2, 1) == 0x4
    ensures ShiftLeftN(0x4, 1) == 0x8
    ensures ShiftLeftN(0x2, 2) == 0x8
    ensures ShiftLeftN(SignBit, 1) == 0
  {}

  /** Only the low five bits of the distance count: 33 shifts by 1, -1 by 31. */
  lemma ShiftDistanceExample()
    ensures ShiftLeftN(1, 33) == 2
    ensures ShiftLeftN(1, 0xFFFF_FFFF) == SignBit
  {}

  /**
   The arithmetic shift repeats the top bit: 0b1...1 >> 1 == 0b11...,
   0b01...1 >> 1 == 0b001..., and `-8 >> 1 == -4`.
   */
  lemma ShiftRightArithmeticExample()
    ensures ShiftRightArithmeticN(0x8000_0001, 1) == 0xC000_0000
    ensures ShiftRightArithmeticN(0x4000_0001, 1) == 0x2000_0000
    ensures ShiftRightArithmeticN(0xFFFF_FFF8, 1) == 0xFFFF_FFFC
    ensures ToInt(0xFFFF_FFF8) == -8 && ToInt(0xFFFF_FFFC) == -4
  {}

  /**
   The logical shift fills with 0 and drops the lowest bit:
   `-8 >>> 1 == 0x7FFF_FFFC`, a large positive number.
   */
  lemma ShiftRightLogicalExample()
    ensures ShiftRightLogicalN(0xFFFF_FFF8, 1) == 0x7FFF_FFFC
    ensures ShiftRightLogicalN(1, 1) == 0
  {}

  lemma MaskExample()
    ensures Mask(0x1234_ABCD) == 0x1234_0000
  {}
}
