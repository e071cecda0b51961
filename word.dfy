/**
 A Java `int` is a 32-bit two's-complement word. This module models it as a
 `bv32` bit pattern and gives the two views the operations are specified in:
 the individual bits (`Bit`) and the signed number the pattern stands for
 (`ToInt`). Bit positions are `bv5` values, so a position is always one of
 0..31.
 */
module Word {

  /** The sign bit of a Java `int`. */
  const SignBit: bv32 := 0x8000_0000

  /** Bit `i` of `x` (position 0 is the least significant bit). */
  predicate Bit(x: bv32, i: bv5) {
    (x >> i) & 1 == 1
  }

  /**
   The distance a Java shift by `n` actually moves is `n & 31`: only the low
   five bits of `n` are used (section 15.19 of the Java Language
   Specification), so every `int`, negative ones included, names one of the
   positions 0..31. Read as an unsigned number, that distance is `n` modulo 32.
   */
  lemma DistanceIsRemainder(n: bv32)
    ensures ((n & 31) as bv5) as bv32 == n % 32
  {}

  /** The number a Java `int` bit pattern stands for. */
  function ToInt(x: bv32): int {
    if x < SignBit then x as int else x as int - 0x1_0000_0000
  }

  lemma ToIntAtLeastMin(x: bv32)
    ensures ToInt(x) >= -0x8000_0000
  {}

  lemma ToIntBelowMax(x: bv32)
    ensures ToInt(x) < 0x8000_0000
  {}

  lemma NegativeWhenSignBit(x: bv32)
    requires Bit(x, 31)
    ensures ToInt(x) < 0
  {}

  lemma NonNegativeWithoutSignBit(x: bv32)
    requires !Bit(x, 31)
    ensures ToInt(x) >= 0
  {}

  /** Every pattern stands for an `int` in [-2^31, 2^31). */
  lemma ToIntRange(x: bv32)
    ensures -0x8000_0000 <= ToInt(x) < 0x8000_0000
  {
    ToIntAtLeastMin(x);
    ToIntBelowMax(x);
  }

  /** An `int` is negative exactly when its sign bit (bit 31) is set. */
  lemma NegativeIffSignBit(x: bv32)
    ensures ToInt(x) < 0 <==> Bit(x, 31)
  {
    if Bit(x, 31) {
      NegativeWhenSignBit(x);
    } else {
      NonNegativeWithoutSignBit(x);
    }
  }

  /** If `z` has no bit set, then the low `k + 1` bits of `z` are 0. */
  lemma {:induction false} NoBitsBelow(z: bv32, k: bv5)
    requires forall i :: !Bit(z, i)
    ensures z << (31 - k) == 0
    decreases k
  {
    assert !Bit(z, k);
    if k > 0 {
      NoBitsBelow(z, k - 1);
    }
  }

  lemma XorBit(x: bv32, y: bv32, i: bv5)
    ensures Bit(x ^ y, i) == (Bit(x, i) != Bit(y, i))
  {}

  /**
   A word is determined by its 32 bits. This is what makes the bit-by-bit
   contracts of the operations complete descriptions of their results.
   */
  lemma BitsDetermine(x: bv32, y: bv32)
    requires forall i :: Bit(x, i) == Bit(y, i)
    ensures x == y
  {
    var z := x ^ y;
    forall i ensures !Bit(z, i) {
      XorBit(x, y, i);
    }
    NoBitsIsZero(z);
    XorZero(x, y);
  }

  /** A word with no bit set is 0. */
  lemma NoBitsIsZero(z: bv32)
    requires forall i :: !Bit(z, i)
    ensures z == 0
  {
    NoBitsBelow(z, 31);
    assert z == z << 0;
  }

  lemma XorZero(x: bv32, y: bv32)
    requires x ^ y == 0
    ensures x == y
  {}
}
