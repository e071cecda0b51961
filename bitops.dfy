/**
 The nine static methods of the `Main` class (Main.java), each a single
 expression over Java's 32-bit `int`. Every operation is written the way the
 Java code computes it, and its contract says, bit by bit, what the result is.
 Position and shift arguments are whole Java `int`s: as in Java, only their
 low five bits are used, `n & 31`, so no argument is excluded.

 Where the contract needs a proof, the operation is followed by the lemmas
 that give it: `Set`, `Clear`, the shift kernels and `Mask` have one lemma
 about a single bit of the raw bit-vector expression and one lifting it to
 all 32 bits; `Get` and `GetV2` have one lemma each (`TestBitIs`,
 `LowestBit`); `ClearAll` needs none.
 */
module BitOps {
  import opened Word

  /** `get`: whether bit `p` of `value` is set, via `((1 << p) & value) != 0`. */
  function Get(value: bv32, p: bv32): (b: bool)
    ensures b == Bit(value, (p & 31) as bv5)
  {
    TestBit(value, (p & 31) as bv5)
  }

  /** The test `((1 << d) & value) != 0` for a position already in 0..31. */
  function TestBit(value: bv32, d: bv5): (b: bool)
    ensures b == Bit(value, d)
  {
    var b := (1 << d) & value != 0;
    TestBitIs(value, d, b);
    b
  }

  lemma TestBitIs(value: bv32, d: bv5, b: bool)
    requires b == ((1 << d) & value != 0)
    ensures b == Bit(value, d)
  {}

  /**
   `getV2`: bit `p` of `value` as the number 0 or 1, via `(value >> p) & 1`
   (the signed shift, as in the Java code).
   */
  function GetV2(value: bv32, p: bv32): (r: bv32)
    ensures r == if Bit(value, (p & 31) as bv5) then 1 else 0
  {
    var s := ShiftRightArithmeticN(value, p);
    LowestBit(s);
    s & 1
  }

  lemma LowestBit(x: bv32)
    ensures x & 1 == if Bit(x, 0) then 1 else 0
  {}

  /** `set`: `value` with bit `p` forced to 1, via `(1 << p) | value`. */
  function Set(value: bv32, p: bv32): (r: bv32)
    ensures var d := (p & 31) as bv5; forall i :: Bit(r, i) == (i == d || Bit(value, i))
  {
    var d := (p & 31) as bv5;
    var r := (1 << d) | value;
    SetBits(value, d, r);
    r
  }

  lemma SetBitAt(value: bv32, d: bv5, r: bv32, i: bv5)
    requires r == (1 << d) | value
    ensures Bit(r, i) == (i == d || Bit(value, i))
  {}

  lemma SetBits(value: bv32, d: bv5, r: bv32)
    requires r == (1 << d) | value
    ensures forall i :: Bit(r, i) == (i == d || Bit(value, i))
  {
    forall i ensures Bit(r, i) == (i == d || Bit(value, i)) {
      SetBitAt(value, d, r, i);
    }
  }

  /** `clearAll`: `value & 0`. */
  function ClearAll(value: bv32): (r: bv32)
    ensures r == 0
  {
    value & 0
  }

  /** `clear`: `value` with bit `pos` forced to 0, via `value & ~(1 << pos)`. */
  function Clear(value: bv32, pos: bv32): (r: bv32)
    ensures var d := (pos & 31) as bv5; forall i :: Bit(r, i) == (i != d && Bit(value, i))
  {
    var d := (pos & 31) as bv5;
    var r := value & !(1 << d);
    ClearBits(value, d, r);
    r
  }

  lemma ClearBitAt(value: bv32, d: bv5, r: bv32, i: bv5)
    requires r == value & !(1 << d)
    ensures Bit(r, i) == (i != d && Bit(value, i))
  {}

  lemma ClearBits(value: bv32, d: bv5, r: bv32)
    requires r == value & !(1 << d)
    ensures forall i :: Bit(r, i) == (i != d && Bit(value, i))
  {
    forall i ensures Bit(r, i) == (i != d && Bit(value, i)) {
      ClearBitAt(value, d, r, i);
    }
  }

  /**
   `shiftLeftN`: `value << n`. Bit `i` of the result is bit `i - n` of
   `value`; the low `n` bits are 0 and the top `n` bits of `value` are lost.
   */
  function ShiftLeftN(value: bv32, n: bv32): (r: bv32)
    ensures var d := (n & 31) as bv5; forall i :: Bit(r, i) == (i >= d && Bit(value, i - d))
  {
    ShiftLeft(value, (n & 31) as bv5)
  }

  /** The machine left shift by a distance already in 0..31. */
  function ShiftLeft(value: bv32, d: bv5): (r: bv32)
    ensures forall i :: Bit(r, i) == (i >= d && Bit(value, i - d))
  {
    var r := value << d;
    ShiftLeftBits(value, d, r);
    r
  }

  lemma ShiftLeftBitAt(value: bv32, d: bv5, r: bv32, i: bv5)
    requires r == value << d
    ensures Bit(r, i) == (i >= d && Bit(value, i - d))
  {}

  lemma ShiftLeftBits(value: bv32, d: bv5, r: bv32)
    requires r == value << d
    ensures forall i :: Bit(r, i) == (i >= d && Bit(value, i - d))
  {
    forall i ensures Bit(r, i) == (i >= d && Bit(value, i - d)) {
      ShiftLeftBitAt(value, d, r, i);
    }
  }

  /**
   `shiftRightArithmeticN`: Java's signed `value >> n`. Bit `i` of the result
   is bit `i + n` of `value`, and the `n` vacated top bits copy the sign bit.
   Dafny's `>>` on bit-vectors is the unsigned shift, so the signed one is
   built from it: a negative word is complemented, shifted and complemented
   back, which fills the vacated bits with ones.
   */
  function ShiftRightArithmeticN(value: bv32, n: bv32): (r: bv32)
    ensures var d := (n & 31) as bv5;
      forall i :: Bit(r, i) == if i <= 31 - d then Bit(value, i + d) else Bit(value, 31)
  {
    ShiftRightArithmetic(value, (n & 31) as bv5)
  }

  /** The signed right shift by a distance already in 0..31. */
  function ShiftRightArithmetic(value: bv32, d: bv5): (r: bv32)
    ensures forall i :: Bit(r, i) == if i <= 31 - d then Bit(value, i + d) else Bit(value, 31)
  {
    var r := if value & SignBit != 0 then !((!value) >> d) else value >> d;
    ShiftRightArithmeticBits(value, d, r);
    r
  }

  lemma ShiftRightNegativeBitAt(value: bv32, d: bv5, r: bv32, i: bv5)
    requires value & SignBit != 0 && r == !((!value) >> d)
    ensures Bit(r, i) == if i <= 31 - d then Bit(value, i + d) else Bit(value, 31)
  {}

  lemma ShiftRightNonNegativeBitAt(value: bv32, d: bv5, r: bv32, i: bv5)
    requires value & SignBit == 0 && r == value >> d
    ensures Bit(r, i) == if i <= 31 - d then Bit(value, i + d) else Bit(value, 31)
  {}

  lemma ShiftRightArithmeticBits(value: bv32, d: bv5, r: bv32)
    requires r == if value & SignBit != 0 then !((!value) >> d) else value >> d
    ensures forall i :: Bit(r, i) == if i <= 31 - d then Bit(value, i + d) else Bit(value, 31)
  {
    forall i ensures Bit(r, i) == if i <= 31 - d then Bit(value, i + d) else Bit(value, 31) {
      if value & SignBit != 0 {
        ShiftRightNegativeBitAt(value, d, r, i);
      } else {
        ShiftRightNonNegativeBitAt(value, d, r, i);
      }
    }
  }

  /**
   `shiftRightLogicalN`: Java's unsigned `value >>> n`. Bit `i` of the result
   is bit `i + n` of `value`, and the `n` vacated top bits are 0.
   */
  function ShiftRightLogicalN(value: bv32, n: bv32): (r: bv32)
    ensures var d := (n & 31) as bv5; forall i :: Bit(r, i) == (i <= 31 - d && Bit(value, i + d))
  {
    ShiftRightLogical(value, (n & 31) as bv5)
  }

  /** The machine (unsigned) right shift by a distance already in 0..31. */
  function ShiftRightLogical(value: bv32, d: bv5): (r: bv32)
    ensures forall i :: Bit(r, i) == (i <= 31 - d && Bit(value, i + d))
  {
    var r := value >> d;
    ShiftRightLogicalBits(value, d, r);
    r
  }

  lemma ShiftRightLogicalBitAt(value: bv32, d: bv5, r: bv32, i: bv5)
    requires r == value >> d
    ensures Bit(r, i) == (i <= 31 - d && Bit(value, i + d))
  {}

  lemma ShiftRightLogicalBits(value: bv32, d: bv5, r: bv32)
    requires r == value >> d
    ensures forall i :: Bit(r, i) == (i <= 31 - d && Bit(value, i + d))
  {
    forall i ensures Bit(r, i) == (i <= 31 - d && Bit(value, i + d)) {
      ShiftRightLogicalBitAt(value, d, r, i);
    }
  }

  /**
   The local `mask` of Main.java, written as there: `-(1 << 16)`, where 16 is
   half the width of an `int` (`Integer.BYTES * 8 / 2`).
   */
  const UpperHalf: bv32 := -(1 << 16)

  /** `mask`: `value & mask`, which keeps the upper 16 bits of `value`. */
  function Mask(value: bv32): (r: bv32)
    ensures forall i :: Bit(r, i) == (i >= 16 && Bit(value, i))
  {
    var r := value & UpperHalf;
    MaskBits(value, r);
    r
  }

  lemma MaskBitAt(value: bv32, r: bv32, i: bv5)
    requires r == value & UpperHalf
    ensures Bit(r, i) == (i >= 16 && Bit(value, i))
  {}

  lemma MaskBits(value: bv32, r: bv32)
    requires r == value & UpperHalf
    ensures forall i :: Bit(r, i) == (i >= 16 && Bit(value, i))
  {
    forall i ensures Bit(r, i) == (i >= 16 && Bit(value, i)) {
      MaskBitAt(value, r, i);
    }
  }
}
