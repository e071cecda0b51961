# Common bit operations on a Java `int`, in Dafny

The program is one Java class, `Main`, with nine static methods. Each one is a
single expression over a 32-bit two's-complement `int`:

- two ways to read bit `p`: `get` gives a boolean, `getV2` gives 0 or 1;
- `set`, `clear` and `clearAll` write bits;
- `shiftLeftN`, `shiftRightArithmeticN` and `shiftRightLogicalN` are the three
  Java shifts;
- `mask` keeps the upper 16 bits.

This project models each method as a Dafny function of the same shape. Each
function's contract says, bit by bit, what the result is. Lemmas then relate
the operations to one another.

Files:

- `word.dfy` (module `Word`) holds the model of an `int`: a `bv32` bit
  pattern, its bits `Bit(x, i)` for positions `i: bv5` (0..31), and the signed
  number `ToInt(x)` it stands for. `BitsDetermine` proves that a word is fixed
  by its 32 bits, so the bit-by-bit contracts describe each result completely.
- `bitops.dfy` (module `BitOps`) holds the nine operations. Each is written
  with the same operators as the Java code.
  - The shifts are built on kernels (`ShiftLeft`, `ShiftRightArithmetic`,
    `ShiftRightLogical`) that take a distance already in 0..31.
  - Dafny's `>>` on bit-vectors is the unsigned shift. Java's signed `>>` is
    therefore written out: complement, shift, complement back.
- `properties.dfy` (module `BitOpsProperties`) holds the relations between the
  operations.
  - `getV2` agrees with `get`.
  - `set` and `clear` put bit `p` in one state and leave every other bit alone.
    Both are idempotent, and each undoes the other at bit `p`.
  - Logically shifting right by `n` after shifting left by `n` keeps the low
    bits and clears the top `n`.
  - The arithmetic right shift keeps the sign. The logical one does not.
  - The mask is `0xFFFF_0000`, masking is idempotent, and it equals shifting
    the lower half out and back.
  - The worked examples in the source's comments are lemmas too.

Position and shift arguments are whole `int`s. As in Java (section 15.19 of
the Java Language Specification), only their low five bits are used: every
contract is stated for the distance `d = (n & 31) as bv5`. No argument is
excluded by a precondition. A shift by 33 moves by 1, and a shift by -1 moves
by 31 (`ShiftDistanceExample`). One could instead treat positions outside
0..31 as undefined input. The model follows the masking that the Java
operators actually perform.

## Model

| member | source | states |
|---|---|---|
| `BitOps.Get` | Main.java:14-16 | the result is true exactly when bit `p & 31` of `value` is 1 |
| `BitOps.TestBit` | Main.java:15 | `((1 << d) & value) != 0` is true exactly when bit `d` of `value` is 1, for a distance `d` already in 0..31 |
| `BitOps.GetV2` | Main.java:26-28 | the result is 1 when bit `p & 31` of `value` is 1 and 0 otherwise, although it is computed with the signed shift |
| `BitOps.Set` | Main.java:40-42 | bit `p & 31` of the result is 1; every other bit is the bit of `value` |
| `BitOps.ClearAll` | Main.java:57-59 | the result is 0 for every `value` |
| `BitOps.Clear` | Main.java:66-68 | bit `pos & 31` of the result is 0; every other bit is the bit of `value` |
| `BitOps.ShiftLeftN` | Main.java:102-104 | bit `i` of the result is bit `i - d` of `value` for `i >= d`, and the low `d` bits are 0, so the top `d` bits of `value` are lost |
| `BitOps.ShiftLeft` | Main.java:103 | the same contract for a distance `d` already in 0..31 |
| `BitOps.ShiftRightArithmeticN` | Main.java:109-111 | bit `i` of the result is bit `i + d` of `value` for `i <= 31 - d`, and the `d` vacated top bits are copies of bit 31 |
| `BitOps.ShiftRightArithmetic` | Main.java:110 | the same contract for a distance `d` already in 0..31 |
| `BitOps.ShiftRightLogicalN` | Main.java:116-118 | bit `i` of the result is bit `i + d` of `value` for `i <= 31 - d`, and the `d` vacated top bits are 0 |
| `BitOps.ShiftRightLogical` | Main.java:117 | the same contract for a distance `d` already in 0..31 |
| `BitOps.Mask` | Main.java:127-133 | the low 16 bits of the result are 0 and the upper 16 are those of `value` |
| `Word.DistanceIsRemainder` | Main.java:102-104 | the distance a Java shift uses, `n & 31`, is `n` modulo 32 |
| `Word.NegativeIffSignBit` | Main.java:90-96 | an `int` is negative exactly when its most significant bit is 1 |
| `BitOpsProperties.GetV2AgreesWithGet` | Main.java:18-28 | `getV2` is 1 when `get` is true and 0 when it is false |
| `BitOpsProperties.GetAfterSet` | Main.java:30-42 | after `set(value, p)` bit `p` reads as set |
| `BitOpsProperties.SetKeepsOtherBits` | Main.java:30-42 | `set(value, p)` reads the same as `value` at every other position |
| `BitOpsProperties.SetIdempotent` | Main.java:33-38 | setting twice is setting once |
| `BitOpsProperties.SetWhenSet` | Main.java:33-35 | if bit `p` is 1 already, `set(value, p)` is `value` (1 remains 1) |
| `BitOpsProperties.SetIgnoresOldBit` | Main.java:33-38 | whether bit `p` was 0 or 1 does not affect `set(value, p)` |
| `BitOpsProperties.GetAfterClear` | Main.java:61-68 | after `clear(value, p)` bit `p` reads as clear |
| `BitOpsProperties.ClearKeepsOtherBits` | Main.java:61-68 | `clear(value, p)` reads the same as `value` at every other position |
| `BitOpsProperties.ClearIdempotent` | Main.java:61-68 | clearing twice is clearing once |
| `BitOpsProperties.ClearWhenClear` | Main.java:61-68 | if bit `p` is 0 already, `clear(value, p)` is `value` |
| `BitOpsProperties.ClearIgnoresOldBit` | Main.java:61-68 | whether bit `p` was 0 or 1 does not affect `clear(value, p)` |
| `BitOpsProperties.SetAfterClear` | Main.java:40-68 | `set(clear(value, p), p) == set(value, p)`: the result differs from `value` at most in bit `p`, which is 1 |
| `BitOpsProperties.ClearAfterSet` | Main.java:40-68 | `clear(set(value, p), p) == clear(value, p)` |
| `BitOpsProperties.SetClearRestores` | Main.java:40-68 | if bit `p` was 1, clearing it and setting it again gives back `value` |
| `BitOpsProperties.ClearAllClearsEveryBit` | Main.java:44-59 | no bit of `clearAll(value)` is set |
| `BitOpsProperties.ShiftLeftIsMultiplication` | Main.java:70-82 | `value << n` equals `value * 2^(n & 31)` in 32-bit wrapping arithmetic |
| `BitOpsProperties.ShiftLeftThenRightLogical` | Main.java:79-88 | bit `i` of `(value << n) >>> n` is bit `i` of `value` for `i <= 31 - d` and 0 above |
| `BitOpsProperties.ShiftRoundTripIsLowBits` | Main.java:79-88 | `(value << n) >>> n == value & (0xFFFF_FFFF >>> n)` |
| `BitOpsProperties.ShiftRightArithmeticKeepsSignBit` | Main.java:90-96 | the signed right shift leaves bit 31 as it was |
| `BitOpsProperties.ShiftRightArithmeticKeepsSign` | Main.java:106-111 | `value >> n` is negative exactly when `value` is |
| `BitOpsProperties.ShiftRightOfNonNegative` | Main.java:84-96 | on a non-negative `int`, `>>` and `>>>` give the same result |
| `BitOpsProperties.ShiftRightOfNegative` | Main.java:84-96 | on a negative `int` and a distance other than 0, `>>` gives a negative result and `>>>` a non-negative one |
| `BitOpsProperties.ShiftRightLogicalClearsSignBit` | Main.java:84-88 | after `>>>` by a distance other than 0, bit 31 is 0 |
| `BitOpsProperties.ShiftRightArithmeticBy31` | Main.java:90-96 | `value >> 31` is -1 for a negative `value` and 0 otherwise |
| `BitOpsProperties.UpperHalfIsHighOnes` | Main.java:128 | `-(1 << 16)` is `0xFFFF_0000`, the pattern in the comment |
| `BitOpsProperties.MaskIdempotent` | Main.java:120-133 | masking twice is masking once |
| `BitOpsProperties.MaskIsShiftRoundTrip` | Main.java:124-133 | `mask(value) == (value >>> 16) << 16` |
| `BitOpsProperties.MaskRoundsDown` | Main.java:124-133 | as an unsigned number, `mask(value)` is `value` rounded down to a multiple of 2^16 |
| `BitOpsProperties.GetExample` | Main.java:6-11 | `get(0b1110, 1)` and `get(0b0010, 1)` are true; `get(0b0010, 0)` is false |
| `BitOpsProperties.GetV2Example` | Main.java:18-28 | `getV2(0b0010, 1) == 1` and `getV2(0b0010, 0) == 0` |
| `BitOpsProperties.SetExample` | Main.java:30-42 | `set(0, 3) == 0b1000`, and setting that bit again changes nothing |
| `BitOpsProperties.ClearExample` | Main.java:61-68 | `clear(0b1111, 0) == 0b1110` |
| `BitOpsProperties.ShiftLeftExample` | Main.java:73-82 | `0b0010 << 1 == 0b0100`, `0b0100 << 1 == 0b1000`, `0b0010 << 2 == 0b1000`, and the most significant bit is discarded |
| `BitOpsProperties.ShiftDistanceExample` | Main.java:102-104 | `1 << 33 == 2` and `1 << -1 == 0x8000_0000` |
| `BitOpsProperties.ShiftRightArithmeticExample` | Main.java:93-96 | `0b1...1 >> 1 == 0b11...`, `0b01...1 >> 1 == 0b001...`, and `-8 >> 1 == -4` |
| `BitOpsProperties.ShiftRightLogicalExample` | Main.java:84-88 | `-8 >>> 1 == 0x7FFF_FFFC`, and the lowest bit is discarded |
| `BitOpsProperties.MaskExample` | Main.java:127-133 | `mask(0x1234ABCD) == 0x12340000` |

Two declarations carry no contract of their own and have no row. The
constant `BitOps.UpperHalf` (Main.java:128) is described by the rows of
`UpperHalfIsHighOnes` and `Mask`. The signed reading `Word.ToInt` is
described by the rows of `NegativeIffSignBit` and the sign lemmas of the
right shifts.

## Left out

- Nothing in `Main` does I/O or keeps state, so nothing of that kind is left out.
- The half-width `Integer.BYTES * 8 / 2` in `mask` is folded into its value, 16.
- The comments at Main.java:73-77 draw the left shift on a 4-bit word, where
  `1000 << 1` is `0000`. On a 32-bit `int`, bit 3 moves to bit 4. A bit is
  lost only when it is shifted past bit 31 (`ShiftLeftExample`).
- BitOps.ShiftRightArithmeticN: the contract does not state the numeric
  reading `ToInt(value >> n) == floor(ToInt(value) / 2^n)`. The source
  describes `>>` only as moving bits right and copying the sign bit
  (Main.java:89-96), and that is what the contract states. A proof through
  the signed number would convert `bv32` to `int` across a symbolic shift,
  and even one halving step of that is beyond the solver's resource limit.
