/**
 * Object pointers of the Smalltalk-80 object memory.
 *
 * An oop is a 16-bit word. An odd oop is a small integer stored directly in
 * the pointer (the value n is kept as 2n+1 modulo 2^16, i.e. shifted left by
 * one with the tag bit set); an even oop names an entry of the object table.
 * Oop 0 is reserved and never names an object.
 */
module Oop {

  /** A 16-bit unsigned word (quint16). */
  type Word = w: int | 0 <= w < 0x1_0000

  /** An 8-bit unsigned byte (quint8). */
  type Byte = b: int | 0 <= b < 0x100

  /** The values a small-integer oop can carry: 15-bit two's complement. */
  type SmallInt = n: int | -0x4000 <= n < 0x4000

  /** isPointer: an even oop is a reference into the object table. */
  predicate IsPointer(oop: Word)
  {
    oop % 2 == 0
  }

  /** The small-integer encoding: n is stored as (2n+1) mod 2^16. */
  function FromInt(n: SmallInt): (oop: Word)
    ensures !IsPointer(oop)
    ensures n >= 0 <==> oop < 0x8000
  {
    (2 * n + 1) % 0x1_0000
  }

  /**
   * toInt: the oop read as a signed 16-bit value (qint16), then shifted right
   * arithmetically by one. Dafny's `/` by a positive divisor rounds towards
   * negative infinity, which is what the arithmetic shift does.
   */
  function ToInt(oop: Word): (n: SmallInt)
    requires !IsPointer(oop)
    ensures FromInt(n) == oop
  {
    var signed := if oop < 0x8000 then oop else oop - 0x1_0000;
    assert signed == 2 * (signed / 2) + 1;
    signed / 2
  }

  /** Decoding an encoded small integer gives back the integer. */
  lemma ToIntFromInt(n: SmallInt)
    ensures ToInt(FromInt(n)) == n
  {
    var oop := FromInt(n);
    if n >= 0 {
      assert oop == 2 * n + 1;
    } else {
      assert oop == 2 * n + 1 + 0x1_0000;
    }
  }

  /**
   * The parity test separates the two kinds of oop exactly: an oop is a
   * pointer if and only if it is not the encoding of any small integer.
   */
  lemma PointerIffNotSmallInteger(oop: Word)
    ensures IsPointer(oop) <==> forall n: SmallInt :: FromInt(n) != oop
  {
    if !IsPointer(oop) {
      assert FromInt(ToInt(oop)) == oop;
    }
  }

  /** Distinct small integers have distinct oops (the encoding is injective). */
  lemma FromIntInjective(m: SmallInt, n: SmallInt)
    requires FromInt(m) == FromInt(n)
    ensures m == n
  {
    ToIntFromInt(m);
    ToIntFromInt(n);
  }
}
