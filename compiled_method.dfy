/**
 * The header word of a compiled method and its header extension, after
 * "Compiled Methods" in chapter 27 of Smalltalk-80: The Language and Its
 * Implementation. Bits are numbered there from 0 (most significant) to 15
 * (least significant, the small-integer tag):
 *
 *   header:     flag value 0-2 | temporary count 3-7 | large context 8 |
 *               literal count 9-14 | tag 15
 *   extension:  unused 0-1 | argument count 2-6 | primitive index 7-14 | tag 15
 *
 * Both words are small integers, so their tag bit is always set.
 */
module CompiledMethod {
  import opened Oop

  type Bits3 = x: int | 0 <= x < 8
  type Bits5 = x: int | 0 <= x < 32
  type Bits6 = x: int | 0 <= x < 64

  /** The kinds of method a header's 3-bit flag value can name. */
  datatype Flags =
    | ZeroArguments
    | OneArgument
    | TwoArguments
    | ThreeArguments
    | FourArguments
    /** A primitive answering the receiver; the method has no bytecode. */
    | ZeroArgPrimitiveReturnSelf
    /** A primitive answering an instance variable of the receiver, whose
        index is the temporary count; the method has no bytecode. */
    | ZeroArgPrimitiveReturnVar
    /** Argument count and primitive index are in the header extension. */
    | HeaderExtension

  /** The numeric value of each flag kind. */
  function FlagsValue(f: Flags): Bits3
  {
    match f
    case ZeroArguments => 0
    case OneArgument => 1
    case TwoArguments => 2
    case ThreeArguments => 3
    case FourArguments => 4
    case ZeroArgPrimitiveReturnSelf => 5
    case ZeroArgPrimitiveReturnVar => 6
    case HeaderExtension => 7
  }

  /** The flag kind of a 3-bit flag value: every value names exactly one kind. */
  function FlagsOf(v: Bits3): (f: Flags)
    ensures FlagsValue(f) == v
  {
    match v
    case 0 => ZeroArguments
    case 1 => OneArgument
    case 2 => TwoArguments
    case 3 => ThreeArguments
    case 4 => FourArguments
    case 5 => ZeroArgPrimitiveReturnSelf
    case 6 => ZeroArgPrimitiveReturnVar
    case 7 => HeaderExtension
  }

  lemma FlagsOfValue(f: Flags)
    ensures FlagsOf(FlagsValue(f)) == f
  {
  }

  /** Flags 5 and 6 mark methods answered from the header, with no bytecode. */
  predicate HasBytecodes(f: Flags)
  {
    f != ZeroArgPrimitiveReturnSelf && f != ZeroArgPrimitiveReturnVar
  }

  /**
   * The argument count a flag value gives by itself: flags 0 to 4 are the
   * count, flags 5 and 6 are zero-argument primitives; flag 7 defers to the
   * header extension.
   */
  function FlagArgumentCount(f: Flags): (n: Bits3)
    requires f != HeaderExtension
    ensures n <= 4
    ensures !HasBytecodes(f) ==> n == 0
    ensures FlagsValue(f) < 5 ==> n == FlagsValue(f)
  {
    if FlagsValue(f) < 5 then FlagsValue(f) else 0
  }

  /** The decoded fields of a method header word. */
  datatype MethodHeader = MethodHeader(
    flags: Flags,
    temporaryCount: Bits5,  // includes the arguments
    largeContext: bool,
    literalCount: Bits6)

  /** The fields of a header extension (a literal of a flag-7 method). */
  datatype Extension = Extension(argumentCount: Bits5, primitiveIndex: Byte)

  /** Packs a header into its small-integer word. */
  function EncodeHeader(h: MethodHeader): (w: Word)
    ensures !IsPointer(w)
  {
    FlagsValue(h.flags) * 0x2000 + h.temporaryCount * 0x100
      + (if h.largeContext then 0x80 else 0) + h.literalCount * 2 + 1
  }

  /** Unpacks a header word, field by field from the least significant end. */
  function DecodeHeader(w: Word): MethodHeader
    requires !IsPointer(w)
  {
    var literals := w / 2;
    var large := literals / 0x40;
    var temps := large / 2;
    MethodHeader(FlagsOf(temps / 0x20), temps % 0x20, large % 2 == 1, literals % 0x40)
  }

  lemma DecodeEncodeHeader(h: MethodHeader)
    ensures DecodeHeader(EncodeHeader(h)) == h
  {
    var f: int, t: int, l: int, c: int := FlagsValue(h.flags), h.temporaryCount, if h.largeContext then 1 else 0, h.literalCount;
    var w := EncodeHeader(h);
    assert w / 2 == f * 0x1000 + t * 0x80 + l * 0x40 + c;
    assert w / 2 / 0x40 == f * 0x40 + t * 2 + l;
    assert w / 2 / 0x40 / 2 == f * 0x20 + t;
  }

  lemma EncodeDecodeHeader(w: Word)
    requires !IsPointer(w)
    ensures EncodeHeader(DecodeHeader(w)) == w
  {
    var literals := w / 2;
    var large := literals / 0x40;
    var temps := large / 2;
    assert w == literals * 2 + 1;
    assert literals == large * 0x40 + literals % 0x40;
    assert large == temps * 2 + large % 2;
    assert temps == (temps / 0x20) * 0x20 + temps % 0x20;
  }

  /** Packs a header extension into its small-integer word. */
  function EncodeExtension(e: Extension): (w: Word)
    ensures !IsPointer(w)
    ensures w < 0x4000  // bits 0 and 1 are unused
  {
    e.argumentCount * 0x200 + e.primitiveIndex * 2 + 1
  }

  function DecodeExtension(w: Word): Extension
    requires !IsPointer(w)
  {
    var primitive := w / 2;
    Extension((primitive / 0x100) % 0x20, primitive % 0x100)
  }

  lemma DecodeEncodeExtension(e: Extension)
    ensures DecodeExtension(EncodeExtension(e)) == e
  {
    var w := EncodeExtension(e);
    assert w / 2 == e.argumentCount * 0x100 + e.primitiveIndex;
    assert w / 2 / 0x100 == e.argumentCount;
  }

  /** Every extension word whose two unused bits are clear is an encoding. */
  lemma EncodeDecodeExtension(w: Word)
    requires !IsPointer(w) && w < 0x4000
    ensures EncodeExtension(DecodeExtension(w)) == w
  {
    var primitive := w / 2;
    assert w == primitive * 2 + 1;
    assert primitive == (primitive / 0x100) * 0x100 + primitive % 0x100;
    assert primitive / 0x100 < 0x20;
  }
}
