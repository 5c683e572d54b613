/**
 * The objects known to the interpreter: fixed oops defined by the image
 * format, referred to by name instead of by number.
 */
module KnownObjects {
  import opened Oop

  // small integers
  const OBJECT_MINUS_ONE: Word := 65535
  const OBJECT_ZERO: Word := 1
  const OBJECT_ONE: Word := 3
  const OBJECT_TWO: Word := 5

  // undefined, boolean
  const OBJECT_NIL: Word := 0x02
  const OBJECT_FALSE: Word := 0x04
  const OBJECT_TRUE: Word := 0x06

  // root
  /** An Association whose value field is Processor. */
  const PROCESSOR: Word := 0x08
  /** An Association whose value field is the system dictionary. */
  const SMALLTALK: Word := 0x12

  // classes
  const CLASS_SMALL_INTEGER: Word := 0x0c
  const CLASS_STRING: Word := 0x0e
  const CLASS_ARRAY: Word := 0x10
  const CLASS_FLOAT: Word := 0x14
  const CLASS_METHOD_CONTEXT: Word := 0x16
  const CLASS_BLOCK_CONTEXT: Word := 0x18
  const CLASS_POINT: Word := 0x1a
  const CLASS_LARGE_POSITIVE_INTEGER: Word := 0x1c
  const CLASS_DISPLAY_BITMAP: Word := 0x1e
  const CLASS_MESSAGE: Word := 0x20
  const CLASS_COMPILED_METHOD: Word := 0x22
  const CLASS_SEMAPHORE: Word := 0x26
  const CLASS_CHARACTER: Word := 0x28

  // symbols
  /** The symbol class variable USTable. */
  const SYMBOL_TABLE: Word := 0x0a
  const SYMBOL_DOES_NOT_UNDERSTAND: Word := 0x2a
  const SYMBOL_CANNOT_RETURN: Word := 0x2c
  const SYMBOL_MONITOR: Word := 0x2e
  const SYMBOL_UNUSED_OOP18: Word := 0x24
  const SYMBOL_MUST_BE_BOOLEAN: Word := 0x34

  // selectors
  /** The array of selectors for the special-send bytecodes (octal 260-317). */
  const SPECIAL_SELECTORS: Word := 0x30
  /** The table of characters, a class variable of Character. */
  const CHARACTER_TABLE: Word := 0x32

  // extra knowns
  const CLASS_SYMBOL: Word := 0x38

  /** Every known object that is a reference rather than a small integer. */
  const KNOWN_REFERENCES: seq<Word> := [
    OBJECT_NIL, OBJECT_FALSE, OBJECT_TRUE, PROCESSOR, SMALLTALK,
    CLASS_SMALL_INTEGER, CLASS_STRING, CLASS_ARRAY, CLASS_FLOAT,
    CLASS_METHOD_CONTEXT, CLASS_BLOCK_CONTEXT, CLASS_POINT,
    CLASS_LARGE_POSITIVE_INTEGER, CLASS_DISPLAY_BITMAP, CLASS_MESSAGE,
    CLASS_COMPILED_METHOD, CLASS_SEMAPHORE, CLASS_CHARACTER,
    SYMBOL_TABLE, SYMBOL_DOES_NOT_UNDERSTAND, SYMBOL_CANNOT_RETURN,
    SYMBOL_MONITOR, SYMBOL_UNUSED_OOP18, SYMBOL_MUST_BE_BOOLEAN,
    SPECIAL_SELECTORS, CHARACTER_TABLE, CLASS_SYMBOL
  ]

  /** The four small-integer constants are the encodings of -1, 0, 1 and 2. */
  lemma SmallIntegerConstants()
    ensures FromInt(-1) == OBJECT_MINUS_ONE && ToInt(OBJECT_MINUS_ONE) == -1
    ensures FromInt(0) == OBJECT_ZERO && ToInt(OBJECT_ZERO) == 0
    ensures FromInt(1) == OBJECT_ONE && ToInt(OBJECT_ONE) == 1
    ensures FromInt(2) == OBJECT_TWO && ToInt(OBJECT_TWO) == 2
  {
  }

  /**
   * The other known objects are distinct, nonzero references: none of them is
   * the reserved oop 0 and none is a small integer.
   */
  lemma KnownReferencesArePointers()
    ensures forall k :: 0 <= k < |KNOWN_REFERENCES| ==>
      KNOWN_REFERENCES[k] != 0 && IsPointer(KNOWN_REFERENCES[k])
    ensures forall j, k :: 0 <= j < k < |KNOWN_REFERENCES| ==>
      KNOWN_REFERENCES[j] != KNOWN_REFERENCES[k]
  {
  }
}
