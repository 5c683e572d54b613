/**
 * The object memory: an object table and an object space owned together by
 * one ObjectMemory. Reads are functions of the two fields; stores change the
 * space in place; allocation appends to the space and fills a table slot.
 * Regions never move: no operation changes the data of an existing entry.
 */
module Memory {
  import opened Oop
  import opened KnownObjects
  import opened CompiledMethod
  import opened ObjectTable

  // Field indices of a class object.
  const CI_SUPER_CLASS: Word := 0
  /** Points to a MessageDictionary. */
  const CI_MESSAGE_DICT: Word := 1
  const CI_INSTANCE_SPEC: Word := 2

  class ObjectMemory {
    /** One entry per even oop; slot 0 belongs to the reserved oop 0. */
    var objectTable: seq<Entry>
    /** Every object's region, back to back; no unused or free space. */
    var objectSpace: seq<Byte>

    ghost predicate Valid()
      reads this
    {
      TableValid(objectTable, |objectSpace|)
    }

    /** An empty memory: only the reserved slot of oop 0, no objects. */
    constructor ()
      ensures Valid()
      ensures objectTable == [Free] && objectSpace == []
    {
      objectTable := [Free];
      objectSpace := [];
    }

    /**
     * getDataOf: where the object lives. With noHeader the data describes
     * the field bytes that follow the header; without, the whole object.
     */
    function GetDataOf(oop: Word, noHeader: bool := true): (d: Data)
      reads this
      requires Valid() && IsValidOop(objectTable, oop)
      ensures d.pos + d.len <= |objectSpace|
      ensures d.isPtr == objectTable[oop / 2].data.isPtr
      ensures noHeader ==> d.pos == objectTable[oop / 2].data.pos + HEADER_SIZE
      ensures noHeader ==> RegionEnd(d) == RegionEnd(objectTable[oop / 2].data)
      ensures noHeader ==> d.len == objectTable[oop / 2].data.len - HEADER_SIZE
      ensures !noHeader ==> d == objectTable[oop / 2].data
    {
      var e := objectTable[oop / 2].data;
      if noHeader then Data(e.pos + HEADER_SIZE, e.len - HEADER_SIZE, e.isPtr) else e
    }

    /** The number of field bytes of an object. */
    function ByteSize(oop: Word): nat
      reads this
      requires Valid() && IsValidOop(objectTable, oop)
    {
      GetDataOf(oop, true).len
    }

    /** The number of field words: the bytes, with an odd last byte padded. */
    function WordSize(oop: Word): (n: nat)
      reads this
      requires Valid() && IsValidOop(objectTable, oop)
      ensures ByteSize(oop) <= 2 * n <= ByteSize(oop) + 1
    {
      (ByteSize(oop) + 1) / 2
    }

    /** Whether the object's fields are pointers, as its table entry records. */
    function HasPointerMembers(oop: Word): (b: bool)
      reads this
      requires Valid() && IsValidOop(objectTable, oop)
      ensures b == objectTable[oop / 2].data.isPtr
    {
      GetDataOf(oop, true).isPtr
    }

    /** Word (or pointer) field fieldIndex of the object, counting from 0. */
    function FetchWordOfObject(fieldIndex: Word, oop: Word): Word
      reads this
      requires Valid() && IsValidOop(objectTable, oop) && fieldIndex < WordSize(oop)
    {
      WordAt(objectSpace, GetDataOf(oop, true).pos + 2 * fieldIndex)
    }

    /** Pointer fields are stored as words, so they read the same way. */
    function FetchPointerOfObject(fieldIndex: Word, oop: Word): Word
      reads this
      requires Valid() && IsValidOop(objectTable, oop) && fieldIndex < WordSize(oop)
    {
      FetchWordOfObject(fieldIndex, oop)
    }

    function FetchByteOfObject(byteIndex: Word, oop: Word): Byte
      reads this
      requires Valid() && IsValidOop(objectTable, oop) && byteIndex < ByteSize(oop)
    {
      objectSpace[GetDataOf(oop, true).pos + byteIndex]
    }

    /** getClassOf: the class word of the object's header. */
    function GetClassOf(oop: Word): Word
      reads this
      requires Valid() && IsValidOop(objectTable, oop)
    {
      WordAt(objectSpace, GetDataOf(oop, false).pos + CLASS_OFFSET)
    }

    /** fetchClassOf: SmallInteger for a small integer, else the header's class. */
    function FetchClassOf(oop: Word): Word
      reads this
      requires Valid() && (IsPointer(oop) ==> IsValidOop(objectTable, oop))
    {
      if IsPointer(oop) then GetClassOf(oop) else CLASS_SMALL_INTEGER
    }

    /** fetchByteLenghtOf: the byte count as a 16-bit result. */
    function FetchByteLengthOf(oop: Word): (n: Word)
      reads this
      requires Valid() && IsValidOop(objectTable, oop)
      ensures ByteSize(oop) < 0x1_0000 ==> n == ByteSize(oop)
    {
      ByteSize(oop) % 0x1_0000
    }

    /** fetchWordLenghtOf: the word count as a 16-bit result. */
    function FetchWordLengthOf(oop: Word): (n: Word)
      reads this
      requires Valid() && IsValidOop(objectTable, oop)
      ensures ByteSize(oop) < 0x1_0000 ==> ByteSize(oop) <= 2 * n <= ByteSize(oop) + 1
      ensures WordSize(oop) < 0x1_0000 ==> n == WordSize(oop)
    {
      WordSize(oop) % 0x1_0000
    }

    /** fetchByteString: a copy of the object's field bytes. */
    function FetchByteString(oop: Word): (s: seq<Byte>)
      reads this
      requires Valid() && IsValidOop(objectTable, oop)
      ensures |s| == ByteSize(oop)
      ensures forall k: Word :: k < |s| ==> s[k] == FetchByteOfObject(k, oop)
      ensures forall k :: 0 <= k < |s| ==> s[k] == objectSpace[GetDataOf(oop, true).pos + k]
      ensures |s| < 0x1_0000 ==> |s| == FetchByteLengthOf(oop)
    {
      var d := GetDataOf(oop, true);
      objectSpace[d.pos..d.pos + d.len]
    }

    /** getAllValidOop: every oop that names an object, in increasing order. */
    method GetAllValidOop() returns (oops: seq<Word>)
      requires Valid()
      ensures forall oop: Word :: oop in oops <==> IsValidOop(objectTable, oop)
      ensures forall j, k :: 0 <= j < k < |oops| ==> oops[j] < oops[k]
    {
      oops := [];
      var k := 1;
      while k < |objectTable|
        invariant 1 <= k <= |objectTable|
        invariant forall oop: Word :: oop in oops <==> IsValidOop(objectTable, oop) && oop / 2 < k
        invariant forall j :: 0 <= j < |oops| ==> oops[j] < 2 * k
        invariant forall i, j :: 0 <= i < j < |oops| ==> oops[i] < oops[j]
      {
        if objectTable[k].Used? {
          oops := oops + [2 * k];
        }
        k := k + 1;
      }
    }

    /** storeWordOfObject: overwrite one word field in place. */
    method StoreWordOfObject(fieldIndex: Word, oop: Word, withValue: Word)
      requires Valid() && IsValidOop(objectTable, oop) && fieldIndex < WordSize(oop)
      modifies this
      ensures Valid()
      ensures objectTable == old(objectTable)
      ensures objectSpace == WithWord(old(objectSpace), GetDataOf(oop, true).pos + 2 * fieldIndex, withValue)
      ensures FetchWordOfObject(fieldIndex, oop) == withValue
      ensures forall o: Word, j: Word ::
        IsValidOop(objectTable, o) && j < WordSize(o) && (o != oop || j != fieldIndex) ==>
          FetchWordOfObject(j, o) == old(FetchWordOfObject(j, o))
      ensures forall o: Word :: IsValidOop(objectTable, o) ==> GetClassOf(o) == old(GetClassOf(o))
    {
      var p := GetDataOf(oop, true).pos + 2 * fieldIndex;
      objectSpace := WithWord(objectSpace, p, withValue);
      forall o: Word, j: Word | IsValidOop(objectTable, o) && j < WordSize(o) && (o != oop || j != fieldIndex)
        ensures FetchWordOfObject(j, o) == old(FetchWordOfObject(j, o))
      {
        if o != oop {
          assert Disjoint(objectTable[o / 2].data, objectTable[oop / 2].data);
        }
      }
      forall o: Word | IsValidOop(objectTable, o)
        ensures GetClassOf(o) == old(GetClassOf(o))
      {
        if o != oop {
          assert Disjoint(objectTable[o / 2].data, objectTable[oop / 2].data);
        }
      }
    }

    /** storePointerOfObject: pointer fields are words (no reference counting). */
    method StorePointerOfObject(fieldIndex: Word, oop: Word, withValue: Word)
      requires Valid() && IsValidOop(objectTable, oop) && fieldIndex < WordSize(oop)
      modifies this
      ensures Valid()
      ensures objectTable == old(objectTable)
      ensures objectSpace == WithWord(old(objectSpace), GetDataOf(oop, true).pos + 2 * fieldIndex, withValue)
      ensures FetchPointerOfObject(fieldIndex, oop) == withValue
      ensures forall o: Word, j: Word ::
        IsValidOop(objectTable, o) && j < WordSize(o) && (o != oop || j != fieldIndex) ==>
          FetchPointerOfObject(j, o) == old(FetchPointerOfObject(j, o))
      ensures forall o: Word :: IsValidOop(objectTable, o) ==> GetClassOf(o) == old(GetClassOf(o))
    {
      StoreWordOfObject(fieldIndex, oop, withValue);
    }

    /** storeByteOfObject: overwrite one field byte in place. */
    method StoreByteOfObject(byteIndex: Word, oop: Word, withValue: Byte)
      requires Valid() && IsValidOop(objectTable, oop) && byteIndex < ByteSize(oop)
      modifies this
      ensures Valid()
      ensures objectTable == old(objectTable)
      ensures objectSpace == old(objectSpace)[GetDataOf(oop, true).pos + byteIndex := withValue]
      ensures FetchByteOfObject(byteIndex, oop) == withValue
      ensures forall o: Word, j: Word ::
        IsValidOop(objectTable, o) && j < ByteSize(o) && (o != oop || j != byteIndex) ==>
          FetchByteOfObject(j, o) == old(FetchByteOfObject(j, o))
      ensures forall o: Word, j: Word ::
        IsValidOop(objectTable, o) && o != oop && j < WordSize(o) ==>
          FetchWordOfObject(j, o) == old(FetchWordOfObject(j, o))
      ensures forall o: Word :: IsValidOop(objectTable, o) ==> GetClassOf(o) == old(GetClassOf(o))
    {
      var p := GetDataOf(oop, true).pos + byteIndex;
      objectSpace := objectSpace[p := withValue];
      forall o: Word, j: Word | IsValidOop(objectTable, o) && j < ByteSize(o) && (o != oop || j != byteIndex)
        ensures FetchByteOfObject(j, o) == old(FetchByteOfObject(j, o))
      {
        if o != oop {
          assert Disjoint(objectTable[o / 2].data, objectTable[oop / 2].data);
        }
      }
      forall o: Word, j: Word | IsValidOop(objectTable, o) && o != oop && j < WordSize(o)
        ensures FetchWordOfObject(j, o) == old(FetchWordOfObject(j, o))
      {
        assert Disjoint(objectTable[o / 2].data, objectTable[oop / 2].data);
      }
      forall o: Word | IsValidOop(objectTable, o)
        ensures GetClassOf(o) == old(GetClassOf(o))
      {
        if o != oop {
          assert Disjoint(objectTable[o / 2].data, objectTable[oop / 2].data);
        }
      }
    }

    /**
     * Allocation keeps every existing object where it was: the old space is
     * a prefix of the new one and every old entry in use is unchanged.
     */
    twostate predicate KeepsObjects()
      reads this
    {
      && |old(objectSpace)| <= |objectSpace|
      && objectSpace[..|old(objectSpace)|] == old(objectSpace)
      && |old(objectTable)| <= |objectTable|
      && forall k :: 0 <= k < |old(objectTable)| && old(objectTable)[k].Used? ==>
           objectTable[k] == old(objectTable)[k]
    }

    /** What KeepsObjects means at the level of the accessors. */
    twostate lemma KeptObjectReadsTheSame(oop: Word)
      requires old(Valid()) && Valid() && KeepsObjects()
      requires IsValidOop(old(objectTable), oop)
      ensures IsValidOop(objectTable, oop)
      ensures GetDataOf(oop, false) == old(GetDataOf(oop, false))
      ensures GetClassOf(oop) == old(GetClassOf(oop))
      ensures HasPointerMembers(oop) == old(HasPointerMembers(oop))
      ensures forall j: Word :: j < WordSize(oop) ==> FetchWordOfObject(j, oop) == old(FetchWordOfObject(j, oop))
      ensures forall j: Word :: j < ByteSize(oop) ==> FetchByteOfObject(j, oop) == old(FetchByteOfObject(j, oop))
    {
      var n := |old(objectSpace)|;
      assert forall q :: 0 <= q < n ==> objectSpace[q] == old(objectSpace)[q];
      forall j: Word | j < WordSize(oop)
        ensures FetchWordOfObject(j, oop) == old(FetchWordOfObject(j, oop))
      {
      }
    }

    /**
     * findNextFree: the first free slot after slot 0, or a slot appended to
     * the table when none is free; -1 when the table is full. The result is
     * the oop of the slot.
     */
    method FindNextFree() returns (oop: int)
      requires Valid()
      modifies this
      ensures Valid()
      ensures objectSpace == old(objectSpace)
      ensures oop == -1 <==> TableFull(old(objectTable))
      ensures oop == -1 ==> objectTable == old(objectTable)
      ensures oop != -1 ==>
        && 0 < oop < 0x1_0000 && oop % 2 == 0
        && oop / 2 < |objectTable| && objectTable[oop / 2] == Free
        && (forall k :: 1 <= k < oop / 2 ==> objectTable[k].Used?)
      ensures oop != -1 ==>
        || objectTable == old(objectTable)
        || (objectTable == old(objectTable) + [Free] && oop / 2 == |old(objectTable)|)
    {
      var k := 1;
      while k < |objectTable| && objectTable[k].Used?
        invariant 1 <= k <= |objectTable|
        invariant forall j :: 1 <= j < k ==> objectTable[j].Used?
      {
        k := k + 1;
      }
      if k < |objectTable| {
        return 2 * k;
      }
      if |objectTable| < MAX_ENTRIES {
        GrowPreservesValidity(objectTable, |objectSpace|);
        objectTable := objectTable + [Free];
        return 2 * k;
      }
      return -1;
    }

    /**
     * createInstance: a new object of byteLen field bytes, appended at the
     * end of object space, in the slot findNextFree hands out. Answers the
     * reserved oop 0 when no slot is left.
     */
    method CreateInstance(classPtr: Word, byteLen: Word, isPtr: bool) returns (oop: Word)
      requires Valid()
      modifies this
      ensures Valid() && KeepsObjects()
      ensures oop == 0 <==> TableFull(old(objectTable))
      ensures oop == 0 ==> objectTable == old(objectTable) && objectSpace == old(objectSpace)
      ensures oop != 0 ==>
        && !IsValidOop(old(objectTable), oop) && IsValidOop(objectTable, oop)
        && GetDataOf(oop, false) == Data(|old(objectSpace)|, HEADER_SIZE + byteLen, isPtr)
        && objectSpace == old(objectSpace) + NewRegion(classPtr, byteLen, isPtr)
        && AllocatedIn(old(objectTable), objectTable, oop, Data(|old(objectSpace)|, HEADER_SIZE + byteLen, isPtr))
    {
      var free := FindNextFree();
      if free == -1 {
        return 0;
      }
      var d := Data(|objectSpace|, HEADER_SIZE + byteLen, isPtr);
      AllocatePreservesValidity(objectTable, |objectSpace|, free / 2, d);
      objectSpace := objectSpace + NewRegion(classPtr, byteLen, isPtr);
      objectTable := objectTable[free / 2 := Used(d)];
      oop := free;
    }

    /** What a fresh object created from NewRegion reads as. */
    lemma NewObjectReads(oop: Word, classPtr: Word, byteLen: Word, isPtr: bool, start: nat)
      requires Valid() && IsValidOop(objectTable, oop)
      requires GetDataOf(oop, false) == Data(start, HEADER_SIZE + byteLen, isPtr)
      requires start <= |objectSpace|
      requires objectSpace[start..] == NewRegion(classPtr, byteLen, isPtr)
      ensures GetClassOf(oop) == classPtr
      ensures HasPointerMembers(oop) == isPtr
      ensures ByteSize(oop) == byteLen
      ensures forall j: Word :: j < WordSize(oop) ==>
        FetchWordOfObject(j, oop) == if isPtr then OBJECT_NIL else 0
      ensures !isPtr ==> forall j: Word :: j < ByteSize(oop) ==> FetchByteOfObject(j, oop) == 0
    {
      var r := NewRegion(classPtr, byteLen, isPtr);
      assert forall q :: 0 <= q < |r| ==> objectSpace[start + q] == r[q];
      assert GetClassOf(oop) == WordAt(r, CLASS_OFFSET);
      forall j: Word | j < WordSize(oop)
        ensures FetchWordOfObject(j, oop) == if isPtr then OBJECT_NIL else 0
      {
        assert FetchWordOfObject(j, oop) == WordAt(r, HEADER_SIZE + 2 * j);
      }
    }

    /**
     * instantiateClassWithPointers: a pointer object of instanceSize fields,
     * each nil. Answers 0 when no slot is left or when the byte length does
     * not fit createInstance's 16-bit parameter.
     */
    method InstantiateClassWithPointers(classPointer: Word, instanceSize: Word) returns (oop: Word)
      requires Valid()
      modifies this
      ensures Valid() && KeepsObjects()
      ensures oop == 0 <==> 2 * instanceSize > 0xFFFF || TableFull(old(objectTable))
      ensures oop == 0 ==> objectTable == old(objectTable) && objectSpace == old(objectSpace)
      ensures oop != 0 ==>
        && IsPointer(oop) && !IsValidOop(old(objectTable), oop) && IsValidOop(objectTable, oop)
        && GetDataOf(oop, false) == Data(|old(objectSpace)|, HEADER_SIZE + 2 * instanceSize, true)
        && objectSpace == old(objectSpace) + NewRegion(classPointer, 2 * instanceSize, true)
        && AllocatedIn(old(objectTable), objectTable, oop, Data(|old(objectSpace)|, HEADER_SIZE + 2 * instanceSize, true))
        && FetchClassOf(oop) == classPointer
        && HasPointerMembers(oop)
        && ByteSize(oop) == 2 * instanceSize && WordSize(oop) == instanceSize
        && forall j: Word :: j < instanceSize ==> FetchPointerOfObject(j, oop) == OBJECT_NIL
    {
      if 2 * instanceSize > 0xFFFF {
        return 0;
      }
      ghost var start := |objectSpace|;
      oop := CreateInstance(classPointer, 2 * instanceSize, true);
      if oop != 0 {
        NewObjectReads(oop, classPointer, 2 * instanceSize, true, start);
      }
    }

    /** instantiateClassWithWords: a word object of instanceSize zero words. */
    method InstantiateClassWithWords(classPointer: Word, instanceSize: Word) returns (oop: Word)
      requires Valid()
      modifies this
      ensures Valid() && KeepsObjects()
      ensures oop == 0 <==> 2 * instanceSize > 0xFFFF || TableFull(old(objectTable))
      ensures oop == 0 ==> objectTable == old(objectTable) && objectSpace == old(objectSpace)
      ensures oop != 0 ==>
        && IsPointer(oop) && !IsValidOop(old(objectTable), oop) && IsValidOop(objectTable, oop)
        && GetDataOf(oop, false) == Data(|old(objectSpace)|, HEADER_SIZE + 2 * instanceSize, false)
        && objectSpace == old(objectSpace) + NewRegion(classPointer, 2 * instanceSize, false)
        && AllocatedIn(old(objectTable), objectTable, oop, Data(|old(objectSpace)|, HEADER_SIZE + 2 * instanceSize, false))
        && FetchClassOf(oop) == classPointer
        && !HasPointerMembers(oop)
        && ByteSize(oop) == 2 * instanceSize && WordSize(oop) == instanceSize
        && forall j: Word :: j < instanceSize ==> FetchWordOfObject(j, oop) == 0
    {
      if 2 * instanceSize > 0xFFFF {
        return 0;
      }
      ghost var start := |objectSpace|;
      oop := CreateInstance(classPointer, 2 * instanceSize, false);
      if oop != 0 {
        NewObjectReads(oop, classPointer, 2 * instanceSize, false, start);
      }
    }

    /** instantiateClassWithBytes: a byte object of instanceByteSize zero bytes. */
    method InstantiateClassWithBytes(classPointer: Word, instanceByteSize: Word) returns (oop: Word)
      requires Valid()
      modifies this
      ensures Valid() && KeepsObjects()
      ensures oop == 0 <==> TableFull(old(objectTable))
      ensures oop == 0 ==> objectTable == old(objectTable) && objectSpace == old(objectSpace)
      ensures oop != 0 ==>
        && IsPointer(oop) && !IsValidOop(old(objectTable), oop) && IsValidOop(objectTable, oop)
        && GetDataOf(oop, false) == Data(|old(objectSpace)|, HEADER_SIZE + instanceByteSize, false)
        && objectSpace == old(objectSpace) + NewRegion(classPointer, instanceByteSize, false)
        && AllocatedIn(old(objectTable), objectTable, oop, Data(|old(objectSpace)|, HEADER_SIZE + instanceByteSize, false))
        && FetchClassOf(oop) == classPointer
        && !HasPointerMembers(oop)
        && ByteSize(oop) == instanceByteSize
        && forall j: Word :: j < instanceByteSize ==> FetchByteOfObject(j, oop) == 0
    {
      ghost var start := |objectSpace|;
      oop := CreateInstance(classPointer, instanceByteSize, false);
      if oop != 0 {
        NewObjectReads(oop, classPointer, instanceByteSize, false, start);
      }
    }

    /**
     * A compiled method the decoders can read: its header word is a small
     * integer, the object holds the header and every literal, and a flag-7
     * method has a small-integer header extension as its second-last literal.
     */
    predicate IsCompiledMethod(m: Word)
      reads this
      requires Valid()
    {
      && IsValidOop(objectTable, m)
      && 2 <= ByteSize(m)
      && !IsPointer(FetchWordOfObject(0, m))
      && var h := DecodeHeader(FetchWordOfObject(0, m));
         && 2 * (h.literalCount + 1) <= ByteSize(m)
         && (h.flags == HeaderExtension ==>
               2 <= h.literalCount && !IsPointer(FetchWordOfObject(h.literalCount - 1, m)))
    }

    /** The decoded header word, field 0 of the method. */
    function MethodHeaderOf(m: Word): MethodHeader
      reads this
      requires Valid() && IsCompiledMethod(m)
    {
      DecodeHeader(FetchPointerOfObject(0, m))
    }

    function MethodFlags(m: Word): Flags
      reads this
      requires Valid() && IsCompiledMethod(m)
    {
      MethodHeaderOf(m).flags
    }

    /**
     * The temporary count, arguments included; for a flag-6 method it is the
     * index of the instance variable the method answers.
     */
    function MethodTemporaryCount(m: Word): Byte
      reads this
      requires Valid() && IsCompiledMethod(m)
    {
      MethodHeaderOf(m).temporaryCount
    }

    function MethodLargeContext(m: Word): bool
      reads this
      requires Valid() && IsCompiledMethod(m)
    {
      MethodHeaderOf(m).largeContext
    }

    function MethodLiteralCount(m: Word): Byte
      reads this
      requires Valid() && IsCompiledMethod(m)
    {
      MethodHeaderOf(m).literalCount
    }

    /** The decoders answer the fields a header word was packed from. */
    lemma DecodersReadPackedHeader(m: Word, h: MethodHeader)
      requires Valid() && IsCompiledMethod(m) && FetchWordOfObject(0, m) == EncodeHeader(h)
      ensures MethodFlags(m) == h.flags
      ensures MethodTemporaryCount(m) == h.temporaryCount
      ensures MethodLargeContext(m) == h.largeContext
      ensures MethodLiteralCount(m) == h.literalCount
    {
      DecodeEncodeHeader(h);
    }

    /** Literal index (from 0) of the method; the literals follow the header word. */
    function MethodLiteral(m: Word, index: Byte): Word
      reads this
      requires Valid() && IsCompiledMethod(m) && index < MethodLiteralCount(m)
    {
      FetchPointerOfObject(index + 1, m)
    }

    /** The header extension of a flag-7 method: its second-last literal. */
    function MethodExtension(m: Word): Extension
      reads this
      requires Valid() && IsCompiledMethod(m) && MethodFlags(m) == HeaderExtension
    {
      DecodeExtension(MethodLiteral(m, MethodLiteralCount(m) - 2))
    }

    function MethodArgumentCount(m: Word): (n: Byte)
      reads this
      requires Valid() && IsCompiledMethod(m)
      ensures !HasBytecodes(MethodFlags(m)) ==> n == 0
      ensures FlagsValue(MethodFlags(m)) < 5 ==> n == FlagsValue(MethodFlags(m))
    {
      if MethodFlags(m) == HeaderExtension then MethodExtension(m).argumentCount
      else FlagArgumentCount(MethodFlags(m))
    }

    function MethodPrimitiveIndex(m: Word): (p: Byte)
      reads this
      requires Valid() && IsCompiledMethod(m)
      ensures MethodFlags(m) != HeaderExtension ==> p == 0
    {
      if MethodFlags(m) == HeaderExtension then MethodExtension(m).primitiveIndex else 0
    }

    /**
     * For a flag-7 method, methodArgumentCount and methodPrimitiveIndex answer
     * the fields its header extension was packed from.
     */
    lemma DecodersReadPackedExtension(m: Word, e: Extension)
      requires Valid() && IsCompiledMethod(m) && MethodFlags(m) == HeaderExtension
      requires MethodLiteral(m, MethodLiteralCount(m) - 2) == EncodeExtension(e)
      ensures MethodArgumentCount(m) == e.argumentCount
      ensures MethodPrimitiveIndex(m) == e.primitiveIndex
    {
      DecodeEncodeExtension(e);
    }

    /** Byte offset of the first bytecode: after the header word and the literals. */
    function BytecodeStart(m: Word): (start: nat)
      reads this
      requires Valid() && IsCompiledMethod(m)
      ensures start <= ByteSize(m)
    {
      2 * (MethodLiteralCount(m) + 1)
    }

    /**
     * methodBytecodes: a copy of the bytes after the literals; empty for the
     * two kinds of method answered from the header.
     */
    function MethodBytecodes(m: Word): (code: seq<Byte>)
      reads this
      requires Valid() && IsCompiledMethod(m)
      ensures !HasBytecodes(MethodFlags(m)) ==> code == []
      ensures HasBytecodes(MethodFlags(m)) ==>
        |code| == ByteSize(m) - BytecodeStart(m) && code == FetchByteString(m)[BytecodeStart(m)..]
    {
      if HasBytecodes(MethodFlags(m)) then
        var d := GetDataOf(m, true);
        objectSpace[d.pos + BytecodeStart(m)..d.pos + d.len]
      else
        []
    }
  }

  /**
   * A Point with two pointer fields: once the small integers 3 and 4 are
   * stored in them, the fields read back as those oops and the class is Point.
   */
  method PointScenario(mem: ObjectMemory) returns (p: Word)
    requires mem.Valid()
    modifies mem
    ensures mem.Valid()
    ensures p == 0 <==> TableFull(old(mem.objectTable))
    ensures p != 0 ==>
      && IsValidOop(mem.objectTable, p) && mem.WordSize(p) == 2
      && mem.FetchPointerOfObject(0, p) == FromInt(3)
      && mem.FetchPointerOfObject(1, p) == FromInt(4)
      && mem.FetchClassOf(p) == CLASS_POINT
  {
    p := mem.InstantiateClassWithPointers(CLASS_POINT, 2);
    if p != 0 {
      mem.StorePointerOfObject(0, p, FromInt(3));
      mem.StorePointerOfObject(1, p, FromInt(4));
    }
  }
}
