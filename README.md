# Smalltalk-80 object memory

A Dafny model of `St::ObjectMemory` (`StObjectMemory.h`), the object memory of a
Smalltalk-80 virtual machine. The model covers four things:

- the 16-bit object pointer (oop) codec;
- the known-object constants;
- the compiled-method header decoders;
- the object table and object space as mutable state, with field access and allocation.

The model follows the declarations and comments of `StObjectMemory.h` and the
object memory of *Smalltalk-80: The Language and Its Implementation* (chapters
27 and 30); it does not follow the function bodies. Where these leave a choice
open, the choice is listed below.

## Structure

- `oop.dfy` (module `Oop`): 16-bit words and bytes. `IsPointer` is the parity
  test. `FromInt`/`ToInt` is the small-integer encoding oop = (2n+1) mod 2^16,
  with n in -16384..16383.
- `known_objects.dfy` (module `KnownObjects`): the `KnownObjects` enum as constants.
- `compiled_method.dfy` (module `CompiledMethod`): the `CompiledMethodFlags`
  enum as a datatype. It also holds pack/unpack pairs for the method header word
  (flag value, temporary count, large-context bit, literal count) and the header
  extension word (argument count, primitive index), laid out as in chapter 27.
- `object_table.dfy` (module `ObjectTable`):
  - the `Data` record, with its 31-bit length and 1-bit pointer flag;
  - table entries, free or used;
  - the table invariant `TableValid`;
  - the region layout of an object in object space;
  - the lemmas that allocation depends on.
- `object_memory.dfy` (module `Memory`): class `ObjectMemory`.
  - Its fields are `objectTable: seq<Entry>` (`d_objectTable`) and
    `objectSpace: seq<Byte>` (`d_objectSpace`).
  - The `const` accessors are functions that read `this`.
  - The stores, `findNextFree`, `createInstance` and the three
    `instantiateClassWith*` calls are methods that modify `this`.
  - The module also holds the class field indices.

Layout choices the header does not fix:

- **Table slots.** Slot k of the table belongs to oop 2k. Slot 0 (oop 0)
  always exists and is always free.
- **Object regions.** An object's region in object space holds, in order:
  - a two-word header: the size in words, then the class oop;
  - the field bytes;
  - one pad byte when the byte count is odd.
- **Byte order.** Words are stored high byte first.
- **Field offsets.** Field word i is at byte offset 2i of the field bytes, and
  field byte i at offset i.
- **The recorded Data.** The entry holds the `Data` of the whole object, which
  is what `getDataOf(oop, false)` returns. `getDataOf(oop, true)` skips the
  four header bytes; `noHeader` defaults to true.
- **No free space.** The regions of the used entries are pairwise disjoint and
  lie inside the space. Their sizes (lengths rounded up to whole words) add up
  to the size of the space.
- **Allocation.** The allocator appends each new region at the end of the
  space. No operation changes a used entry; allocation turns a free entry
  into a used one, or appends one used entry when no entry is free.
- **Failure results.** `findNextFree` answers the oop of the slot, or -1 when
  the table has 0x8000 slots and every slot but the reserved slot 0 is in use. `createInstance` and
  the `instantiateClassWith*` calls answer the reserved oop 0 when they fail.
- **Initial fields.** Pointer objects start with every field nil. Word and byte
  objects start zeroed.
- **Stated lengths.** `fetchByteLenghtOf` and `fetchWordLenghtOf` return quint16,
  so the model truncates the true lengths modulo 2^16. Index bounds use the true
  lengths. The model spells these two names `FetchByteLengthOf` and
  `FetchWordLengthOf`. The length of a `ByteString` is also 16 bits wide; the
  model's byte strings are sequences of the full length (see "Left out").

## Model

| member | source | states |
|---|---|---|
| `Oop.FromInt` | StObjectMemory.h:36-39 | the encoding of a small integer is odd (never a pointer), and lies below 0x8000 exactly when the integer is non-negative |
| `Oop.ToInt` | StObjectMemory.h:143 | toInt of an odd oop is a 15-bit integer whose encoding is that oop (toInt inverts the encoding on every odd oop) |
| `Oop.ToIntFromInt` | StObjectMemory.h:143 | decoding the encoding of any n in -16384..16383 gives back n |
| `Oop.PointerIffNotSmallInteger` | StObjectMemory.h:142 | isPointer(o) holds exactly when o is the encoding of no small integer: the parity test separates the two kinds of oop |
| `Oop.FromIntInjective` | StObjectMemory.h:36-39 | distinct small integers have distinct oops |
| `KnownObjects.SmallIntegerConstants` | StObjectMemory.h:35-39 | objectMinusOne, objectZero, objectOne and objectTwo are the encodings of -1, 0, 1, 2, and toInt decodes them back |
| `KnownObjects.KnownReferencesArePointers` | StObjectMemory.h:41-78 | nil, false, true and every other known object are nonzero, even (pointers) and pairwise distinct |
| `CompiledMethod.FlagsOf` | StObjectMemory.h:81-90 | each 3-bit flag value names the flag kind with that enum value |
| `CompiledMethod.FlagsOfValue` | StObjectMemory.h:81-90 | each flag kind is named by its own value, so kinds and values are in one-to-one correspondence |
| `CompiledMethod.FlagArgumentCount` | StObjectMemory.h:82-88 | flags 0 to 4 are the argument count; the two no-bytecode primitive kinds (5, 6) take zero arguments |
| `CompiledMethod.EncodeHeader` | StObjectMemory.h:132-135 | a packed header word is a small integer |
| `CompiledMethod.DecodeEncodeHeader` | StObjectMemory.h:132-135 | unpacking a packed header gives back its flag kind, temporary count, large-context bit and literal count |
| `CompiledMethod.EncodeDecodeHeader` | StObjectMemory.h:132-135 | every small-integer header word is the packing of its decoded fields |
| `CompiledMethod.EncodeExtension` | StObjectMemory.h:137-138 | a packed header extension is a small integer with its two unused high bits clear |
| `CompiledMethod.DecodeEncodeExtension` | StObjectMemory.h:137-138 | unpacking a packed extension gives back its argument count and primitive index |
| `CompiledMethod.EncodeDecodeExtension` | StObjectMemory.h:137-138 | every small-integer extension word with the unused bits clear is the packing of its decoded fields |
| `ObjectTable.PackLength` | StObjectMemory.h:150-156 | the 31-bit length and 1-bit pointer flag packed into one 32-bit word unpack to the same length and flag |
| `ObjectTable.PackUnpackLength` | StObjectMemory.h:153-154 | every 32-bit word is the packing of exactly one length and flag |
| `ObjectTable.ZeroIsNeverValid` | StObjectMemory.h:113 | in a valid table no slot in use belongs to oop 0, so oop 0 never names an object |
| `ObjectTable.UsedSizeUpdate` | StObjectMemory.h:162-165 | changing one entry changes the total size of the used regions by the difference between the two entries |
| `ObjectTable.UsedSizeAppend` | StObjectMemory.h:163 | appending an entry adds its size to the total size of the used regions |
| `ObjectTable.GrowPreservesValidity` | StObjectMemory.h:158-163 | growing the table by a free slot keeps the table invariant over the same space |
| `ObjectTable.AllocatePreservesValidity` | StObjectMemory.h:159-165 | filling a free slot with a region appended at the end of the space keeps the regions disjoint, inside the space and adding up to its size |
| `ObjectTable.WordBytes` | StObjectMemory.h:118-119 | the two bytes written for a word read back as that word |
| `ObjectTable.WithWord` | StObjectMemory.h:119 | writing a word at a byte offset makes that word read back and leaves every other byte of the space unchanged |
| `ObjectTable.InitialFields` | StObjectMemory.h:127-129 | new fields read as nil in every word of a pointer object and as zero in every byte of any other |
| `ObjectTable.NewRegion` | StObjectMemory.h:159-162 | a new region is its length rounded up to a word, its size word counts its words, its class word is the class, and its fields are initialised |
| `Memory.ObjectMemory.constructor` | StObjectMemory.h:105 | an empty memory satisfies the invariant, with only the reserved slot of oop 0 |
| `Memory.ObjectMemory.GetDataOf` | StObjectMemory.h:150-157 | without noHeader the data is the object's table entry; with noHeader it starts after the four header bytes, is four bytes shorter and ends where the object ends; either way it lies inside object space and keeps the pointer flag |
| `Memory.ObjectMemory.WordSize` | StObjectMemory.h:124 | the field words cover the field bytes with at most one pad byte |
| `Memory.ObjectMemory.FetchByteLengthOf` | StObjectMemory.h:123 | the 16-bit byte length is the object's byte count whenever that count fits in 16 bits |
| `Memory.ObjectMemory.FetchWordLengthOf` | StObjectMemory.h:124 | the 16-bit word length is the object's word count whenever that count fits in 16 bits, and covers the byte count with at most one pad byte whenever the byte count fits in 16 bits |
| `Memory.ObjectMemory.FetchByteString` | StObjectMemory.h:125 | the byte string has the object's byte length, which is fetchByteLenghtOf whenever it fits 16 bits; byte k is fetchByteOfObject(k), and is the k-th field byte in object space |
| `Memory.ObjectMemory.GetAllValidOop` | StObjectMemory.h:108 | the answer lists exactly the oops that name objects, in strictly increasing order |
| `Memory.ObjectMemory.StoreWordOfObject` | StObjectMemory.h:118-119 | after the store the field reads back the stored value; the table and every other field of every object and every class are unchanged, and the invariant still holds |
| `Memory.ObjectMemory.StorePointerOfObject` | StObjectMemory.h:116-117 | the same as the word store, stated through fetchPointerOfObject |
| `Memory.ObjectMemory.StoreByteOfObject` | StObjectMemory.h:120-121 | after the store the byte reads back the stored value; every other byte, every word of every other object, every class and the table are unchanged |
| `Memory.ObjectMemory.KeptObjectReadsTheSame` | StObjectMemory.h:162-165 | when the old space is a prefix of the new one and old entries are kept, an old object keeps its data, class, pointer flag, words and bytes |
| `Memory.ObjectMemory.FindNextFree` | StObjectMemory.h:158-163 | answers the first free slot after slot 0, or a slot appended to the table, as a nonzero even oop; answers -1, with nothing changed, exactly when the table is full; the space is untouched |
| `Memory.ObjectMemory.CreateInstance` | StObjectMemory.h:159-165 | answers 0, with nothing changed, exactly when the table is full; otherwise the first free slot after slot 0 (or one slot appended when none is free) now holds the new object's data and no other entry changes, its region (header, then nil or zero fields) is appended at the end of the space, and the invariant is maintained |
| `Memory.ObjectMemory.NewObjectReads` | StObjectMemory.h:127-129 | a region built for a class reads back that class, pointer flag and byte count, with nil or zero fields |
| `Memory.ObjectMemory.InstantiateClassWithPointers` | StObjectMemory.h:127 | a fresh nonzero even oop appended at the end of the space: its class is the class argument, it has pointer members, its word length is the size and every field is nil; the new table and space are those of createInstance with byte length 2n (first free slot filled, region appended); 0, with nothing changed, exactly when no slot is left or the size does not fit |
| `Memory.ObjectMemory.InstantiateClassWithWords` | StObjectMemory.h:128 | likewise for a word object: not a pointer object, word length the size, every word zero, the new table and space those of createInstance with byte length 2n |
| `Memory.ObjectMemory.InstantiateClassWithBytes` | StObjectMemory.h:129 | likewise for a byte object: not a pointer object, byte length the size, every byte zero, the new table and space those of createInstance with that byte length; 0 exactly when no slot is left |
| `Memory.ObjectMemory.DecodersReadPackedHeader` | StObjectMemory.h:132-135 | a method whose header word was packed from given fields reports those fields through methodFlags, methodTemporaryCount, methodLargeContext and methodLiteralCount |
| `Memory.ObjectMemory.MethodArgumentCount` | StObjectMemory.h:137 | flags 0 to 4 are the argument count; methods answered from the header (5, 6) take no arguments (the flag-7 case is stated by DecodersReadPackedExtension) |
| `Memory.ObjectMemory.MethodPrimitiveIndex` | StObjectMemory.h:138 | only a header-extension method (flag 7) names a primitive; every other method answers 0 (the flag-7 value is stated by DecodersReadPackedExtension) |
| `Memory.ObjectMemory.MethodBytecodes` | StObjectMemory.h:136 | empty for flags 5 and 6; otherwise exactly the bytes of the method after the header word and the literals |
| `Memory.ObjectMemory.DecodersReadPackedExtension` | StObjectMemory.h:137-138 | a flag-7 method whose second-last literal was packed from an argument count and a primitive index answers exactly those through methodArgumentCount and methodPrimitiveIndex |
| `Memory.ObjectMemory.HasPointerMembers` | StObjectMemory.h:115 | the answer is the pointer flag recorded in the object's table entry |
| `Memory.ObjectMemory.FetchWordOfObject` | StObjectMemory.h:118 | definition: the word, high byte first, at byte offset 2i of the object's fields; its properties are stated by the store and allocation contracts |
| `Memory.ObjectMemory.FetchPointerOfObject` | StObjectMemory.h:116 | definition: the same word as fetchWordOfObject |
| `Memory.ObjectMemory.FetchByteOfObject` | StObjectMemory.h:120 | definition: the byte at offset i of the object's fields |
| `Memory.ObjectMemory.GetClassOf` | StObjectMemory.h:149 | definition: the class word of the object's header |
| `Memory.ObjectMemory.FetchClassOf` | StObjectMemory.h:122 | definition: SmallInteger for an odd oop, otherwise getClassOf |
| `Memory.ObjectMemory.MethodFlags` | StObjectMemory.h:133 | definition: the flag field of the decoded header word (see DecodersReadPackedHeader) |
| `Memory.ObjectMemory.MethodTemporaryCount` | StObjectMemory.h:132 | definition: the temporary-count field of the decoded header word (see DecodersReadPackedHeader) |
| `Memory.ObjectMemory.MethodLargeContext` | StObjectMemory.h:134 | definition: the large-context bit of the decoded header word (see DecodersReadPackedHeader) |
| `Memory.ObjectMemory.MethodLiteralCount` | StObjectMemory.h:135 | definition: the literal-count field of the decoded header word (see DecodersReadPackedHeader) |
| `Memory.ObjectMemory.MethodLiteral` | StObjectMemory.h:139 | definition: literal i is pointer field i+1, after the header word |
| `Oop.IsPointer` | StObjectMemory.h:142 | definition: an even oop; its meaning is stated by PointerIffNotSmallInteger |
| `CompiledMethod.DecodeHeader` | StObjectMemory.h:132-135 | definition: unpacks the header fields; its partner lemmas are DecodeEncodeHeader and EncodeDecodeHeader |
| `CompiledMethod.DecodeExtension` | StObjectMemory.h:137-138 | definition: unpacks the extension fields; its partner lemmas are DecodeEncodeExtension and EncodeDecodeExtension |
| `ObjectTable.AllocatedIn` | StObjectMemory.h:158-159 | definition: the table after filling the first free slot after slot 0, or after appending one used slot when none is free, with no other entry changed |
| `Memory.PointScenario` | StObjectMemory.h:116-127 | a Point instantiated with two pointer fields, after storing the small integers 3 and 4, reads back those oops and has class Point |

## Left out

- `readFrom(QIODevice*)` and the classification sets `getObjects`, `getClasses` and `getMetaClasses`: stream input whose image byte format is not known. A valid table and space are stated by `TableValid` instead.
- `printObjectTable` and `printObjectSpace`: debug output only.
- `fetchClassName`: it depends on the layout of class names and Symbols, which is not known.
- `getSpaceAddr` and its `odd`/`ptr` out-parameters, and the on-image format of table entries with their free bit: entries are the datatype `Entry`.
- The `QObject` base class and the Qt containers: the table and space are Dafny sequences, and `getAllValidOop` returns a sequence.
- `Memory.ObjectMemory.FetchByteString`: answers a copy of the bytes, not a pointer into a buffer that a later allocation can move. Its length is the object's full byte count, not truncated to the 16-bit `d_len` of `ByteString`; the two agree whenever the count fits 16 bits, which every object `createInstance` makes does.
- `Memory.ObjectMemory.MethodBytecodes`: answers a copy, for the same reason.
- `Memory.ObjectMemory.StorePointerOfObject`: pointer and word fields are read and stored alike, and the pointer flag of the object is not checked. A compiled method has bytes but also reads its header and literals as pointer fields.
- `Memory.ObjectMemory.FetchPointerOfObject`: no pointer-flag check either, for the same reason.
- `Memory.ObjectMemory.MethodLiteral`: the header says the last literal holds an Association to the superclass when the method contains a super send. That is a property of compiled code, not something the decoders check, so the model does not state it.
- `Memory.ObjectMemory.MethodArgumentCount`: the header says the temporary count includes the arguments. That is a promise about the methods a compiler writes, not something the decoders can check, so the model does not state it (for flags 5 and 6 it holds trivially, since the argument count is 0).
- `Memory.ObjectMemory.InstantiateClassWithPointers`: refuses (answers 0) a size whose byte length 2n does not fit `createInstance`'s 16-bit byte length, rather than wrapping it around.
- `Memory.ObjectMemory.InstantiateClassWithWords`: refuses a too-large size in the same way.
- Error handling: an invalid oop, an index out of range or a malformed compiled method is a precondition (`requires`) of the accessor, since the header gives these functions no error result.
- Reference counting or any other reclamation: nothing here frees a table entry or compacts the space.
- Object positions are unbounded naturals. The 32-bit range of `d_pos` is not modelled: allocation through a 0x8000-slot table of objects below 64 KiB cannot approach it.
