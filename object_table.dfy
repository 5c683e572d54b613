/**
 * The object table and the layout of objects in object space, as values.
 *
 * The table has one entry per even oop (slot k belongs to oop 2k); slot 0
 * belongs to the reserved oop 0 and is never used. A used entry records
 * where its object's region starts in object space, how long it is and
 * whether its fields are pointers. Object space holds the regions back to
 * back with no free space between them, so the region sizes of the used
 * entries add up to the size of the space.
 *
 * A region is a two-word header (the object's size in words and its class
 * oop, as in chapter 30 of Smalltalk-80: The Language and Its
 * Implementation), the field bytes, and one pad byte when the number of
 * field bytes is odd, so that every region is a whole number of words.
 * Words are stored high byte first.
 */
module ObjectTable {
  import opened Oop
  import opened KnownObjects

  /** Bytes of the header at the start of every region. */
  const HEADER_SIZE: nat := 4
  /** Offset of the class word inside the header. */
  const CLASS_OFFSET: nat := 2
  /** Number of table slots: oops 2k for k < 0x8000 fill the 16-bit range. */
  const MAX_ENTRIES: nat := 0x8000

  type Len31 = n: int | 0 <= n < 0x8000_0000
  type UInt32 = n: int | 0 <= n < 0x1_0000_0000

  /**
   * Where an object lives: start of its data in object space, its length in
   * bytes (a 31-bit field) and whether its fields are pointers (a 1-bit field).
   */
  datatype Data = Data(pos: nat, len: Len31, isPtr: bool)

  /** A default-constructed Data: position 0, length 0, not a pointer object. */
  const DEFAULT_DATA: Data := Data(0, 0, false)

  /**
   * The word that holds the two bit-fields `len : 31` and `isPtr : 1`, with
   * the first declared field in the low-order bits.
   */
  function PackLength(d: Data): (w: UInt32)
    ensures UnpackLength(w) == d.len && UnpackIsPtr(w) == d.isPtr
  {
    d.len + if d.isPtr then 0x8000_0000 else 0
  }

  function UnpackLength(w: UInt32): Len31
  {
    w % 0x8000_0000
  }

  function UnpackIsPtr(w: UInt32): bool
  {
    w / 0x8000_0000 == 1
  }

  /** Every 32-bit word is the packing of exactly one length and flag. */
  lemma PackUnpackLength(w: UInt32, pos: nat)
    ensures PackLength(Data(pos, UnpackLength(w), UnpackIsPtr(w))) == w
  {
    assert w == (w / 0x8000_0000) * 0x8000_0000 + w % 0x8000_0000;
  }

  /** A table entry: free (unused), or in use with the data of its object. */
  datatype Entry = Free | Used(data: Data)

  /** Bytes a region occupies: its length rounded up to a whole word. */
  function RegionSize(d: Data): nat
  {
    d.len + d.len % 2
  }

  function RegionEnd(d: Data): nat
  {
    d.pos + RegionSize(d)
  }

  predicate Disjoint(a: Data, b: Data)
  {
    RegionEnd(a) <= b.pos || RegionEnd(b) <= a.pos
  }

  function EntrySize(e: Entry): nat
  {
    if e.Used? then RegionSize(e.data) else 0
  }

  /** The space taken by the objects of the used entries. */
  function UsedSize(table: seq<Entry>): nat
  {
    if table == [] then 0 else UsedSize(table[..|table| - 1]) + EntrySize(table[|table| - 1])
  }

  /** A nonzero, even oop whose slot lies inside the table and is in use. */
  predicate IsValidOop(table: seq<Entry>, oop: Word)
  {
    oop != 0 && IsPointer(oop) && oop / 2 < |table| && table[oop / 2].Used?
  }

  /** No slot can be handed out: the table is at its largest and all in use. */
  predicate TableFull(table: seq<Entry>)
  {
    |table| == MAX_ENTRIES && forall k :: 1 <= k < |table| ==> table[k].Used?
  }

  /**
   * The invariant of the object table over an object space of spaceSize
   * bytes: slot 0 exists and is free, every used region has its header and
   * lies inside the space, the regions do not overlap, and together they
   * fill the space.
   */
  ghost predicate TableValid(table: seq<Entry>, spaceSize: nat)
  {
    && 1 <= |table| <= MAX_ENTRIES
    && table[0] == Free
    && (forall k :: 0 <= k < |table| && table[k].Used? ==>
          HEADER_SIZE <= table[k].data.len && RegionEnd(table[k].data) <= spaceSize)
    && (forall j, k :: 0 <= j < |table| && 0 <= k < |table| && j != k && table[j].Used? && table[k].Used? ==>
          Disjoint(table[j].data, table[k].data))
    && UsedSize(table) == spaceSize
  }

  /**
   * Oop 0 never names an object of a valid table: its slot is always free,
   * so even without the explicit test an in-use slot is never slot 0.
   */
  lemma ZeroIsNeverValid(table: seq<Entry>, spaceSize: nat)
    requires TableValid(table, spaceSize)
    ensures forall oop: Word :: IsPointer(oop) && oop / 2 < |table| && table[oop / 2].Used? ==> oop != 0
  {
  }

  /** Replacing one entry changes the used size by the difference of the two. */
  lemma {:induction false} UsedSizeUpdate(table: seq<Entry>, k: nat, e: Entry)
    requires k < |table|
    ensures UsedSize(table[k := e]) + EntrySize(table[k]) == UsedSize(table) + EntrySize(e)
  {
    var n := |table|;
    if k == n - 1 {
      assert table[k := e][..n - 1] == table[..n - 1];
    } else {
      UsedSizeUpdate(table[..n - 1], k, e);
      assert table[k := e][..n - 1] == table[..n - 1][k := e];
    }
  }

  lemma UsedSizeAppend(table: seq<Entry>, e: Entry)
    ensures UsedSize(table + [e]) == UsedSize(table) + EntrySize(e)
  {
    assert (table + [e])[..|table|] == table;
  }

  /** Growing the table by a free slot keeps it valid over the same space. */
  lemma GrowPreservesValidity(table: seq<Entry>, spaceSize: nat)
    requires TableValid(table, spaceSize) && |table| < MAX_ENTRIES
    ensures TableValid(table + [Free], spaceSize)
  {
    UsedSizeAppend(table, Free);
  }

  /**
   * Filling a free slot with a region appended at the end of the space keeps
   * the table valid over the grown space.
   */
  lemma AllocatePreservesValidity(table: seq<Entry>, spaceSize: nat, k: nat, d: Data)
    requires TableValid(table, spaceSize)
    requires 1 <= k < |table| && table[k] == Free
    requires d.pos == spaceSize && HEADER_SIZE <= d.len
    ensures TableValid(table[k := Used(d)], spaceSize + RegionSize(d))
  {
    UsedSizeUpdate(table, k, Used(d));
  }

  /**
   * The table after an allocation into the first free slot after slot 0:
   * that slot now holds d, or, when every slot was in use, d fills one slot
   * appended to the table. No other entry changes.
   */
  predicate AllocatedIn(before: seq<Entry>, after: seq<Entry>, oop: Word, d: Data)
  {
    && 1 <= oop / 2 <= |before|
    && (forall k :: 1 <= k < oop / 2 ==> before[k].Used?)
    && if oop / 2 < |before| then
         before[oop / 2] == Free && after == before[oop / 2 := Used(d)]
       else
         after == before + [Used(d)]
  }

  /** The word stored high byte first at byte offset p. */
  function WordAt(space: seq<Byte>, p: nat): Word
    requires p + 1 < |space|
  {
    (space[p] as int) * 0x100 + space[p + 1]
  }

  function WordBytes(w: Word): (bytes: seq<Byte>)
    ensures |bytes| == 2 && WordAt(bytes, 0) == w
  {
    [w / 0x100, w % 0x100]
  }

  /** The space with the word w written at byte offset p, and nothing else changed. */
  function WithWord(space: seq<Byte>, p: nat, w: Word): (s: seq<Byte>)
    requires p + 1 < |space|
    ensures |s| == |space| && WordAt(s, p) == w
    ensures forall q :: 0 <= q < |space| && q != p && q != p + 1 ==> s[q] == space[q]
  {
    space[p := WordBytes(w)[0]][p + 1 := WordBytes(w)[1]]
  }

  /**
   * The initial field bytes of a new object: nil in every word of a pointer
   * object, zero in every byte of any other.
   */
  function InitialFields(fieldBytes: nat, isPtr: bool): (f: seq<Byte>)
    requires fieldBytes % 2 == 0
    ensures |f| == fieldBytes
    ensures forall j :: 0 <= j < fieldBytes / 2 ==>
      WordAt(f, 2 * j) == if isPtr then OBJECT_NIL else 0
    ensures !isPtr ==> forall q :: 0 <= q < fieldBytes ==> f[q] == 0
  {
    var f := seq(fieldBytes, q => if isPtr then WordBytes(OBJECT_NIL)[q % 2] else 0);
    assert forall j :: 0 <= j < fieldBytes / 2 ==> (2 * j) % 2 == 0 && (2 * j + 1) % 2 == 1;
    f
  }

  /**
   * The region of a new object of byteLen field bytes: its header (size in
   * words, then class), then its initial fields.
   */
  function NewRegion(classPtr: Word, byteLen: Word, isPtr: bool): (r: seq<Byte>)
    ensures |r| == RegionSize(Data(0, HEADER_SIZE + byteLen, isPtr))
    ensures WordAt(r, 0) * 2 == |r|
    ensures WordAt(r, CLASS_OFFSET) == classPtr
    ensures forall j :: 0 <= j < (byteLen + 1) / 2 ==>
      WordAt(r, HEADER_SIZE + 2 * j) == if isPtr then OBJECT_NIL else 0
    ensures !isPtr ==> forall q :: HEADER_SIZE <= q < |r| ==> r[q] == 0
  {
    var fieldBytes := byteLen + byteLen % 2;
    assert fieldBytes / 2 == (byteLen + 1) / 2 && fieldBytes % 2 == 0;
    var sizeWords: Word := 2 + fieldBytes / 2;
    var fields := InitialFields(fieldBytes, isPtr);
    var header := WordBytes(sizeWords) + WordBytes(classPtr);
    var r := header + fields;
    assert |header| == HEADER_SIZE;
    assert forall q :: 0 <= q < fieldBytes ==> r[HEADER_SIZE + q] == fields[q];
    r
  }
}
