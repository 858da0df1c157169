/**
 * Sub-key lists (libregf_sub_key_list.c): an index of a key's sub-keys. The
 * two-byte signature selects the entry layout: "ri" (an index root whose
 * entries point at further lists) and "li" hold 4-byte key offsets; "lf"
 * and "lh" hold 8-byte entries, a key offset followed by a name hash.
 */
module SubKeyList {
  import opened Common

  /** The signature and element count that precede the entries. */
  const SUB_KEY_LIST_SIZE: nat := 4

  /** A key offset and, for "lf"/"lh" entries, the stored name hash (0 otherwise). */
  datatype KeyDescriptor = KeyDescriptor(keyOffset: u32, hashValue: u32)

  /** The entry layout a signature selects. */
  datatype ListKind = ListKind(entrySize: nat, atLeafLevel: bool)

  /** "ri": 4-byte entries above the leaves; "li": 4-byte leaf entries; "lf"/"lh": 8-byte leaf entries. */
  function KindOf(s0: u8, s1: u8): (r: Option<ListKind>)
    ensures r.Some? ==> r.value.entrySize == 4 || r.value.entrySize == 8
    ensures r.Some? ==> (!r.value.atLeafLevel <==> s0 == 0x72 && s1 == 0x69)
  {
    if s0 == 0x72 && s1 == 0x69 then Some(ListKind(4, false))
    else if s0 == 0x6c && s1 == 0x69 then Some(ListKind(4, true))
    else if s0 == 0x6c && (s1 == 0x66 || s1 == 0x68) then Some(ListKind(8, true))
    else None
  }

  /** The entry at the front of `block`: a key offset, followed by a hash in 8-byte entries. */
  function FirstEntry(block: seq<u8>, entrySize: nat): KeyDescriptor
    requires entrySize <= |block| && (entrySize == 4 || entrySize == 8)
  {
    KeyDescriptor(U32At(block, 0), if entrySize == 8 then U32At(block, 4) else 0)
  }

  /** The whole entries of a block, in on-disk order. */
  function Entries(block: seq<u8>, entrySize: nat): seq<KeyDescriptor>
    requires entrySize == 4 || entrySize == 8
    decreases |block|
  {
    if |block| < entrySize then []
    else [FirstEntry(block, entrySize)] + Entries(block[entrySize..], entrySize)
  }

  /** The bytes `count` entries of `entrySize` bytes take. */
  function Span(count: nat, entrySize: nat): nat {
    if entrySize == 8 then 8 * count else 4 * count
  }

  /** A block of `count` entries holds `count` descriptors. */
  lemma {:induction false} EntriesLength(block: seq<u8>, count: nat, entrySize: nat)
    requires (entrySize == 4 || entrySize == 8) && |block| == Span(count, entrySize)
    ensures |Entries(block, entrySize)| == count
    decreases count
  {
    if count > 0 {
      EntriesLength(block[entrySize..], count - 1, entrySize);
    }
  }

  /** What libregf_sub_key_list_read_data makes of a cell. */
  datatype ListParse =
    | ListRejected
    | UnsupportedSignature
    | TooManyElements(atLeafLevel: bool)
    | ListParsed(atLeafLevel: bool, elements: seq<KeyDescriptor>)

  /**
   * The data must hold the list header (after the 4-byte prefix of format
   * 1.1 and earlier); the signature must be one of the four; the element
   * count must not exceed the bytes after the header divided by the entry
   * size. The elements are the entries that follow the header.
   */
  function ParseSubKeyList(version: FormatVersion, data: seq<u8>): (r: ListParse)
    ensures r.ListRejected? <==> |data| < RecordStart(version) + SUB_KEY_LIST_SIZE || |data| > SSIZE_MAX
    ensures r.ListParsed? ==>
      var start := RecordStart(version);
      var kind := KindOf(data[start], data[start + 1]);
      && kind.Some? && r.atLeafLevel == kind.value.atLeafLevel
      && |r.elements| == U16At(data, start + 2)
      && start + SUB_KEY_LIST_SIZE + Span(|r.elements|, kind.value.entrySize) <= |data|
  {
    var start := RecordStart(version);
    if |data| < start + SUB_KEY_LIST_SIZE || |data| > SSIZE_MAX then ListRejected
    else match KindOf(data[start], data[start + 1])
      case None => UnsupportedSignature
      case Some(kind) =>
        var count := U16At(data, start + 2);
        var at := start + SUB_KEY_LIST_SIZE;
        if count > (|data| - at) / kind.entrySize then TooManyElements(kind.atLeafLevel)
        else
          CountFits(count, |data| - at, kind.entrySize);
          EntriesLength(data[at..at + Span(count, kind.entrySize)], count, kind.entrySize);
          ListParsed(kind.atLeafLevel, Entries(data[at..at + Span(count, kind.entrySize)], kind.entrySize))
  }

  /** A count the bound check admits fits in the room left. */
  lemma CountFits(count: nat, room: nat, entrySize: nat)
    requires (entrySize == 4 || entrySize == 8) && count <= room / entrySize
    ensures Span(count, entrySize) <= room
  {
  }

  /** Entry `k` of a block is the key offset at `k * entrySize`, and the hash after it in 8-byte entries. */
  lemma {:induction false} EntryAt(block: seq<u8>, entrySize: nat, k: nat)
    requires (entrySize == 4 || entrySize == 8) && (k + 1) * entrySize <= |block|
    ensures k < |Entries(block, entrySize)|
    ensures Entries(block, entrySize)[k]
         == KeyDescriptor(U32At(block, k * entrySize), if entrySize == 8 then U32At(block, k * entrySize + 4) else 0)
    decreases k
  {
    var tail := block[entrySize..];
    if k > 0 {
      EntryAt(tail, entrySize, k - 1);
      U32AtSlice(block, entrySize, |block|, (k - 1) * entrySize);
      if entrySize == 8 {
        U32AtSlice(block, entrySize, |block|, (k - 1) * entrySize + 4);
      }
    }
  }

  /**
   * Element `k` of a parsed list is the entry at `k` entry sizes after the
   * header: its key offset, and for 8-byte entries its hash.
   */
  lemma ParsedElementAt(version: FormatVersion, data: seq<u8>, k: nat)
    requires ParseSubKeyList(version, data).ListParsed?
    requires k < |ParseSubKeyList(version, data).elements|
    ensures var start := RecordStart(version);
      var entrySize := KindOf(data[start], data[start + 1]).value.entrySize;
      var at := start + SUB_KEY_LIST_SIZE + k * entrySize;
      && at + entrySize <= |data|
      && ParseSubKeyList(version, data).elements[k]
         == KeyDescriptor(U32At(data, at), if entrySize == 8 then U32At(data, at + 4) else 0)
  {
    var start := RecordStart(version);
    var kind := KindOf(data[start], data[start + 1]).value;
    var count := U16At(data, start + 2);
    var at := start + SUB_KEY_LIST_SIZE;
    var end := at + Span(count, kind.entrySize);
    var block := data[at..end];
    EntryAt(block, kind.entrySize, k);
    U32AtSlice(data, at, end, k * kind.entrySize);
    if kind.entrySize == 8 {
      U32AtSlice(data, at, end, k * kind.entrySize + 4);
    }
  }

  /** The entries as a writer lays them out; 4-byte entries drop the hash. */
  function EncodeEntries(elements: seq<KeyDescriptor>, entrySize: nat): (d: seq<u8>)
    requires entrySize == 4 || entrySize == 8
    ensures |d| == Span(|elements|, entrySize)
  {
    if elements == [] then []
    else
      var e := elements[0];
      (if entrySize == 8 then Le32(e.keyOffset) + Le32(e.hashValue) else Le32(e.keyOffset))
      + EncodeEntries(elements[1..], entrySize)
  }

  /** Encoded entries read back as the same descriptors (4-byte entries with hash 0). */
  lemma {:induction false} EntriesOfEncoded(elements: seq<KeyDescriptor>, entrySize: nat)
    requires entrySize == 4 || entrySize == 8
    requires entrySize == 4 ==> forall k :: 0 <= k < |elements| ==> elements[k].hashValue == 0
    ensures Entries(EncodeEntries(elements, entrySize), entrySize) == elements
  {
    var block := EncodeEntries(elements, entrySize);
    if elements != [] {
      var e := elements[0];
      var head := if entrySize == 8 then Le32(e.keyOffset) + Le32(e.hashValue) else Le32(e.keyOffset);
      var tail := EncodeEntries(elements[1..], entrySize);
      assert block == head + tail;
      EntriesOfEncoded(elements[1..], entrySize);
      assert block[entrySize..] == tail;
      assert block[0..4] == Le32(e.keyOffset);
      Le32RoundTrip(e.keyOffset, block, 0);
      if entrySize == 8 {
        assert block[4..8] == Le32(e.hashValue);
        Le32RoundTrip(e.hashValue, block, 4);
      }
      assert FirstEntry(block, entrySize) == e;
      assert Entries(block, entrySize) == [e] + Entries(tail, entrySize);
      assert elements == [e] + elements[1..];
    }
  }

  /** An "lh" list of the given elements, as stored in format 1.3 and later. */
  function EncodeHashList(elements: seq<KeyDescriptor>): seq<u8>
    requires |elements| <= UINT16_MAX
  {
    [0x6c, 0x68] + Le16(|elements|) + EncodeEntries(elements, 8)
  }

  /** An encoded "lh" list parses back to its elements. */
  lemma ParseEncodedHashList(version: FormatVersion, elements: seq<KeyDescriptor>)
    requires RecordStart(version) == 0 && |elements| <= UINT16_MAX
    ensures ParseSubKeyList(version, EncodeHashList(elements)) == ListParsed(true, elements)
  {
    var data := EncodeHashList(elements);
    var count := |elements|;
    assert |data| == 4 + 8 * count;
    assert data[0] == 0x6c && data[1] == 0x68;
    assert KindOf(data[0], data[1]) == Some(ListKind(8, true));
    assert data[2..4] == Le16(count);
    Le16RoundTrip(count, data, 2);
    assert count <= (|data| - 4) / 8;
    assert data[4..4 + Span(count, 8)] == EncodeEntries(elements, 8);
    EntriesOfEncoded(elements, 8);
  }

  /** The 68-byte "lh" list of the test suite. */
  const SAMPLE_LIST: seq<u8> :=
    [0x6c, 0x68, 0x08, 0x00, 0x78, 0x01, 0x00, 0x00, 0xa2, 0xa9, 0x3b, 0x8f, 0x98, 0x3d, 0x22, 0x00]
    + [0xe5, 0x6c, 0xdd, 0xe9, 0x30, 0xb1, 0x24, 0x00, 0xf0, 0x56, 0x8b, 0x0a, 0x98, 0xdb, 0x24, 0x00]
    + [0x2b, 0x07, 0x7a, 0xfc, 0x70, 0xb4, 0x24, 0x00, 0x0f, 0xc2, 0x01, 0x00, 0xe8, 0xde, 0x24, 0x00]
    + [0xa0, 0x24, 0x00, 0x5f, 0x28, 0xb6, 0x24, 0x00, 0x81, 0xb8, 0x7c, 0x09, 0x20, 0xc0, 0x24, 0x00]
    + [0x10, 0xdd, 0x01, 0x00]

  /** The sample parses, in format 1.5, as a leaf list of 8 elements, the first at offset 0x178. */
  lemma SampleList()
    ensures var r := ParseSubKeyList(FormatVersion(1, 5), SAMPLE_LIST);
      && r.ListParsed? && r.atLeafLevel && |r.elements| == 8
      && r.elements[0] == KeyDescriptor(0x178, 0x8f3ba9a2)
  {
    var d := SAMPLE_LIST;
    assert |d| == 68;
    assert d[0] == 0x6c && d[1] == 0x68 && d[2] == 8 && d[3] == 0;
    assert d[4] == 0x78 && d[5] == 1 && d[6] == 0 && d[7] == 0;
    assert d[8] == 0xa2 && d[9] == 0xa9 && d[10] == 0x3b && d[11] == 0x8f;
    assert U16At(d, 2) == 8;
    var block := d[4..68];
    assert block[0] == 0x78 && block[1] == 1 && block[2] == 0 && block[3] == 0;
    assert block[4] == 0xa2 && block[5] == 0xa9 && block[6] == 0x3b && block[7] == 0x8f;
    assert Entries(block, 8)[0] == FirstEntry(block, 8);
  }

  /** One more entry takes one more entry size. */
  lemma SpanStep(count: nat, entrySize: nat)
    requires count > 0 && (entrySize == 4 || entrySize == 8)
    ensures Span(count, entrySize) == entrySize + Span(count - 1, entrySize)
  {
  }

  /** Moving past the first entry of a block. */
  lemma EntriesStep(data: seq<u8>, from: nat, end: nat, entrySize: nat)
    requires (entrySize == 4 || entrySize == 8) && from + entrySize <= end <= |data|
    ensures Entries(data[from..end], entrySize)
         == [FirstEntry(data[from..end], entrySize)] + Entries(data[from + entrySize..end], entrySize)
    ensures FirstEntry(data[from..end], entrySize)
         == KeyDescriptor(U32At(data, from), if entrySize == 8 then U32At(data, from + 4) else 0)
  {
    assert data[from..end][entrySize..] == data[from + entrySize..end];
  }

  /** The loop invariant of the element loop survives reading one entry. */
  lemma AppendFirstEntry(data: seq<u8>, from: nat, end: nat, entrySize: nat,
                         before: seq<KeyDescriptor>, target: seq<KeyDescriptor>)
    requires (entrySize == 4 || entrySize == 8) && from + entrySize <= end <= |data|
    requires before + Entries(data[from..end], entrySize) == target
    ensures (before + [KeyDescriptor(U32At(data, from), if entrySize == 8 then U32At(data, from + 4) else 0)])
            + Entries(data[from + entrySize..end], entrySize) == target
  {
    EntriesStep(data, from, end, entrySize);
  }

  class SubKeyList {
    /** The descriptors read so far, in on-disk order. */
    var descriptors: seq<KeyDescriptor>
    var atLeafLevel: bool

    /** libregf_sub_key_list_initialize: an empty list. */
    constructor ()
      ensures descriptors == [] && !atLeafLevel
    {
      descriptors := [];
      atLeafLevel := false;
    }

    /**
     * libregf_sub_key_list_read_data: one descriptor per element is appended.
     * The leaf-level flag is set as soon as the signature is recognised, so
     * it stays set when the element count is then refused.
     */
    method ReadData(version: FormatVersion, data: seq<u8>) returns (success: bool)
      modifies this
      ensures match ParseSubKeyList(version, data)
        case ListRejected => !success && unchanged(this)
        case UnsupportedSignature => !success && unchanged(this)
        case TooManyElements(leaf) => !success && descriptors == old(descriptors) && atLeafLevel == leaf
        case ListParsed(leaf, elements) =>
          success && descriptors == old(descriptors) + elements && atLeafLevel == leaf
    {
      var start := RecordStart(version);
      if |data| < start + SUB_KEY_LIST_SIZE || |data| > SSIZE_MAX {
        return false;
      }
      var entrySize := 0;
      if data[start] == 0x72 && data[start + 1] == 0x69 {
        entrySize, atLeafLevel := 4, false;
      } else if data[start] == 0x6c && data[start + 1] == 0x69 {
        entrySize, atLeafLevel := 4, true;
      } else if data[start] == 0x6c && (data[start + 1] == 0x66 || data[start + 1] == 0x68) {
        entrySize, atLeafLevel := 8, true;
      } else {
        return false;
      }
      assert KindOf(data[start], data[start + 1]) == Some(ListKind(entrySize, atLeafLevel));
      var numberOfElements := U16At(data, start + 2);
      var dataOffset := start + SUB_KEY_LIST_SIZE;
      if numberOfElements > (|data| - dataOffset) / entrySize {
        return false;
      }
      CountFits(numberOfElements, |data| - dataOffset, entrySize);
      AppendEntries(data, dataOffset, numberOfElements, entrySize);
      return true;
    }

    /** The element loop of libregf_sub_key_list_read_data: one descriptor per entry, in order. */
    method AppendEntries(data: seq<u8>, at: nat, numberOfElements: nat, entrySize: nat)
      requires (entrySize == 4 || entrySize == 8) && at + Span(numberOfElements, entrySize) <= |data|
      modifies this`descriptors
      ensures descriptors == old(descriptors) + Entries(data[at..at + Span(numberOfElements, entrySize)], entrySize)
    {
      ghost var end := at + Span(numberOfElements, entrySize);
      ghost var all := Entries(data[at..end], entrySize);
      var dataOffset := at;
      var elementIndex := 0;
      while elementIndex < numberOfElements
        invariant elementIndex <= numberOfElements && at <= dataOffset <= end
        invariant end - dataOffset == Span(numberOfElements - elementIndex, entrySize)
        invariant descriptors + Entries(data[dataOffset..end], entrySize) == old(descriptors) + all
      {
        SpanStep(numberOfElements - elementIndex, entrySize);
        AppendFirstEntry(data, dataOffset, end, entrySize, descriptors, old(descriptors) + all);
        var keyOffset := U32At(data, dataOffset);
        dataOffset := dataOffset + 4;
        var hashValue := 0;
        if entrySize == 8 {
          hashValue := U32At(data, dataOffset);
          dataOffset := dataOffset + 4;
        }
        descriptors := descriptors + [KeyDescriptor(keyOffset, hashValue)];
        elementIndex := elementIndex + 1;
      }
      assert data[dataOffset..end] == [];
      assert descriptors == old(descriptors) + all;
    }
  }
}
