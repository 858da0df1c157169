/**
 * A value of a key (libregf_value_item.c): its "vk" value key and its data.
 * The data is either copied out of one cell into a buffer, or, for large
 * values of format 1.5 and later, described by a stream of data block
 * segments that is read from the file and cached on first use.
 */
module ValueItem {
  import opened Common
  import opened Text
  import opened HiveBinsList
  import opened NamedKey
  import opened MultiString
  import VK = ValueKey
  import DBK = DataBlockKey

  const NO_OFFSET: u32 := 0xffff_ffff
  const INT32_MAX: int := 0x7fff_ffff
  /** The most data one data block segment holds. */
  const MAXIMUM_SEGMENT_SIZE: nat := 16344

  /** Windows registry value types the getters distinguish. */
  const VALUE_TYPE_STRING: u32 := 1
  const VALUE_TYPE_EXPANDABLE_STRING: u32 := 2
  const VALUE_TYPE_BINARY_DATA: u32 := 3
  const VALUE_TYPE_INTEGER_32BIT_LITTLE_ENDIAN: u32 := 4
  const VALUE_TYPE_INTEGER_32BIT_BIG_ENDIAN: u32 := 5
  const VALUE_TYPE_INTEGER_64BIT_LITTLE_ENDIAN: u32 := 11

  predicate IsStringType(valueType: u32) {
    valueType == VALUE_TYPE_STRING || valueType == VALUE_TYPE_EXPANDABLE_STRING
  }

  predicate Is32BitType(valueType: u32) {
    valueType == VALUE_TYPE_INTEGER_32BIT_LITTLE_ENDIAN || valueType == VALUE_TYPE_INTEGER_32BIT_BIG_ENDIAN
  }

  /** The item's data_type: not set yet, a buffer, or a data block stream. */
  datatype DataKind = Unset | Buffer | Block

  /** One stream segment: where its data lies in the file and how much of it counts. */
  datatype Segment = Segment(fileOffset: u32, size: nat)

  function SegmentsSize(segments: seq<Segment>): nat {
    if |segments| == 0 then 0 else SegmentsSize(segments[..|segments| - 1]) + segments[|segments| - 1].size
  }

  lemma SegmentsSizeAppend(segments: seq<Segment>, s: Segment)
    ensures SegmentsSize(segments + [s]) == SegmentsSize(segments) + s.size
  {
    assert (segments + [s])[..|segments|] == segments;
  }

  predicate SegmentsBounded(segments: seq<Segment>) {
    forall k :: 0 <= k < |segments| ==> segments[k].size <= MAXIMUM_SEGMENT_SIZE
  }

  // ---------------------------------------------------------------------
  // Data block lists
  // ---------------------------------------------------------------------

  /** The cell offset of the `j`-th element of a data block list. */
  function SegmentCellOffset(list: seq<u8>, j: nat): u32
    requires 4 * j + 4 <= |list|
  {
    U32At(list, 4 * j)
  }

  /** A segment cell holds its data after 4 more bytes; the uint32_t difference wraps. */
  function RawSegmentSize(cell: seq<u8>): u32 {
    Wrap32(|cell| - 4)
  }

  predicate OversizedCell(h: HiveBinsList, offset: u32) {
    offset in h.cells && RawSegmentSize(h.cells[offset]) > MAXIMUM_SEGMENT_SIZE
  }

  /** The running state of the segment loop. */
  datatype SegmentScan = SegmentScan(segments: seq<Segment>, total: u32, corrupted: bool)

  /**
   * One element of the list: the segment's size is the cell's less 4,
   * at most 16344 (more is corruption), and no more than what is left of
   * the value data size. The sums are uint32_t.
   */
  function NextSegment(h: HiveBinsList, elementOffset: u32, cell: seq<u8>, valueDataSize: u32, acc: SegmentScan): SegmentScan {
    var raw := RawSegmentSize(cell);
    var capped := if raw > MAXIMUM_SEGMENT_SIZE then MAXIMUM_SEGMENT_SIZE else raw;
    var size := if Wrap32(acc.total + capped) > valueDataSize then Wrap32(valueDataSize - acc.total) else capped;
    SegmentScan(
      acc.segments + [Segment(Wrap32(h.hiveBinsListOffset + 4 + elementOffset), size)],
      Wrap32(acc.total + size),
      acc.corrupted || raw > MAXIMUM_SEGMENT_SIZE)
  }

  /** The segment loop from element `i` on; None when an element's cell is missing. */
  function ScanSegments(h: HiveBinsList, list: seq<u8>, n: nat, i: nat, valueDataSize: u32, acc: SegmentScan): (r: Option<SegmentScan>)
    requires i <= n && 4 * n <= |list|
    ensures r.Some? ==> |r.value.segments| == |acc.segments| + (n - i) && acc.segments <= r.value.segments
    ensures r.Some? && acc.corrupted ==> r.value.corrupted
    decreases n - i
  {
    if i == n then Some(acc)
    else
      var elementOffset := SegmentCellOffset(list, i);
      match CellAt(h, elementOffset)
      case Err => None
      case Ok(cell) => ScanSegments(h, list, n, i + 1, valueDataSize, NextSegment(h, elementOffset, cell, valueDataSize, acc))
  }

  /** The loop stops at the first element whose cell is missing, and only there. */
  lemma {:induction false} ScanSegmentsFails(h: HiveBinsList, list: seq<u8>, n: nat, i: nat, valueDataSize: u32, acc: SegmentScan)
    requires i <= n && 4 * n <= |list|
    ensures ScanSegments(h, list, n, i, valueDataSize, acc).None?
        <==> exists j :: i <= j < n && SegmentCellOffset(list, j) !in h.cells
    decreases n - i
  {
    if i < n {
      var elementOffset := SegmentCellOffset(list, i);
      if elementOffset in h.cells {
        var next := NextSegment(h, elementOffset, h.cells[elementOffset], valueDataSize, acc);
        assert ScanSegments(h, list, n, i, valueDataSize, acc) == ScanSegments(h, list, n, i + 1, valueDataSize, next);
        ScanSegmentsFails(h, list, n, i + 1, valueDataSize, next);
        if exists j :: i <= j < n && SegmentCellOffset(list, j) !in h.cells {
          var j :| i <= j < n && SegmentCellOffset(list, j) !in h.cells;
          assert j != i;
        }
      }
    }
  }

  /** One element's step keeps the running total exact, bounded and unwrapped. */
  lemma NextSegmentMeaning(h: HiveBinsList, elementOffset: u32, cell: seq<u8>, valueDataSize: u32, acc: SegmentScan, i: nat)
    requires i < 0xffff && |acc.segments| == i
    requires acc.total == SegmentsSize(acc.segments) <= valueDataSize
    requires acc.total <= MAXIMUM_SEGMENT_SIZE * i && SegmentsBounded(acc.segments)
    ensures var next := NextSegment(h, elementOffset, cell, valueDataSize, acc);
      && |next.segments| == i + 1
      && next.total == SegmentsSize(next.segments) <= valueDataSize
      && next.total <= MAXIMUM_SEGMENT_SIZE * (i + 1)
      && SegmentsBounded(next.segments)
      && next.segments[..i] == acc.segments
      && next.segments[i].fileOffset == Wrap32(h.hiveBinsListOffset + 4 + elementOffset)
      && (next.corrupted <==> acc.corrupted || RawSegmentSize(cell) > MAXIMUM_SEGMENT_SIZE)
  {
    var next := NextSegment(h, elementOffset, cell, valueDataSize, acc);
    var raw := RawSegmentSize(cell);
    var capped := if raw > MAXIMUM_SEGMENT_SIZE then MAXIMUM_SEGMENT_SIZE else raw;
    assert acc.total + capped < 0x1_0000_0000;
    var s := next.segments[i];
    assert s.size <= capped && acc.total + s.size <= valueDataSize;
    SegmentsSizeAppend(acc.segments, s);
    assert next.segments == acc.segments + [s];
  }

  /**
   * What the loop builds: one segment per element, placed at the data of
   * the element's cell in the file.
   */
  lemma {:induction false} ScanSegmentsPlacement(h: HiveBinsList, list: seq<u8>, n: nat, i: nat, valueDataSize: u32, acc: SegmentScan)
    requires i <= n && 4 * n <= |list| && |acc.segments| == i
    requires ScanSegments(h, list, n, i, valueDataSize, acc).Some?
    ensures var r := ScanSegments(h, list, n, i, valueDataSize, acc).value;
      && |r.segments| == n
      && r.segments[..i] == acc.segments
      && (forall j :: i <= j < n ==> r.segments[j].fileOffset == Wrap32(h.hiveBinsListOffset + 4 + SegmentCellOffset(list, j)))
    decreases n - i
  {
    if i < n {
      var elementOffset := SegmentCellOffset(list, i);
      var next := NextSegment(h, elementOffset, h.cells[elementOffset], valueDataSize, acc);
      assert ScanSegments(h, list, n, i, valueDataSize, acc) == ScanSegments(h, list, n, i + 1, valueDataSize, next);
      assert next.segments == acc.segments + [next.segments[i]];
      assert next.segments[i].fileOffset == Wrap32(h.hiveBinsListOffset + 4 + elementOffset);
      ScanSegmentsPlacement(h, list, n, i + 1, valueDataSize, next);
      var r := ScanSegments(h, list, n, i + 1, valueDataSize, next).value;
      assert r.segments[..i + 1] == next.segments;
      assert r.segments[..i] == next.segments[..i];
      assert r.segments[i] == next.segments[i];
    }
  }

  /**
   * Each segment holds at most 16344 bytes, and the running total never
   * passes the value data size and never wraps.
   */
  lemma {:induction false} ScanSegmentsMeaning(h: HiveBinsList, list: seq<u8>, n: nat, i: nat, valueDataSize: u32, acc: SegmentScan)
    requires i <= n <= 0xffff && 4 * n <= |list|
    requires |acc.segments| == i && acc.total == SegmentsSize(acc.segments) <= valueDataSize
    requires acc.total <= MAXIMUM_SEGMENT_SIZE * i && SegmentsBounded(acc.segments)
    requires ScanSegments(h, list, n, i, valueDataSize, acc).Some?
    ensures var r := ScanSegments(h, list, n, i, valueDataSize, acc).value;
      r.total == SegmentsSize(r.segments) <= valueDataSize && SegmentsBounded(r.segments)
    decreases n - i
  {
    if i < n {
      var elementOffset := SegmentCellOffset(list, i);
      var next := NextSegment(h, elementOffset, h.cells[elementOffset], valueDataSize, acc);
      assert ScanSegments(h, list, n, i, valueDataSize, acc) == ScanSegments(h, list, n, i + 1, valueDataSize, next);
      NextSegmentMeaning(h, elementOffset, h.cells[elementOffset], valueDataSize, acc, i);
      ScanSegmentsMeaning(h, list, n, i + 1, valueDataSize, next);
    }
  }

  /** The item is flagged corrupt exactly when some element's cell is too large for a segment. */
  lemma {:induction false} ScanSegmentsCorruption(h: HiveBinsList, list: seq<u8>, n: nat, i: nat, valueDataSize: u32, acc: SegmentScan)
    requires i <= n && 4 * n <= |list|
    requires ScanSegments(h, list, n, i, valueDataSize, acc).Some?
    ensures ScanSegments(h, list, n, i, valueDataSize, acc).value.corrupted
        <==> acc.corrupted || exists j :: i <= j < n && OversizedCell(h, SegmentCellOffset(list, j))
    decreases n - i
  {
    if i < n {
      var elementOffset := SegmentCellOffset(list, i);
      var next := NextSegment(h, elementOffset, h.cells[elementOffset], valueDataSize, acc);
      assert ScanSegments(h, list, n, i, valueDataSize, acc) == ScanSegments(h, list, n, i + 1, valueDataSize, next);
      ScanSegmentsCorruption(h, list, n, i + 1, valueDataSize, next);
      if exists j :: i <= j < n && OversizedCell(h, SegmentCellOffset(list, j)) {
        var j :| i <= j < n && OversizedCell(h, SegmentCellOffset(list, j));
        assert j == i || (i + 1 <= j < n && OversizedCell(h, SegmentCellOffset(list, j)));
      }
    }
  }

  /**
   * What reading a value's data leaves in the item: the data kind it sets
   * (Unset: left as it was), a buffer (empty: left as it was), the stream
   * (only with Block) and whether the item is flagged corrupt.
   */
  datatype DataRead = DataRead(kind: DataKind, buffer: seq<u8>, stream: Option<seq<Segment>>, corrupted: bool)

  /** The data part of an item's state. */
  datatype DataState = DataState(kind: DataKind, buffer: seq<u8>, stream: Option<seq<Segment>>, flags: u8)

  function Store(d: DataRead, s: DataState): (r: DataState)
    ensures d.corrupted ==> HasFlag(r.flags, ITEM_FLAG_IS_CORRUPTED)
    ensures d.kind == Unset ==> r.kind == s.kind && r.stream == s.stream
  {
    DataState(
      if d.kind == Unset then s.kind else d.kind,
      if |d.buffer| > 0 then d.buffer else s.buffer,
      if d.kind == Block then d.stream else s.stream,
      if d.corrupted then MarkCorrupted(s.flags) else s.flags)
  }

  /** A missing cell somewhere on the way: flag the item, store nothing. */
  const CORRUPT_NO_DATA: DataRead := DataRead(Unset, [], None, true)

  /**
   * libregf_value_item_read_data_block_list. Offset 0 or 0xffffffff, an
   * empty or oversized list cell, or more segments than the list holds
   * offsets are errors; a missing list cell flags corruption and stores
   * nothing; a missing element cell flags corruption and leaves a Block
   * item without a stream.
   */
  function ReadDataBlockListOf(h: HiveBinsList, listOffset: u32, numberOfSegments: u16, valueDataSize: u32): (r: Result<DataRead>)
    ensures r.Ok? ==> r.value.buffer == [] && r.value.kind != Buffer
  {
    if listOffset == 0 || listOffset == NO_OFFSET then Err
    else match CellAt(h, listOffset)
      case Err => Ok(CORRUPT_NO_DATA)
      case Ok(list) =>
        if |list| == 0 || |list| > MEMORY_MAXIMUM_ALLOCATION_SIZE then Err
        else if numberOfSegments > |list| / 4 then Err
        else match ScanSegments(h, list, numberOfSegments, 0, valueDataSize, SegmentScan([], 0, false))
          case None => Ok(DataRead(Block, [], None, true))
          case Some(s) => Ok(DataRead(Block, [], Some(s.segments), s.corrupted))
  }

  /**
   * A list that reads gives exactly `numberOfSegments` segments of at most
   * 16344 bytes each, which together hold no more than the value data
   * size; the stream is missing exactly when some element's cell is.
   */
  lemma ReadDataBlockListMeaning(h: HiveBinsList, listOffset: u32, numberOfSegments: u16, valueDataSize: u32)
    requires listOffset in h.cells && listOffset != 0 && listOffset != NO_OFFSET
    requires var list := h.cells[listOffset];
      0 < |list| <= MEMORY_MAXIMUM_ALLOCATION_SIZE && numberOfSegments <= |list| / 4
    ensures var r := ReadDataBlockListOf(h, listOffset, numberOfSegments, valueDataSize);
      && r.Ok? && r.value.kind == Block
      && (r.value.stream.None?
          <==> exists j :: 0 <= j < numberOfSegments && SegmentCellOffset(h.cells[listOffset], j) !in h.cells)
      && (r.value.stream.Some? ==>
            && |r.value.stream.value| == numberOfSegments
            && SegmentsBounded(r.value.stream.value)
            && SegmentsSize(r.value.stream.value) <= valueDataSize
            && (forall j :: 0 <= j < numberOfSegments ==>
                  r.value.stream.value[j].fileOffset
                  == Wrap32(h.hiveBinsListOffset + 4 + SegmentCellOffset(h.cells[listOffset], j)))
            && (r.value.corrupted
                <==> exists j :: 0 <= j < numberOfSegments && OversizedCell(h, SegmentCellOffset(h.cells[listOffset], j))))
  {
    var list := h.cells[listOffset];
    var init := SegmentScan([], 0, false);
    ScanSegmentsFails(h, list, numberOfSegments, 0, valueDataSize, init);
    if ScanSegments(h, list, numberOfSegments, 0, valueDataSize, init).Some? {
      ScanSegmentsMeaning(h, list, numberOfSegments, 0, valueDataSize, init);
      ScanSegmentsPlacement(h, list, numberOfSegments, 0, valueDataSize, init);
      ScanSegmentsCorruption(h, list, numberOfSegments, 0, valueDataSize, init);
    }
  }

  // ---------------------------------------------------------------------
  // Data stored in one cell
  // ---------------------------------------------------------------------

  /**
   * How much of a data cell libregf_value_item_read_value_data copies, as
   * written: a data size larger than the cell is cut to the cell size,
   * although the copy starts `start` bytes into the cell.
   */
  function CopyEndAsWritten(start: nat, cellSize: nat, valueDataSize: nat): (r: nat)
    ensures start <= r <= start + cellSize && r <= start + valueDataSize
    ensures r == start + cellSize || r == start + valueDataSize
  {
    start + (if valueDataSize > cellSize then cellSize else valueDataSize)
  }

  /** A format 1.1 value whose data size equals its 16-byte cell is copied from bytes 4 to 20 of it. */
  lemma CopyAsWrittenOverrunsCell()
    ensures var start := RecordStart(FormatVersion(1, 1));
      start == 4 && CopyEndAsWritten(start, 16, 16) == 20 > 16
  {
  }

  /** As written the copy overruns by at most the 4-byte data offset. */
  lemma CopyAsWrittenOverrunBound(version: FormatVersion, cellSize: nat, valueDataSize: nat)
    ensures CopyEndAsWritten(RecordStart(version), cellSize, valueDataSize) <= cellSize + RecordStart(version)
  {
  }

  /**
   * The evident intent: the data size is cut to what the cell holds after
   * the data offset, and the copy stays inside the cell.
   */
  function ClampToCell(start: nat, cellSize: nat, valueDataSize: nat): (r: nat)
    ensures r <= valueDataSize
    ensures start <= cellSize ==> start + r <= cellSize
    ensures start > cellSize ==> r == 0
    ensures r == valueDataSize <==> (start <= cellSize && valueDataSize <= cellSize - start) || valueDataSize == 0
  {
    var room := if start <= cellSize then cellSize - start else 0;
    if valueDataSize > room then room else valueDataSize
  }

  /** The number of bytes up to and including the first aligned 0x0000 unit, or all whole units. */
  function NulScan(s: seq<u8>): (r: nat)
    ensures r <= |s|
    decreases |s|
  {
    if |s| < 2 then 0
    else if s[0] == 0 && s[1] == 0 then 2
    else 2 + NulScan(s[2..])
  }

  /**
   * NulScan ends just after the first aligned 0x0000 unit; when there is
   * none, it covers every whole unit.
   */
  lemma {:induction false} NulScanMeaning(s: seq<u8>)
    ensures NulScan(s) % 2 == 0
    ensures NoNulUnit(s) ==> NulScan(s) == |s| - |s| % 2
    ensures !NoNulUnit(s) ==>
      && 2 <= NulScan(s)
      && s[NulScan(s) - 2] == 0 && s[NulScan(s) - 1] == 0
      && NoNulUnit(s[..NulScan(s) - 2])
    decreases |s|
  {
    if |s| >= 2 && !(s[0] == 0 && s[1] == 0) {
      NulScanMeaning(s[2..]);
      var r := NulScan(s[2..]);
      if !NoNulUnit(s) {
        assert s[..2 + r - 2][2..] == s[2..][..r - 2];
      }
    }
  }

  /**
   * The size of a string value: up to and including the first aligned
   * 0x0000 unit when that differs from the stored size, unless the bytes
   * up to there are not valid UTF-16 text.
   */
  function StringDataSize(body: seq<u8>, valueDataSize: nat, utf16le: Decoder<u8>): (r: nat)
    requires valueDataSize <= |body|
    ensures r <= |body|
    ensures r == valueDataSize || r == NulScan(body)
  {
    var calculated := NulScan(body);
    if calculated != valueDataSize && DecodeAll(utf16le, body[..calculated], 0).None? then valueDataSize
    else calculated
  }

  /** The bytes of a data cell after the data offset. */
  function CellBody(version: FormatVersion, cell: seq<u8>): seq<u8> {
    var start := RecordStart(version);
    if start <= |cell| then cell[start..] else []
  }

  /**
   * The buffer branch of libregf_value_item_read_value_data: a data size
   * above the whole cell's size is corruption (an error for cells above
   * INT32_MAX); the size is then cut to what follows the data offset,
   * strings are re-measured, and a size above the allocation limit is an
   * error.
   */
  function CellData(version: FormatVersion, utf16le: Decoder<u8>, valueType: u32, cell: seq<u8>, valueDataSize: u32): (r: Result<DataRead>)
    ensures valueDataSize > |cell| > INT32_MAX ==> r.Err?
    ensures r.Ok? ==> r.value.kind == Buffer && r.value.stream.None?
    ensures r.Ok? ==> r.value.buffer <= CellBody(version, cell)
    ensures r.Ok? && !IsStringType(valueType) ==> |r.value.buffer| == ClampToCell(RecordStart(version), |cell|, valueDataSize)
    ensures r.Ok? ==> (r.value.corrupted <==> valueDataSize > |cell|)
  {
    var body := CellBody(version, cell);
    if valueDataSize > |cell| && |cell| > INT32_MAX then Err
    else
      var clamped := ClampToCell(RecordStart(version), |cell|, valueDataSize);
      var size := if IsStringType(valueType) then StringDataSize(body, clamped, utf16le) else clamped;
      if size > MEMORY_MAXIMUM_ALLOCATION_SIZE then Err
      else Ok(DataRead(Buffer, body[..size], None, valueDataSize > |cell|))
  }

  /** A stored value's data is copied whole when it fits after the data offset. */
  lemma CellDataKeepsFittingData(version: FormatVersion, utf16le: Decoder<u8>, valueType: u32, cell: seq<u8>, valueDataSize: u32)
    requires !IsStringType(valueType)
    requires RecordStart(version) + valueDataSize <= |cell|
    requires valueDataSize <= MEMORY_MAXIMUM_ALLOCATION_SIZE
    ensures CellData(version, utf16le, valueType, cell, valueDataSize)
         == Ok(DataRead(Buffer, cell[RecordStart(version)..RecordStart(version) + valueDataSize], None, false))
  {
    var start := RecordStart(version);
    assert CellBody(version, cell)[..valueDataSize] == cell[start..start + valueDataSize];
  }

  /**
   * A stored size that exceeds what follows the data offset but not the
   * whole cell is cut to the cell without being flagged corrupted: the
   * flag tests the whole cell size.
   */
  lemma CellDataWithinCellIsNotCorrupt(version: FormatVersion, utf16le: Decoder<u8>, valueType: u32, cell: seq<u8>, valueDataSize: u32)
    requires !IsStringType(valueType)
    requires valueDataSize <= |cell| && valueDataSize <= MEMORY_MAXIMUM_ALLOCATION_SIZE
    ensures var r := CellData(version, utf16le, valueType, cell, valueDataSize);
      && r.Ok? && !r.value.corrupted
      && r.value.buffer == CellBody(version, cell)[..ClampToCell(RecordStart(version), |cell|, valueDataSize)]
  {
  }

  /** Format 1.5 and later keeps value data above 16344 bytes in a data block. */
  predicate InDataBlock(version: FormatVersion, valueDataSize: u32) {
    valueDataSize > MAXIMUM_SEGMENT_SIZE && version.major >= 1 && version.minor >= 5
  }

  /** The value data lies in its own cell, and its stored size exceeds that cell. */
  predicate OversizedInlineData(h: HiveBinsList, offset: u32, valueDataSize: u32) {
    && offset != 0 && offset != NO_OFFSET && offset in h.cells
    && !InDataBlock(h.version, valueDataSize)
    && valueDataSize > |h.cells[offset]|
  }

  /**
   * libregf_value_item_read_value_data. Offset 0 or 0xffffffff and a
   * missing cell are errors. Format 1.5 and later keeps data above 16344
   * bytes in a data block; a list offset outside the hive bins is
   * corruption. Everything else is copied out of the cell.
   */
  function ReadValueDataOf(h: HiveBinsList, codecs: NameCodecs, valueType: u32, offset: u32, valueDataSize: u32): (r: Result<DataRead>)
    ensures offset == 0 || offset == NO_OFFSET || offset !in h.cells ==> r.Err?
    ensures r.Ok? && r.value.kind == Buffer ==> r.value.buffer <= CellBody(h.version, h.cells[offset])
    ensures r.Ok? && r.value.kind != Buffer ==> r.value.buffer == []
  {
    if offset == 0 || offset == NO_OFFSET then Err
    else match CellAt(h, offset)
      case Err => Err
      case Ok(cell) =>
        if InDataBlock(h.version, valueDataSize) then
          match DBK.ReadData(cell)
          case Err => Err
          case Ok(key) =>
            if !InBins(h.bins, key.dataBlockListOffset) then Ok(CORRUPT_NO_DATA)
            else ReadDataBlockListOf(h, key.dataBlockListOffset, key.numberOfSegments, valueDataSize)
        else CellData(h.version, codecs.utf16le, valueType, cell, valueDataSize)
  }

  /** Small data, and any data before format 1.5, never goes through a data block. */
  lemma SmallDataIsBuffered(h: HiveBinsList, codecs: NameCodecs, valueType: u32, offset: u32, valueDataSize: u32)
    requires valueDataSize <= MAXIMUM_SEGMENT_SIZE || h.version.minor < 5
    ensures var r := ReadValueDataOf(h, codecs, valueType, offset, valueDataSize);
      r.Ok? ==> r.value.kind == Buffer
  {
  }

  // ---------------------------------------------------------------------
  // Value keys
  // ---------------------------------------------------------------------

  /** How libregf_value_item_read_value_key ends. */
  datatype ValueKeyRead =
    | KeyReadError
      /** The cell cannot hold a value key: corruption, no key. */
    | CellTooSmall
      /** No "vk" signature: corruption, and a blank key. */
    | NotAValueKey
    | KeyRead(fields: VK.ValueFields, name: Option<seq<u8>>, data: DataRead)

  /** The status libregf_value_key_read_data returns for a record. */
  function ValueKeyStatus(parse: VK.ValueParse, codecs: NameCodecs): Status {
    match parse
    case ValueRejected => Failure
    case NotValueKey => Absent
    case ValueBadNameSize(_) => Failure
    case ValueParsed(f, nm) =>
      if f.nameSize == 0 || NameHash(NameDecoder(f.flags, codecs), codecs.upper, nm, 0, 0).ok then Success
      else Failure
  }

  /**
   * libregf_value_item_read_value_key. Offset 0 or 0xffffffff, a missing
   * cell and a value key that does not read are errors. A cell smaller
   * than the value key record (4 bytes more in format 1.1 and earlier) or
   * without the "vk" signature is corruption. The data is read only when
   * its offset lies in the hive bins, and is corruption otherwise.
   */
  function ReadValueKeyOf(h: HiveBinsList, codecs: NameCodecs, offset: u32): (r: ValueKeyRead)
    ensures r.KeyRead? ==> (r.name.Some? <==> r.fields.nameSize > 0)
  {
    if offset == 0 || offset == NO_OFFSET then KeyReadError
    else match CellAt(h, offset)
      case Err => KeyReadError
      case Ok(cell) =>
        if |cell| < VK.VALUE_KEY_SIZE + RecordStart(h.version) then CellTooSmall
        else
          var parse := VK.ParseValueKey(cell);
          match ValueKeyStatus(parse, codecs)
          case Failure => KeyReadError
          case Absent => NotAValueKey
          case Success =>
            var f := parse.fields;
            var name := if f.nameSize == 0 then None else Some(parse.name);
            if !InBins(h.bins, f.dataOffset) then KeyRead(f, name, CORRUPT_NO_DATA)
            else match ReadValueDataOf(h, codecs, f.dataType, f.dataOffset, f.dataSize)
              case Err => KeyReadError
              case Ok(d) => KeyRead(f, name, d)
  }

  /** A record encoded by the value key writer, in a large enough cell, reads its fields and name back. */
  lemma ReadEncodedValueKey(h: HiveBinsList, codecs: NameCodecs, offset: u32, f: VK.ValueFields, name: seq<u8>)
    requires offset != 0 && offset != NO_OFFSET && offset in h.cells
    requires h.cells[offset] == VK.EncodeValueFields(f) + name
    requires |name| == f.nameSize && 4 <= |name|
    requires NameHash(NameDecoder(f.flags, codecs), codecs.upper, name, 0, 0).ok
    ensures var r := ReadValueKeyOf(h, codecs, offset);
      (r.KeyRead? || r.KeyReadError?) && (r.KeyRead? ==> r.fields == f && r.name == Some(name))
  {
    VK.ParseEncodedValueKey(f, name);
  }

  // ---------------------------------------------------------------------
  // Reading the data back
  // ---------------------------------------------------------------------

  /** The bytes of the stream's segments, read one after the other from the file. */
  function StreamBytes(file: seq<u8>, segments: seq<Segment>): (r: Option<seq<u8>>)
    ensures r.Some? ==> |r.value| == SegmentsSize(segments)
  {
    if |segments| == 0 then Some([])
    else
      match StreamBytes(file, segments[..|segments| - 1])
      case None => None
      case Some(prefix) =>
        var s := segments[|segments| - 1];
        if s.fileOffset + s.size <= |file| then Some(prefix + file[s.fileOffset..s.fileOffset + s.size])
        else None
  }

  /** The 32-bit integer of a DWORD value, in the byte order its type names. */
  function Value32(valueType: u32, data: seq<u8>): (r: Result<u32>)
    ensures r.Ok? <==> Is32BitType(valueType) && |data| >= 4
  {
    if !Is32BitType(valueType) || |data| < 4 then Err
    else if valueType == VALUE_TYPE_INTEGER_32BIT_BIG_ENDIAN then Ok(U32BeAt(data, 0))
    else Ok(U32At(data, 0))
  }

  lemma Value32LittleEndian(x: u32, rest: seq<u8>)
    ensures Value32(VALUE_TYPE_INTEGER_32BIT_LITTLE_ENDIAN, Le32(x) + rest) == Ok(x)
  {
    var d := Le32(x) + rest;
    assert d[0..4] == Le32(x);
    Le32RoundTrip(x, d, 0);
  }

  lemma Value32BigEndian(x: u32, rest: seq<u8>)
    ensures Value32(VALUE_TYPE_INTEGER_32BIT_BIG_ENDIAN, Be32(x) + rest) == Ok(x)
  {
    var d := Be32(x) + rest;
    assert d[0..4] == Be32(x);
    Be32RoundTrip(x, d, 0);
  }

  /** The 64-bit integer of a QWORD value, little-endian. */
  function Value64(valueType: u32, data: seq<u8>): (r: Result<u64>)
    ensures r.Ok? <==> valueType == VALUE_TYPE_INTEGER_64BIT_LITTLE_ENDIAN && |data| >= 8
  {
    if valueType != VALUE_TYPE_INTEGER_64BIT_LITTLE_ENDIAN || |data| < 8 then Err
    else Ok(U64At(data, 0))
  }

  lemma Value64LittleEndian(x: u64, rest: seq<u8>)
    ensures Value64(VALUE_TYPE_INTEGER_64BIT_LITTLE_ENDIAN, Le64(x) + rest) == Ok(x)
  {
    var d := Le64(x) + rest;
    assert d[0..8] == Le64(x);
    Le64RoundTrip(x, d, 0);
  }

  /** A binary value's data fits a destination of `binaryDataSize` bytes only when it is no larger. */
  function BinaryData(data: seq<u8>, binaryDataSize: nat): (r: Result<seq<u8>>)
    ensures r.Ok? <==> 0 < |data| <= binaryDataSize
    ensures r.Ok? ==> r.value == data
  {
    if |data| == 0 || binaryDataSize < |data| then Err else Ok(data)
  }

  class ValueItem {
    var valueKey: VK.ValueKey?
    var dataKind: DataKind
    /** The data buffer; empty stands for the C NULL pointer. */
    var dataBuffer: seq<u8>
    /** The data block stream of a Block item, None when it is missing. */
    var dataStream: Option<seq<Segment>>
    var itemFlags: u8

    function CurrentData(): DataState
      reads this
    {
      DataState(dataKind, dataBuffer, dataStream, itemFlags)
    }

    /** libregf_value_item_initialize: no key, no data. */
    constructor ()
      ensures valueKey == null && CurrentData() == DataState(Unset, [], None, 0)
    {
      valueKey := null;
      dataKind := Unset;
      dataBuffer := [];
      dataStream := None;
      itemFlags := 0;
    }

    /** libregf_value_item_is_corrupted */
    predicate IsCorrupted()
      reads this
    {
      HasFlag(itemFlags, ITEM_FLAG_IS_CORRUPTED)
    }

    /**
     * libregf_value_item_read_data_block_list: Success with a stream,
     * Absent when a cell is missing, Failure on an error, which changes
     * nothing.
     */
    method ReadDataBlockList(h: HiveBinsList, listOffset: u32, numberOfSegments: u16, valueDataSize: u32)
      returns (status: Status)
      modifies this`dataKind, this`dataStream, this`itemFlags
      ensures var d := ReadDataBlockListOf(h, listOffset, numberOfSegments, valueDataSize);
        && (status == Failure <==> d.Err?)
        && (status == Success <==> d.Ok? && d.value.stream.Some?)
        && (d.Ok? ==> CurrentData() == Store(d.value, old(CurrentData())))
        && (d.Err? ==> CurrentData() == old(CurrentData()))
    {
      if listOffset == 0 || listOffset == NO_OFFSET {
        return Failure;
      }
      if listOffset !in h.cells {
        itemFlags := MarkCorrupted(itemFlags);
        return Absent;
      }
      var list := h.cells[listOffset];
      if |list| == 0 || |list| > MEMORY_MAXIMUM_ALLOCATION_SIZE {
        return Failure;
      }
      if numberOfSegments as int > |list| / 4 {
        return Failure;
      }
      dataKind := Block;
      var scan := ScanList(h, list, numberOfSegments, valueDataSize);
      if scan.None? {
        itemFlags := MarkCorrupted(itemFlags);
        dataStream := None;
        return Absent;
      }
      if scan.value.corrupted {
        itemFlags := MarkCorrupted(itemFlags);
      }
      dataStream := Some(scan.value.segments);
      return Success;
    }

    /**
     * The element loop of libregf_value_item_read_data_block_list: one
     * segment per element, None at the first element whose cell is missing.
     */
    static method ScanList(h: HiveBinsList, list: seq<u8>, numberOfSegments: u16, valueDataSize: u32)
      returns (scan: Option<SegmentScan>)
      requires 4 * (numberOfSegments as int) <= |list|
      ensures scan == ScanSegments(h, list, numberOfSegments as int, 0, valueDataSize, SegmentScan([], 0, false))
    {
      ghost var init := SegmentScan([], 0, false);
      var segments: seq<Segment> := [];
      var total: u32 := 0;
      var corrupted := false;
      var i := 0;
      while i < numberOfSegments as int
        invariant 0 <= i <= numberOfSegments as int
        invariant ScanSegments(h, list, numberOfSegments as int, i, valueDataSize, SegmentScan(segments, total, corrupted))
               == ScanSegments(h, list, numberOfSegments as int, 0, valueDataSize, init)
        decreases numberOfSegments as int - i
      {
        var elementOffset := U32At(list, 4 * i);
        if elementOffset !in h.cells {
          return None;
        }
        var cell := h.cells[elementOffset];
        ghost var acc := SegmentScan(segments, total, corrupted);
        var segment, tooLarge := SegmentOf(h, elementOffset, cell, valueDataSize, total);
        if tooLarge {
          corrupted := true;
        }
        segments := segments + [segment];
        total := Wrap32(total + segment.size);
        assert SegmentScan(segments, total, corrupted) == NextSegment(h, elementOffset, cell, valueDataSize, acc);
        i := i + 1;
      }
      return Some(SegmentScan(segments, total, corrupted));
    }

    /**
     * The segment of one list element: the cell's size less 4, capped at
     * 16344 (tooLarge then) and at what is left of the value data size.
     */
    static method SegmentOf(h: HiveBinsList, elementOffset: u32, cell: seq<u8>, valueDataSize: u32, total: u32)
      returns (segment: Segment, tooLarge: bool)
      ensures forall segments, corrupted ::
        (NextSegment(h, elementOffset, cell, valueDataSize, SegmentScan(segments, total, corrupted))
         == SegmentScan(segments + [segment], Wrap32(total + segment.size), corrupted || tooLarge))
    {
      var segmentOffset := Wrap32(h.hiveBinsListOffset + 4 + elementOffset);
      var segmentSize: nat := Wrap32(|cell| - 4);
      tooLarge := false;
      if segmentSize > MAXIMUM_SEGMENT_SIZE {
        tooLarge := true;
        segmentSize := MAXIMUM_SEGMENT_SIZE;
      }
      if Wrap32(total + segmentSize) > valueDataSize {
        segmentSize := Wrap32(valueDataSize - total);
      }
      segment := Segment(segmentOffset, segmentSize);
    }

    /** The bytes from the first aligned 0x0000 unit on are not part of a string. */
    static method ScanStringSize(body: seq<u8>) returns (calculated: nat)
      ensures calculated == NulScan(body)
    {
      calculated := 0;
      while calculated + 2 <= |body|
        invariant calculated <= |body|
        invariant NulScan(body) == calculated + NulScan(body[calculated..])
        decreases |body| - calculated
      {
        if body[calculated] == 0 && body[calculated + 1] == 0 {
          calculated := calculated + 2;
          return;
        }
        assert body[calculated..][2..] == body[calculated + 2..];
        calculated := calculated + 2;
      }
    }

    /**
     * libregf_value_item_read_value_data, with the value type of the item's
     * key passed in. After an error the buffer is released, unless the
     * offset was refused before anything was read; the corrupted flag set
     * for an oversized cell stays set.
     */
    method ReadValueData(h: HiveBinsList, codecs: NameCodecs, valueType: u32, offset: u32, valueDataSize: u32)
      returns (success: bool)
      modifies this`dataKind, this`dataBuffer, this`dataStream, this`itemFlags
      ensures var d := ReadValueDataOf(h, codecs, valueType, offset, valueDataSize);
        && (success <==> d.Ok?)
        && (d.Ok? ==> CurrentData() == Store(d.value, old(CurrentData())))
      ensures !success ==> dataBuffer == (if offset == 0 || offset == NO_OFFSET then old(dataBuffer) else [])
      ensures !success ==> dataStream == old(dataStream)
      ensures !success ==> itemFlags == (if OversizedInlineData(h, offset, valueDataSize) then MarkCorrupted(old(itemFlags)) else old(itemFlags))
      ensures !success && dataKind != old(dataKind) ==>
        dataKind == Buffer && offset in h.cells && !InDataBlock(h.version, valueDataSize)
    {
      if offset == 0 || offset == NO_OFFSET {
        return false;
      }
      if offset !in h.cells {
        dataBuffer := [];
        return false;
      }
      var cell := h.cells[offset];
      if InDataBlock(h.version, valueDataSize) {
        var key := DBK.ReadData(cell);
        if key.Err? {
          dataBuffer := [];
          return false;
        }
        if !InBins(h.bins, key.value.dataBlockListOffset) {
          itemFlags := MarkCorrupted(itemFlags);
          return true;
        }
        var status := ReadDataBlockList(h, key.value.dataBlockListOffset, key.value.numberOfSegments, valueDataSize);
        if status == Failure {
          dataBuffer := [];
          return false;
        }
        return true;
      }
      var start := RecordStart(h.version);
      var body := if start <= |cell| then cell[start..] else [];
      if valueDataSize > |cell| {
        itemFlags := MarkCorrupted(itemFlags);
        if |cell| > INT32_MAX {
          dataBuffer := [];
          return false;
        }
      }
      var dataSize: nat := ClampToCell(start, |cell|, valueDataSize);
      if IsStringType(valueType) {
        var calculated := ScanStringSize(body);
        if calculated != dataSize && DecodeAll(codecs.utf16le, body[..calculated], 0).None? {
          calculated := dataSize;
        }
        dataSize := calculated;
      }
      dataKind := Buffer;
      if dataSize > 0 {
        if dataSize > MEMORY_MAXIMUM_ALLOCATION_SIZE {
          dataBuffer := [];
          return false;
        }
        dataBuffer := body[..dataSize];
      }
      return true;
    }

    /**
     * libregf_value_item_read_value_key. An item that already has a value
     * key is refused and left as it was. After an error the item has no
     * value key.
     */
    method ReadValueKey(h: HiveBinsList, codecs: NameCodecs, offset: u32) returns (success: bool)
      modifies this
      ensures old(valueKey) != null ==> !success && unchanged(this)
      ensures old(valueKey) == null ==> match ReadValueKeyOf(h, codecs, offset)
        case KeyReadError => !success && valueKey == null
        case CellTooSmall => success && valueKey == null && CurrentData() == Store(CORRUPT_NO_DATA, old(CurrentData()))
        case NotAValueKey =>
          && success && valueKey != null && fresh(valueKey)
          && valueKey.CurrentFields() == VK.ValueFields(0, 0, 0, 0, 0) && valueKey.name.None?
          && CurrentData() == Store(CORRUPT_NO_DATA, old(CurrentData()))
        case KeyRead(f, name, d) =>
          && success && valueKey != null && fresh(valueKey)
          && valueKey.CurrentFields() == f && valueKey.name == name
          && CurrentData() == Store(d, old(CurrentData()))
    {
      if valueKey != null {
        return false;
      }
      if offset == 0 || offset == NO_OFFSET {
        return false;
      }
      if offset !in h.cells {
        dataBuffer := [];
        return false;
      }
      var cell := h.cells[offset];
      if |cell| < VK.VALUE_KEY_SIZE + RecordStart(h.version) {
        itemFlags := MarkCorrupted(itemFlags);
        return true;
      }
      var key := new VK.ValueKey();
      valueKey := key;
      var status := key.ReadData(cell, codecs);
      ghost var parse := VK.ParseValueKey(cell);
      assert status == ValueKeyStatus(parse, codecs);
      if status == Failure {
        dataBuffer := [];
        valueKey := null;
        return false;
      }
      if status == Absent {
        itemFlags := MarkCorrupted(itemFlags);
        return true;
      }
      if !InBins(h.bins, key.dataOffset) {
        itemFlags := MarkCorrupted(itemFlags);
        return true;
      }
      success := ReadValueData(h, codecs, key.dataType, key.dataOffset, key.dataSize);
      if !success {
        dataBuffer := [];
        valueKey := null;
      }
    }

    /**
     * libregf_value_item_read_element_data: a new item read from the value
     * key at `offset`; an offset beyond 32 bits or a failed read gives no
     * item. `ioCorrupted` is whether the hive is to be flagged corrupt.
     */
    static method ReadElementData(h: HiveBinsList, codecs: NameCodecs, offset: nat)
      returns (item: ValueItem?, ioCorrupted: bool)
      ensures item == null <==> offset > UINT32_MAX || ReadValueKeyOf(h, codecs, offset).KeyReadError?
      ensures item != null ==> fresh(item) && (ioCorrupted <==> item.IsCorrupted())
      ensures item != null ==> offset <= UINT32_MAX && match ReadValueKeyOf(h, codecs, offset)
        case KeyRead(f, name, d) =>
          && item.valueKey != null && item.valueKey.CurrentFields() == f && item.valueKey.name == name
          && item.CurrentData() == Store(d, DataState(Unset, [], None, 0))
        case CellTooSmall => item.valueKey == null && item.CurrentData() == DataState(Unset, [], None, MarkCorrupted(0))
        case NotAValueKey =>
          && item.valueKey != null && item.valueKey.CurrentFields() == VK.ValueFields(0, 0, 0, 0, 0) && item.valueKey.name.None?
          && item.CurrentData() == DataState(Unset, [], None, MarkCorrupted(0))
        case KeyReadError => true
    {
      if offset > UINT32_MAX {
        return null, false;
      }
      var v := new ValueItem();
      var success := v.ReadValueKey(h, codecs, offset);
      if !success {
        return null, false;
      }
      item := v;
      ioCorrupted := item.IsCorrupted();
    }

    /** What libregf_value_item_get_data hands out. */
    function DataOf(file: seq<u8>): Result<seq<u8>>
      reads this
    {
      if dataKind == Block && dataBuffer == [] then
        match dataStream
        case None => Err
        case Some(segments) =>
          var size := SegmentsSize(segments);
          if size == 0 || size > MEMORY_MAXIMUM_ALLOCATION_SIZE then Err
          else match StreamBytes(file, segments)
            case None => Err
            case Some(bytes) => Ok(bytes)
      else if dataKind != Unset then Ok(dataBuffer)
      else Ok([])
    }

    /** libregf_value_item_get_data_size */
    function DataSizeOf(): (r: Result<nat>)
      reads this
      ensures dataKind != Block || dataBuffer != [] ==> r.Ok?
    {
      if dataKind == Block && dataBuffer == [] then
        match dataStream
        case None => Err
        case Some(segments) => if SegmentsSize(segments) > SSIZE_MAX then Err else Ok(SegmentsSize(segments))
      else if dataKind != Unset then Ok(|dataBuffer|)
      else Ok(0)
    }

    /** The size get_data_size reports is the size of the data get_data hands out. */
    lemma DataSizeMatchesData(file: seq<u8>)
      requires DataOf(file).Ok?
      ensures DataSizeOf() == Ok(|DataOf(file).value|)
    {
    }

    /** The buffer after get_data: a stream's bytes are cached once they read. */
    function BufferAfterRead(file: seq<u8>): seq<u8>
      reads this
    {
      if dataKind == Block && dataBuffer == [] && DataOf(file).Ok? then DataOf(file).value else dataBuffer
    }

    /**
     * libregf_value_item_get_data. A Block item reads its whole stream from
     * the file into the buffer the first time; afterwards the data no
     * longer depends on the file.
     */
    method GetData(file: seq<u8>) returns (r: Result<seq<u8>>)
      modifies this`dataBuffer
      ensures r == old(DataOf(file))
      ensures dataBuffer == old(BufferAfterRead(file))
      ensures r.Ok? && dataKind != Unset ==> forall other :: DataOf(other) == r
    {
      if dataKind == Block && dataBuffer == [] {
        if dataStream.None? {
          return Err;
        }
        var size := SegmentsSize(dataStream.value);
        if size == 0 || size > MEMORY_MAXIMUM_ALLOCATION_SIZE {
          return Err;
        }
        var bytes := StreamBytes(file, dataStream.value);
        if bytes.None? {
          return Err;
        }
        dataBuffer := bytes.value;
      }
      if dataKind != Unset {
        return Ok(dataBuffer);
      }
      return Ok([]);
    }

    /**
     * libregf_value_item_get_value_32bit: only DWORD types; fewer than 4
     * bytes is an error, more flags the item corrupt.
     */
    method GetValue32(file: seq<u8>) returns (r: Result<u32>)
      modifies this`dataBuffer, this`itemFlags
      ensures valueKey == null || !Is32BitType(valueKey.dataType) ==> r == Err && unchanged(this)
      ensures valueKey != null && Is32BitType(valueKey.dataType) ==>
        var d := old(DataOf(file));
        && r == (if d.Err? then Err else Value32(valueKey.dataType, d.value))
        && dataBuffer == old(BufferAfterRead(file))
        && itemFlags == if d.Ok? && |d.value| > 4 then MarkCorrupted(old(itemFlags)) else old(itemFlags)
    {
      if valueKey == null || !Is32BitType(valueKey.dataType) {
        return Err;
      }
      var data := GetData(file);
      if data.Err? || |data.value| < 4 {
        return Err;
      }
      if |data.value| > 4 {
        itemFlags := MarkCorrupted(itemFlags);
      }
      if valueKey.dataType == VALUE_TYPE_INTEGER_32BIT_BIG_ENDIAN {
        return Ok(U32BeAt(data.value, 0));
      }
      return Ok(U32At(data.value, 0));
    }

    /**
     * libregf_value_item_get_value_64bit: only the QWORD type; fewer than 8
     * bytes is an error, more flags the item corrupt.
     */
    method GetValue64(file: seq<u8>) returns (r: Result<u64>)
      modifies this`dataBuffer, this`itemFlags
      ensures valueKey == null || valueKey.dataType != VALUE_TYPE_INTEGER_64BIT_LITTLE_ENDIAN ==> r == Err && unchanged(this)
      ensures valueKey != null && valueKey.dataType == VALUE_TYPE_INTEGER_64BIT_LITTLE_ENDIAN ==>
        var d := old(DataOf(file));
        && r == (if d.Err? then Err else Value64(valueKey.dataType, d.value))
        && dataBuffer == old(BufferAfterRead(file))
        && itemFlags == if d.Ok? && |d.value| > 8 then MarkCorrupted(old(itemFlags)) else old(itemFlags)
    {
      if valueKey == null || valueKey.dataType != VALUE_TYPE_INTEGER_64BIT_LITTLE_ENDIAN {
        return Err;
      }
      var data := GetData(file);
      if data.Err? || |data.value| < 8 {
        return Err;
      }
      if |data.value| > 8 {
        itemFlags := MarkCorrupted(itemFlags);
      }
      return Ok(U64At(data.value, 0));
    }

    /** libregf_value_item_get_value_binary_data_size: only the BINARY type. */
    function BinaryDataSizeOf(): (r: Result<nat>)
      reads this, valueKey
      ensures valueKey == null || valueKey.dataType != VALUE_TYPE_BINARY_DATA ==> r == Err
      ensures valueKey != null && valueKey.dataType == VALUE_TYPE_BINARY_DATA ==> r == DataSizeOf()
    {
      if valueKey == null || valueKey.dataType != VALUE_TYPE_BINARY_DATA then Err else DataSizeOf()
    }

    /**
     * libregf_value_item_get_value_binary_data: only the BINARY type, a
     * destination no larger than SSIZE_MAX and at least as large as the data.
     */
    method GetValueBinaryData(file: seq<u8>, binaryDataSize: nat) returns (r: Result<seq<u8>>)
      modifies this`dataBuffer
      ensures binaryDataSize > SSIZE_MAX || valueKey == null || valueKey.dataType != VALUE_TYPE_BINARY_DATA ==>
        r == Err && unchanged(this)
      ensures binaryDataSize <= SSIZE_MAX && valueKey != null && valueKey.dataType == VALUE_TYPE_BINARY_DATA ==>
        var d := old(DataOf(file));
        && r == (if d.Err? then Err else BinaryData(d.value, binaryDataSize))
        && dataBuffer == old(BufferAfterRead(file))
    {
      if binaryDataSize > SSIZE_MAX {
        return Err;
      }
      if valueKey == null || valueKey.dataType != VALUE_TYPE_BINARY_DATA {
        return Err;
      }
      var data := GetData(file);
      if data.Err? {
        return Err;
      }
      if |data.value| == 0 || binaryDataSize < |data.value| {
        return Err;
      }
      return Ok(data.value);
    }
  }
}
