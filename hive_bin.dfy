/**
 * A hive bin and the cells it is carved into (libregf_hive_bin.c). The bin's
 * payload is a run of cells, each a 32-bit signed size (negative: allocated,
 * non-negative: free) followed by the cell data; sizes include the size field
 * and are multiples of 8.
 */
module HiveBin {
  import opened Common
  import HiveBinHeader

  /** Set on a cell whose size field is non-negative, i.e. a free cell. */
  const HIVE_BIN_CELL_FLAG_UNALLOCATED: u8 := 0x01

  /** A cell: its file offset, its data (the size field excluded) and flags. */
  datatype Cell = Cell(offset: u32, data: seq<u8>, flags: u8)

  /** The on-disk size of a cell: the size field and the data. */
  function CellSpan(c: Cell): nat {
    4 + |c.data|
  }

  /** The bytes a run of cells occupies in the bin. */
  function TotalSpan(cells: seq<Cell>): nat {
    if cells == [] then 0 else CellSpan(cells[0]) + TotalSpan(cells[1..])
  }

  /**
   * The signed size field of a cell: 0x80000000 is refused, a negative value
   * is an allocated cell of the negated size, a non-negative value a free
   * one; the size must be at least 4 and a multiple of 8. The result is the
   * size, the size field included, and the cell flags.
   */
  function DecodeCellSize(raw: u32): (r: Option<(nat, u8)>)
    ensures r.Some? ==> r.value.0 >= 8 && r.value.0 % 8 == 0 && r.value.0 <= 0x8000_0000
    ensures r.Some? ==> (r.value.1 == HIVE_BIN_CELL_FLAG_UNALLOCATED <==> raw < 0x8000_0000)
    ensures r.Some? ==> r.value.1 == 0 || r.value.1 == HIVE_BIN_CELL_FLAG_UNALLOCATED
  {
    if raw == 0x8000_0000 then None
    else
      var size: nat := if raw > 0x8000_0000 then 0x1_0000_0000 - raw else raw;
      var flags: u8 := if raw > 0x8000_0000 then 0 else HIVE_BIN_CELL_FLAG_UNALLOCATED;
      if size < 4 || size % 8 != 0 then None else Some((size, flags))
  }

  /** The size field a writer stores for a cell of `size` bytes. */
  function EncodeCellSize(size: nat, isAllocated: bool): u32
    requires 8 <= size < 0x8000_0000 && size % 8 == 0
  {
    if isAllocated then 0x1_0000_0000 - size else size
  }

  /** Decoding an encoded size gives back the size and the allocation state. */
  lemma DecodeEncodeCellSize(size: nat, isAllocated: bool)
    requires 8 <= size < 0x8000_0000 && size % 8 == 0
    ensures DecodeCellSize(EncodeCellSize(size, isAllocated))
         == Some((size, if isAllocated then 0 else HIVE_BIN_CELL_FLAG_UNALLOCATED))
  {
  }

  /** What walking the cells from `dataOffset` produced, and whether it ended cleanly. */
  datatype Walk = Walk(cells: seq<Cell>, ok: bool)

  /** A cell size the walk accepts: at least the size field plus 4, a multiple of 8. */
  predicate WellSized(c: Cell) {
    |c.data| >= 4 && (|c.data| + 4) % 8 == 0
  }

  /**
   * The data size and flags of the cell whose size field is at
   * `dataOffset`: the size field needs more than 4 remaining bytes, and the
   * cell must fit in what remains.
   */
  function NextCell(data: seq<u8>, dataOffset: nat): (r: Option<(nat, u8)>)
    requires dataOffset < |data|
    ensures r.Some? ==> dataOffset + 4 + r.value.0 <= |data|
    ensures r.Some? ==> r.value.0 >= 4 && (r.value.0 + 4) % 8 == 0
  {
    if dataOffset >= |data| - 4 then None
    else match DecodeCellSize(U32At(data, dataOffset))
      case None => None
      case Some((size, flags)) =>
        if size - 4 > |data| - (dataOffset + 4) then None else Some((size - 4, flags))
  }

  /** The cells read from `data[dataOffset..]`, the first at file offset `fileOffset`. */
  function CellsFrom(data: seq<u8>, dataOffset: nat, fileOffset: u32): (w: Walk)
    requires dataOffset <= |data|
    decreases |data| - dataOffset, 1
  {
    if dataOffset >= |data| then Walk([], true) else CellAndRest(data, dataOffset, fileOffset)
  }

  /** One step of CellsFrom: the cell at `dataOffset`, then the cells after it. */
  function CellAndRest(data: seq<u8>, dataOffset: nat, fileOffset: u32): (w: Walk)
    requires dataOffset < |data|
    decreases |data| - dataOffset, 0
  {
    match NextCell(data, dataOffset)
    case None => Walk([], false)
    case Some((payload, flags)) =>
      var cell := Cell(fileOffset, data[dataOffset + 4..dataOffset + 4 + payload], flags);
      var rest := CellsFrom(data, dataOffset + 4 + payload, Wrap32(fileOffset + 4 + payload));
      Walk([cell] + rest.cells, rest.ok)
  }

  /** A walk stops, unsuccessfully, at a size field it cannot accept. */
  lemma CellsFromRefused(data: seq<u8>, dataOffset: nat, fileOffset: u32)
    requires dataOffset < |data| && NextCell(data, dataOffset).None?
    ensures CellsFrom(data, dataOffset, fileOffset) == Walk([], false)
  {
    assert CellsFrom(data, dataOffset, fileOffset) == CellAndRest(data, dataOffset, fileOffset);
  }

  /** A walk that accepts a size field records the cell and goes on after it. */
  lemma CellsFromAccepted(data: seq<u8>, dataOffset: nat, fileOffset: u32, payload: nat, flags: u8)
    requires dataOffset < |data| && NextCell(data, dataOffset) == Some((payload, flags))
    ensures var rest := CellsFrom(data, dataOffset + 4 + payload, Wrap32(fileOffset + 4 + payload));
      CellsFrom(data, dataOffset, fileOffset)
        == Walk([Cell(fileOffset, data[dataOffset + 4..dataOffset + 4 + payload], flags)] + rest.cells, rest.ok)
  {
    assert CellsFrom(data, dataOffset, fileOffset) == CellAndRest(data, dataOffset, fileOffset);
  }

  /** A walk that produced a cell continues right after that cell. */
  lemma CellsFromStep(data: seq<u8>, dataOffset: nat, fileOffset: u32)
    requires dataOffset <= |data|
    requires |CellsFrom(data, dataOffset, fileOffset).cells| > 0
    ensures var w := CellsFrom(data, dataOffset, fileOffset);
      var payload := |w.cells[0].data|;
      && dataOffset + 4 + payload <= |data|
      && w.cells[0].offset == fileOffset
      && w.cells[0].data == data[dataOffset + 4..dataOffset + 4 + payload]
      && var rest := CellsFrom(data, dataOffset + 4 + payload, Wrap32(fileOffset + 4 + payload));
         w.cells == [w.cells[0]] + rest.cells && w.ok == rest.ok
  {
    assert CellsFrom(data, dataOffset, fileOffset) == CellAndRest(data, dataOffset, fileOffset);
  }

  /**
   * The cells of a bin at file offset `binOffset`: the data must hold at
   * least 4 bytes, and the first cell follows the 32-byte bin header.
   */
  function CellsData(data: seq<u8>, binOffset: u32): Walk {
    if |data| < 4 || |data| > SSIZE_MAX then Walk([], false)
    else CellsFrom(data, 0, Wrap32(binOffset + HiveBinHeader.HIVE_BIN_HEADER_SIZE))
  }

  /**
   * The cells tile the data: together they never occupy more than the data
   * after `dataOffset`, a clean walk occupies exactly all of it, and every
   * cell is well sized.
   */
  lemma {:induction false} CellsTileData(data: seq<u8>, dataOffset: nat, fileOffset: u32)
    requires dataOffset <= |data|
    ensures var w := CellsFrom(data, dataOffset, fileOffset);
      && TotalSpan(w.cells) <= |data| - dataOffset
      && (w.ok ==> TotalSpan(w.cells) == |data| - dataOffset)
      && forall i :: 0 <= i < |w.cells| ==> WellSized(w.cells[i])
    decreases |data| - dataOffset
  {
    var w := CellsFrom(data, dataOffset, fileOffset);
    if dataOffset < |data| && NextCell(data, dataOffset).Some? {
      var (payload, flags) := NextCell(data, dataOffset).value;
      CellsFromAccepted(data, dataOffset, fileOffset, payload, flags);
      var next := Wrap32(fileOffset + 4 + payload);
      CellsTileData(data, dataOffset + 4 + payload, next);
      var rest := CellsFrom(data, dataOffset + 4 + payload, next);
      assert w.cells[1..] == rest.cells;
    } else if dataOffset < |data| {
      CellsFromRefused(data, dataOffset, fileOffset);
    }
  }

  /**
   * Each cell starts where the previous one ended: its file offset is the
   * previous offset plus the previous span (in 32-bit arithmetic), and its
   * data is the bytes after its own size field.
   */
  lemma {:induction false} CellsAreConsecutive(data: seq<u8>, dataOffset: nat, fileOffset: u32)
    requires dataOffset <= |data|
    ensures var w := CellsFrom(data, dataOffset, fileOffset);
      && (|w.cells| > 0 ==> w.cells[0].offset == fileOffset)
      && forall i :: 0 <= i < |w.cells| - 1 ==>
           w.cells[i + 1].offset == Wrap32(w.cells[i].offset + CellSpan(w.cells[i]))
    decreases |data| - dataOffset
  {
    var w := CellsFrom(data, dataOffset, fileOffset);
    if |w.cells| > 0 {
      CellsFromStep(data, dataOffset, fileOffset);
      var payload := |w.cells[0].data|;
      var next := Wrap32(fileOffset + 4 + payload);
      CellsAreConsecutive(data, dataOffset + 4 + payload, next);
    }
  }

  /**
   * The data of cell i is the slice of the bin after its size field, which
   * starts where the cells before it end: the cells lie inside the data in
   * order.
   */
  lemma {:induction false} CellDataIsSlice(data: seq<u8>, dataOffset: nat, fileOffset: u32, i: nat)
    requires dataOffset <= |data|
    requires i < |CellsFrom(data, dataOffset, fileOffset).cells|
    ensures var w := CellsFrom(data, dataOffset, fileOffset);
      var start := dataOffset + TotalSpan(w.cells[..i]) + 4;
      start + |w.cells[i].data| <= |data| && w.cells[i].data == data[start..start + |w.cells[i].data|]
    decreases i
  {
    var w := CellsFrom(data, dataOffset, fileOffset);
    CellsFromStep(data, dataOffset, fileOffset);
    var payload := |w.cells[0].data|;
    if i == 0 {
      assert w.cells[..0] == [];
    } else {
      var next := Wrap32(fileOffset + 4 + payload);
      var rest := CellsFrom(data, dataOffset + 4 + payload, next);
      assert w.cells[..i][1..] == rest.cells[..i - 1];
      assert TotalSpan(w.cells[..i]) == 4 + payload + TotalSpan(rest.cells[..i - 1]);
      assert w.cells[i] == rest.cells[i - 1];
      CellDataIsSlice(data, dataOffset + 4 + payload, next, i - 1);
      assert dataOffset + TotalSpan(w.cells[..i]) + 4 == dataOffset + 4 + payload + TotalSpan(rest.cells[..i - 1]) + 4;
    }
  }

  /**
   * When the bin does not reach the end of the 32-bit offset space, the cell
   * offsets strictly increase, so no two cells share an offset.
   */
  lemma {:induction false} OffsetsIncrease(data: seq<u8>, dataOffset: nat, fileOffset: u32)
    requires dataOffset <= |data|
    requires fileOffset + (|data| - dataOffset) < 0x1_0000_0000
    ensures var w := CellsFrom(data, dataOffset, fileOffset);
      && (forall i :: 0 <= i < |w.cells| ==> fileOffset <= w.cells[i].offset)
      && (forall i, j :: 0 <= i < j < |w.cells| ==> w.cells[i].offset < w.cells[j].offset)
    decreases |data| - dataOffset
  {
    var w := CellsFrom(data, dataOffset, fileOffset);
    if |w.cells| > 0 {
      CellsFromStep(data, dataOffset, fileOffset);
      var payload := |w.cells[0].data|;
      var next := Wrap32(fileOffset + 4 + payload);
      var rest := CellsFrom(data, dataOffset + 4 + payload, next);
      assert next == fileOffset + 4 + payload;
      OffsetsIncrease(data, dataOffset + 4 + payload, next);
      forall i, j | 0 <= i < j < |w.cells|
        ensures w.cells[i].offset < w.cells[j].offset
      {
        assert w.cells[j] == rest.cells[j - 1];
        if i > 0 {
          assert w.cells[i] == rest.cells[i - 1];
        }
      }
    }
  }

  /** The first cell in `cells` whose offset is `cellOffset`. */
  function FirstCellAt(cells: seq<Cell>, cellOffset: u32): (r: Outcome<Cell>)
    ensures !r.Error?
    ensures r.Found? ==> r.value in cells && r.value.offset == cellOffset
    ensures r.NotFound? <==> forall i :: 0 <= i < |cells| ==> cells[i].offset != cellOffset
  {
    if cells == [] then NotFound
    else if cells[0].offset == cellOffset then Found(cells[0])
    else FirstCellAt(cells[1..], cellOffset)
  }

  /** With distinct offsets, looking up a cell's offset gives that cell. */
  lemma {:induction false} FirstCellAtFindsEachCell(cells: seq<Cell>, i: nat)
    requires i < |cells|
    requires forall j, k :: 0 <= j < k < |cells| ==> cells[j].offset < cells[k].offset
    ensures FirstCellAt(cells, cells[i].offset) == Found(cells[i])
  {
    if i > 0 {
      assert cells[0].offset < cells[i].offset;
      FirstCellAtFindsEachCell(cells[1..], i - 1);
    }
  }

  class HiveBin {
    /** The file offset of the bin, from its header. */
    var offset: u32
    /** The size of the bin, from its header. */
    var size: u32
    var cells: seq<Cell>

    constructor (offset: u32, size: u32)
      ensures this.offset == offset && this.size == size && cells == []
    {
      this.offset := offset;
      this.size := size;
      cells := [];
    }

    /**
     * libregf_hive_bin_read_cells_data: walks the bin's data and appends one
     * cell per size field. Cells appended before a failure stay in the list.
     */
    method ReadCellsData(data: seq<u8>) returns (success: bool)
      modifies this`cells
      ensures var w := CellsData(data, offset);
        success == w.ok && cells == old(cells) + w.cells
    {
      if |data| < 4 || |data| > SSIZE_MAX {
        return false;
      }
      var fileOffset: u32 := Wrap32(offset + HiveBinHeader.HIVE_BIN_HEADER_SIZE);
      ghost var start := fileOffset;
      var dataOffset: nat := 0;
      while dataOffset < |data|
        invariant dataOffset <= |data|
        invariant CellsFrom(data, 0, start).ok == CellsFrom(data, dataOffset, fileOffset).ok
        invariant old(cells) + CellsFrom(data, 0, start).cells
               == cells + CellsFrom(data, dataOffset, fileOffset).cells
        decreases |data| - dataOffset
      {
        var next := ReadCellSize(data, dataOffset);
        if next.None? {
          CellsFromRefused(data, dataOffset, fileOffset);
          return false;
        }
        var (cellSize, flags) := next.value;
        CellsFromAccepted(data, dataOffset, fileOffset, cellSize, flags);
        var cell := Cell(fileOffset, data[dataOffset + 4..dataOffset + 4 + cellSize], flags);
        dataOffset := dataOffset + 4 + cellSize;
        fileOffset := Wrap32(fileOffset + 4 + cellSize);
        ghost var rest := CellsFrom(data, dataOffset, fileOffset).cells;
        assert cells + ([cell] + rest) == (cells + [cell]) + rest;
        cells := cells + [cell];
      }
      return true;
    }

    /**
     * The checks libregf_hive_bin_read_cells_data makes on one size field,
     * in order: more than 4 bytes must remain, 0x80000000 is refused, the
     * sign gives the allocation state, the size must be at least 4 and a
     * multiple of 8, and the data after the size field must fit.
     */
    static method ReadCellSize(data: seq<u8>, dataOffset: nat) returns (r: Option<(nat, u8)>)
      requires dataOffset < |data|
      ensures r == NextCell(data, dataOffset)
    {
      if dataOffset >= |data| - 4 {
        return None;
      }
      var cellSize: int := U32At(data, dataOffset);
      var position := dataOffset + 4;
      var flags: u8 := 0;
      if cellSize == 0x8000_0000 {
        return None;
      }
      if cellSize > 0x8000_0000 {
        cellSize := 0x1_0000_0000 - cellSize;
      } else {
        flags := HIVE_BIN_CELL_FLAG_UNALLOCATED;
      }
      if cellSize < 4 {
        return None;
      }
      if cellSize % 8 != 0 {
        return None;
      }
      cellSize := cellSize - 4;
      if cellSize > |data| - position {
        return None;
      }
      return Some((cellSize, flags));
    }

    /** libregf_hive_bin_get_number_of_cells: the count must fit in 16 bits. */
    method GetNumberOfCells() returns (r: Result<u16>)
      ensures r.Ok? <==> |cells| <= UINT16_MAX
      ensures r.Ok? ==> r.value == |cells|
    {
      if |cells| > UINT16_MAX {
        return Err;
      }
      return Ok(|cells|);
    }

    /** libregf_hive_bin_get_cell: the cell at an index of the list. */
    method GetCell(cellIndex: u16) returns (r: Result<Cell>)
      ensures r.Ok? <==> cellIndex < |cells|
      ensures r.Ok? ==> r.value == cells[cellIndex]
    {
      if cellIndex >= |cells| {
        return Err;
      }
      return Ok(cells[cellIndex]);
    }

    /**
     * libregf_hive_bin_get_cell_at_offset: a linear search for the first
     * cell at `cellOffset`; not finding one is result 0, not an error.
     */
    method GetCellAtOffset(cellOffset: u32) returns (r: Outcome<Cell>)
      ensures r == FirstCellAt(cells, cellOffset)
    {
      var entryIndex := 0;
      while entryIndex < |cells|
        invariant 0 <= entryIndex <= |cells|
        invariant FirstCellAt(cells, cellOffset) == FirstCellAt(cells[entryIndex..], cellOffset)
      {
        if cells[entryIndex].offset == cellOffset {
          return Found(cells[entryIndex]);
        }
        assert cells[entryIndex..][1..] == cells[entryIndex + 1..];
        entryIndex := entryIndex + 1;
      }
      return NotFound;
    }
  }
}
