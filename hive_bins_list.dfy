/**
 * The hive bins list of a REGF file as the key and value readers see it.
 * Its implementation (libregf_hive_bins_list.c) is not part of this model:
 * here it is the format version of the IO handle, the offset of the first
 * hive bin in the file, the offset ranges the hive bins cover, and the
 * cells it hands out by offset.
 */
module HiveBinsList {
  import opened Common

  /** The offsets, relative to the first hive bin, that one hive bin covers. */
  datatype BinRange = BinRange(offset: nat, size: nat)

  datatype HiveBinsList = HiveBinsList(
    version: FormatVersion,
    hiveBinsListOffset: nat,
    bins: seq<BinRange>,
    cells: map<u32, seq<u8>>)

  predicate InRange(bin: BinRange, offset: nat) {
    bin.offset <= offset < bin.offset + bin.size
  }

  /** The first hive bin, from index `i` on, that covers `offset`. */
  function IndexFrom(bins: seq<BinRange>, offset: nat, i: nat): (r: Option<nat>)
    ensures r.Some? ==> i <= r.value < |bins| && InRange(bins[r.value], offset)
    ensures r.None? ==> forall j :: i <= j < |bins| ==> !InRange(bins[j], offset)
    decreases |bins| - i
  {
    if i >= |bins| then None
    else if InRange(bins[i], offset) then Some(i)
    else IndexFrom(bins, offset, i + 1)
  }

  /** libregf_hive_bins_list_get_index_at_offset: 1 when some hive bin covers the offset, 0 when none does. */
  predicate InBins(bins: seq<BinRange>, offset: nat) {
    IndexFrom(bins, offset, 0).Some?
  }

  /** libregf_hive_bins_list_get_cell_at_offset: the data of the cell at `offset`, or an error. */
  function CellAt(h: HiveBinsList, offset: u32): Result<seq<u8>> {
    if offset in h.cells then Ok(h.cells[offset]) else Err
  }
}
