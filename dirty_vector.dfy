/**
 * The dirty vector of a transaction log (libregf_dirty_vector.c): the
 * signature "DIRT" followed by a bitmap with one bit per 512-byte page of
 * the hive bins, the whole padded to a multiple of 512 bytes.
 */
module DirtyVector {
  import opened Common

  /** "DIRT" */
  const DIRTY_VECTOR_SIGNATURE: seq<u8> := [0x44, 0x49, 0x52, 0x54]
  /** One bitmap byte covers eight 512-byte pages. */
  const BYTES_PER_BITMAP_BYTE: nat := 512 * 8

  /**
   * libregf_dirty_vector_read_data, which only validates: the data must hold
   * the signature, not exceed SSIZE_MAX, be at least as long as the bitmap
   * and start with "DIRT".
   */
  function ReadData(data: seq<u8>, dirtyPageBitmapSize: nat): (ok: bool)
    ensures ok ==> HasSignature(data, 0, DIRTY_VECTOR_SIGNATURE) && dirtyPageBitmapSize <= |data| <= SSIZE_MAX
  {
    4 <= |data| <= SSIZE_MAX && dirtyPageBitmapSize <= |data| && data[..4] == DIRTY_VECTOR_SIGNATURE
  }

  /** The bitmap size for a hive bins size: one bit per page, rounded up to whole bytes. */
  function BitmapSize(hiveBinsSize: u32): nat {
    if hiveBinsSize % BYTES_PER_BITMAP_BYTE != 0 then hiveBinsSize / BYTES_PER_BITMAP_BYTE + 1
    else hiveBinsSize / BYTES_PER_BITMAP_BYTE
  }

  /** The bytes read: the signature and the bitmap, rounded up to a multiple of 512. */
  function VectorSize(dirtyPageBitmapSize: nat): nat {
    var size := dirtyPageBitmapSize + 4;
    if size % 512 != 0 then (size / 512 + 1) * 512 else size
  }

  /** The bitmap is the smallest whole number of bytes with a bit for every page. */
  lemma BitmapCoversPages(hiveBinsSize: u32)
    ensures BitmapSize(hiveBinsSize) * BYTES_PER_BITMAP_BYTE >= hiveBinsSize
    ensures BitmapSize(hiveBinsSize) == 0 || (BitmapSize(hiveBinsSize) - 1) * BYTES_PER_BITMAP_BYTE < hiveBinsSize
  {
  }

  /** The vector is the smallest multiple of 512 that holds the signature and the bitmap. */
  lemma VectorCoversBitmap(dirtyPageBitmapSize: nat)
    ensures var v := VectorSize(dirtyPageBitmapSize);
      v % 512 == 0 && dirtyPageBitmapSize + 4 <= v < dirtyPageBitmapSize + 4 + 512
  {
  }

  /**
   * For any 32-bit hive bins size the vector is at most 2^20 + 512 bytes, so
   * the allocation-size check never refuses it.
   */
  lemma VectorWithinAllocation(hiveBinsSize: u32)
    ensures VectorSize(BitmapSize(hiveBinsSize)) <= 0x10_0000 + 512 < MEMORY_MAXIMUM_ALLOCATION_SIZE
  {
    VectorCoversBitmap(BitmapSize(hiveBinsSize));
  }

  /** What the read through the file handle returned: an error, or the bytes it read. */
  datatype ReadResult = ReadFailed | ReadBytes(bytes: seq<u8>)

  /**
   * libregf_dirty_vector_read_file_io_handle, with the read done by the
   * caller: an oversized vector or a failed read is an error; a full read is
   * validated; a short read succeeds without being validated.
   */
  function ReadFileIoHandle(hiveBinsSize: u32, read: ReadResult): (ok: bool)
    ensures read.ReadFailed? ==> !ok
    ensures read.ReadBytes? && |read.bytes| == VectorSize(BitmapSize(hiveBinsSize)) ==>
      (ok <==> HasSignature(read.bytes, 0, DIRTY_VECTOR_SIGNATURE) && |read.bytes| <= SSIZE_MAX)
    ensures read.ReadBytes? && |read.bytes| != VectorSize(BitmapSize(hiveBinsSize)) ==> ok
  {
    var bitmapSize := BitmapSize(hiveBinsSize);
    var vectorSize := VectorSize(bitmapSize);
    VectorCoversBitmap(bitmapSize);
    if vectorSize > MEMORY_MAXIMUM_ALLOCATION_SIZE then false
    else match read
      case ReadFailed => false
      case ReadBytes(bytes) => if |bytes| == vectorSize then ReadData(bytes, bitmapSize) else true
  }
}
