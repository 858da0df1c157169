/**
 * The 32-byte "hbin" header in front of every hive bin
 * (libregf_hive_bin_header.c). A wrong signature is "not a bin" (result 0),
 * distinct from an error.
 */
module HiveBinHeader {
  import opened Common

  const HIVE_BIN_HEADER_SIZE: nat := 32
  /** "hbin" */
  const HIVE_BIN_SIGNATURE: seq<u8> := [0x68, 0x62, 0x69, 0x6e]

  datatype HiveBinHeader = HiveBinHeader(offset: u32, size: u32)

  /** libregf_hive_bin_header_read_data. */
  function ReadData(data: seq<u8>): (r: Outcome<HiveBinHeader>)
    ensures r.Error? <==> |data| < HIVE_BIN_HEADER_SIZE || |data| > SSIZE_MAX
    ensures r.NotFound? <==>
      HIVE_BIN_HEADER_SIZE <= |data| <= SSIZE_MAX && !HasSignature(data, 0, HIVE_BIN_SIGNATURE)
    ensures r.Found? ==> r.value.offset == U32At(data, 4) && r.value.size == U32At(data, 8)
  {
    if |data| < HIVE_BIN_HEADER_SIZE then Error
    else if |data| > SSIZE_MAX then Error
    else if data[..4] != HIVE_BIN_SIGNATURE then NotFound
    else Found(HiveBinHeader(U32At(data, 4), U32At(data, 8)))
  }

  /**
   * libregf_hive_bin_header_read_file_io_handle: `readBytes` is what the
   * file returned for a 32-byte request; a short read is an error, otherwise
   * the outcome of ReadData is passed on.
   */
  function ReadFileIoHandle(readBytes: seq<u8>): (r: Outcome<HiveBinHeader>)
    ensures |readBytes| != HIVE_BIN_HEADER_SIZE ==> r == Error
    ensures |readBytes| == HIVE_BIN_HEADER_SIZE ==> r == ReadData(readBytes)
  {
    if |readBytes| != HIVE_BIN_HEADER_SIZE then Error else ReadData(readBytes)
  }

  function Encode(h: HiveBinHeader): (d: seq<u8>)
    ensures |d| == HIVE_BIN_HEADER_SIZE
  {
    HIVE_BIN_SIGNATURE + Le32(h.offset) + Le32(h.size) + seq(20, _ => 0)
  }

  /** Decoding an encoded bin header gives the header back. */
  lemma ReadEncode(h: HiveBinHeader)
    ensures ReadData(Encode(h)) == Found(h)
  {
    var d := Encode(h);
    assert d[..4] == HIVE_BIN_SIGNATURE;
    Le32RoundTrip(h.offset, d, 4);
    Le32RoundTrip(h.size, d, 8);
  }

  /** The 32-byte sample bin header of the test suite decodes to size 4096. */
  lemma SampleHeader()
    ensures ReadData([
      0x68, 0x62, 0x69, 0x6e, 0x00, 0x00, 0x00, 0x00, 0x00, 0x10, 0x00, 0x00, 0x00, 0x00, 0x00, 0x00,
      0x00, 0x00, 0x00, 0x00, 0x12, 0xf3, 0xf1, 0xb0, 0x1c, 0xcf, 0xcf, 0x01, 0x00, 0x00, 0x00, 0x00])
      == Found(HiveBinHeader(0, 4096))
  {
  }
}
