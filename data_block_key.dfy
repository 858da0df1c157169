/**
 * The "db" data block key record (libregf_data_block_key.c): the header of
 * a big value's data, giving the number of segments and the offset of the
 * list of segment offsets.
 */
module DataBlockKey {
  import opened Common

  const DATA_BLOCK_KEY_SIZE: nat := 8
  /** "db" */
  const DATA_BLOCK_KEY_SIGNATURE: seq<u8> := [0x64, 0x62]

  datatype DataBlockKey = DataBlockKey(numberOfSegments: u16, dataBlockListOffset: u32)

  /**
   * libregf_data_block_key_read_data: the data must hold the 8-byte record,
   * not exceed SSIZE_MAX and start with "db"; the fields are little-endian.
   * A failure writes nothing, which the Result leaves implicit.
   */
  function ReadData(data: seq<u8>): (r: Result<DataBlockKey>)
    ensures r.Ok? <==> DATA_BLOCK_KEY_SIZE <= |data| <= SSIZE_MAX && HasSignature(data, 0, DATA_BLOCK_KEY_SIGNATURE)
    ensures r.Ok? ==> r.value == DataBlockKey(U16At(data, 2), U32At(data, 4))
  {
    if |data| < DATA_BLOCK_KEY_SIZE || |data| > SSIZE_MAX then Err
    else if data[..2] != DATA_BLOCK_KEY_SIGNATURE then Err
    else Ok(DataBlockKey(U16At(data, 2), U32At(data, 4)))
  }

  function Encode(key: DataBlockKey): (d: seq<u8>)
    ensures |d| == DATA_BLOCK_KEY_SIZE
  {
    DATA_BLOCK_KEY_SIGNATURE + Le16(key.numberOfSegments) + Le32(key.dataBlockListOffset)
  }

  /** Decoding an encoded record, whatever follows it, gives the key back. */
  lemma ReadEncode(key: DataBlockKey, rest: seq<u8>)
    requires |rest| <= SSIZE_MAX - DATA_BLOCK_KEY_SIZE
    ensures ReadData(Encode(key) + rest) == Ok(key)
  {
    var d := Encode(key) + rest;
    assert d[..2] == DATA_BLOCK_KEY_SIGNATURE;
    assert d[2..4] == Le16(key.numberOfSegments);
    assert d[4..8] == Le32(key.dataBlockListOffset);
    Le16RoundTrip(key.numberOfSegments, d, 2);
    Le32RoundTrip(key.dataBlockListOffset, d, 4);
  }

  /** The 12-byte record of the test suite. */
  const SAMPLE_DATA_BLOCK_KEY: seq<u8> := [0x64, 0x62, 0x15, 0x00, 0xa8, 0xc7, 0x15, 0x01, 0x70, 0xc1, 0x15, 0x01]

  /** The sample has 21 segments and list offset 0x0115c7a8. */
  lemma SampleDataBlockKey()
    ensures ReadData(SAMPLE_DATA_BLOCK_KEY) == Ok(DataBlockKey(21, 0x0115c7a8))
  {
    assert SAMPLE_DATA_BLOCK_KEY[..2] == DATA_BLOCK_KEY_SIGNATURE;
  }
}
