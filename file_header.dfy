/**
 * The 512-byte "regf" file header (libregf_file_header.c). Fields are
 * little-endian 32-bit values at fixed offsets; the XOR-32 checksum of the
 * first 508 bytes is stored in the last four.
 */
module FileHeader {
  import opened Common
  import Checksum

  const FILE_HEADER_SIZE: nat := 512
  /** The number of bytes the checksum covers; the checksum itself follows. */
  const CHECKSUM_OFFSET: nat := 508
  /** "regf" */
  const FILE_SIGNATURE: seq<u8> := [0x72, 0x65, 0x67, 0x66]

  const MAJOR_FORMAT_VERSION_OFFSET: nat := 20
  const MINOR_FORMAT_VERSION_OFFSET: nat := 24
  const FILE_TYPE_OFFSET: nat := 28
  const ROOT_KEY_OFFSET_OFFSET: nat := 36
  const HIVE_BINS_SIZE_OFFSET: nat := 40

  datatype FileHeader = FileHeader(
    majorFormatVersion: u32,
    minorFormatVersion: u32,
    fileType: u32,
    rootKeyOffset: u32,
    hiveBinsSize: u32)

  /** The checksum stored in a header block. */
  function StoredChecksum(data: seq<u8>): u32
    requires |data| >= FILE_HEADER_SIZE
  {
    U32At(data, CHECKSUM_OFFSET)
  }

  /** The checksum the reader computes over a header block. */
  function CalculatedChecksum(data: seq<u8>): u32
    requires |data| >= FILE_HEADER_SIZE
  {
    Checksum.LittleEndianXor32(data[..CHECKSUM_OFFSET], 0)
  }

  /**
   * libregf_file_header_read_data: the size is checked, then the signature,
   * then the checksum; the fields are decoded only after every check passed,
   * so a failed read yields no field at all.
   */
  function ReadData(data: seq<u8>): (r: Result<FileHeader>)
    ensures |data| < FILE_HEADER_SIZE || |data| > SSIZE_MAX ==> r == Err
    ensures |data| >= FILE_HEADER_SIZE && !HasSignature(data, 0, FILE_SIGNATURE) ==> r == Err
    ensures r.Ok? <==>
      FILE_HEADER_SIZE <= |data| <= SSIZE_MAX && HasSignature(data, 0, FILE_SIGNATURE)
      && StoredChecksum(data) == CalculatedChecksum(data)
    ensures r.Ok? ==>
      && r.value.majorFormatVersion == U32At(data, MAJOR_FORMAT_VERSION_OFFSET)
      && r.value.minorFormatVersion == U32At(data, MINOR_FORMAT_VERSION_OFFSET)
      && r.value.fileType == U32At(data, FILE_TYPE_OFFSET)
      && r.value.rootKeyOffset == U32At(data, ROOT_KEY_OFFSET_OFFSET)
      && r.value.hiveBinsSize == U32At(data, HIVE_BINS_SIZE_OFFSET)
  {
    if |data| < FILE_HEADER_SIZE || |data| > SSIZE_MAX then Err
    else if data[..4] != FILE_SIGNATURE then Err
    else if StoredChecksum(data) != CalculatedChecksum(data) then Err
    else Ok(FileHeader(
      U32At(data, MAJOR_FORMAT_VERSION_OFFSET),
      U32At(data, MINOR_FORMAT_VERSION_OFFSET),
      U32At(data, FILE_TYPE_OFFSET),
      U32At(data, ROOT_KEY_OFFSET_OFFSET),
      U32At(data, HIVE_BINS_SIZE_OFFSET)))
  }

  /**
   * libregf_file_header_read_file_io_handle: `readBytes` is what the file
   * returned for a request of 512 bytes at offset 0; anything but a full
   * read is an error.
   */
  function ReadFileIoHandle(readBytes: seq<u8>): (r: Result<FileHeader>)
    ensures |readBytes| != FILE_HEADER_SIZE ==> r == Err
    ensures |readBytes| == FILE_HEADER_SIZE ==> r == ReadData(readBytes)
  {
    if |readBytes| != FILE_HEADER_SIZE then Err else ReadData(readBytes)
  }

  /** Only the first 512 bytes of the data take part in decoding. */
  lemma ReadDataIgnoresTrailingBytes(data: seq<u8>)
    requires FILE_HEADER_SIZE <= |data| <= SSIZE_MAX
    ensures ReadData(data) == ReadData(data[..FILE_HEADER_SIZE])
  {
    var h := data[..FILE_HEADER_SIZE];
    assert h[..4] == data[..4];
    assert h[..CHECKSUM_OFFSET] == data[..CHECKSUM_OFFSET];
  }

  function Zeros(n: nat): (z: seq<u8>)
    ensures |z| == n && forall i :: 0 <= i < n ==> z[i] == 0
  {
    seq(n, _ => 0)
  }

  /** The 508 checksummed bytes of a header carrying `h`, other fields zero. */
  function HeaderPrefix(h: FileHeader): (p: seq<u8>)
    ensures |p| == CHECKSUM_OFFSET
  {
    FILE_SIGNATURE + Zeros(16)
    + Le32(h.majorFormatVersion) + Le32(h.minorFormatVersion) + Le32(h.fileType)
    + Zeros(4) + Le32(h.rootKeyOffset) + Le32(h.hiveBinsSize) + Zeros(464)
  }

  /** A header block as a writer would lay it out, checksum included. */
  function Encode(h: FileHeader): (d: seq<u8>)
    ensures |d| == FILE_HEADER_SIZE
  {
    var p := HeaderPrefix(h);
    p + Le32(Checksum.LittleEndianXor32(p, 0))
  }

  /** Decoding an encoded header gives the header back. */
  lemma ReadEncode(h: FileHeader)
    ensures ReadData(Encode(h)) == Ok(h)
  {
    var p := HeaderPrefix(h);
    var d := Encode(h);
    assert d[..CHECKSUM_OFFSET] == p;
    assert d[..4] == FILE_SIGNATURE;
    Le32RoundTrip(Checksum.LittleEndianXor32(p, 0), d, CHECKSUM_OFFSET);
    Le32RoundTrip(h.majorFormatVersion, d, MAJOR_FORMAT_VERSION_OFFSET);
    Le32RoundTrip(h.minorFormatVersion, d, MINOR_FORMAT_VERSION_OFFSET);
    Le32RoundTrip(h.fileType, d, FILE_TYPE_OFFSET);
    Le32RoundTrip(h.rootKeyOffset, d, ROOT_KEY_OFFSET_OFFSET);
    Le32RoundTrip(h.hiveBinsSize, d, HIVE_BINS_SIZE_OFFSET);
  }

  /** The XOR-32 of a whole encoded header block is zero. */
  lemma EncodedHeaderChecksumsToZero(h: FileHeader)
    ensures Checksum.LittleEndianXor32(Encode(h), 0) == 0
  {
    Checksum.StoredChecksumCancels(HeaderPrefix(h));
  }
}
