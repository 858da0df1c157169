/**
 * The "sk" security key record (libregf_security_key.c): a 20-byte fixed
 * part whose last field is the size of the security descriptor stored
 * right after it. The descriptor is kept verbatim.
 */
module SecurityKey {
  import opened Common

  const SECURITY_KEY_SIZE: nat := 20
  /** "sk" */
  const SECURITY_KEY_SIGNATURE: seq<u8> := [0x73, 0x6b]
  const DESCRIPTOR_SIZE_OFFSET: nat := 16

  /** A security key: its descriptor, None while none has been read (or it was empty). */
  datatype SecurityKey = SecurityKey(descriptor: Option<seq<u8>>)

  /**
   * libregf_security_key_read_data. A key that already holds a descriptor,
   * data too short for the fixed part or over SSIZE_MAX, a signature other
   * than "sk" and a descriptor size beyond the data are errors. A non-zero
   * descriptor is copied verbatim; size 0 stores nothing.
   */
  function ReadData(key: SecurityKey, data: seq<u8>): (r: Result<SecurityKey>)
    ensures key.descriptor.Some? ==> r == Err
    ensures key.descriptor.None? ==>
      (r.Ok? <==> SECURITY_KEY_SIZE <= |data| <= SSIZE_MAX
                  && HasSignature(data, 0, SECURITY_KEY_SIGNATURE)
                  && U32At(data, DESCRIPTOR_SIZE_OFFSET) <= |data| - SECURITY_KEY_SIZE)
    ensures r.Ok? ==>
      var size := U32At(data, DESCRIPTOR_SIZE_OFFSET);
      && (size == 0 ==> r.value.descriptor.None?)
      && (size > 0 ==> r.value.descriptor == Some(data[SECURITY_KEY_SIZE..SECURITY_KEY_SIZE + size]))
  {
    if key.descriptor.Some? then Err
    else if |data| < SECURITY_KEY_SIZE || |data| > SSIZE_MAX then Err
    else if data[..2] != SECURITY_KEY_SIGNATURE then Err
    else
      var size := U32At(data, DESCRIPTOR_SIZE_OFFSET);
      if size > |data| - SECURITY_KEY_SIZE then Err
      else if size == 0 then Ok(key)
      else Ok(SecurityKey(Some(data[SECURITY_KEY_SIZE..SECURITY_KEY_SIZE + size])))
  }

  /** The descriptor size a key reports: 0 when there is none. */
  function DescriptorSize(key: SecurityKey): nat {
    if key.descriptor.None? then 0 else |key.descriptor.value|
  }

  /** A record as a writer lays it out, with the list links and reference count given. */
  function Encode(previous: u32, next: u32, referenceCount: u32, descriptor: seq<u8>): seq<u8>
    requires |descriptor| <= UINT32_MAX
  {
    SECURITY_KEY_SIGNATURE + Le16(0) + Le32(previous) + Le32(next) + Le32(referenceCount)
    + Le32(|descriptor|) + descriptor
  }

  /** Reading an encoded record into an empty key gives back the descriptor and its size. */
  lemma ReadEncoded(previous: u32, next: u32, referenceCount: u32, descriptor: seq<u8>, padding: seq<u8>)
    requires |descriptor| <= UINT32_MAX && SECURITY_KEY_SIZE + |descriptor| + |padding| <= SSIZE_MAX
    ensures var r := ReadData(SecurityKey(None), Encode(previous, next, referenceCount, descriptor) + padding);
      && r.Ok?
      && DescriptorSize(r.value) == |descriptor|
      && (descriptor != [] ==> r.value.descriptor == Some(descriptor))
  {
    var data := Encode(previous, next, referenceCount, descriptor) + padding;
    assert data[..2] == SECURITY_KEY_SIGNATURE;
    assert data[16..20] == Le32(|descriptor|);
    Le32RoundTrip(|descriptor|, data, 16);
    assert data[SECURITY_KEY_SIZE..SECURITY_KEY_SIZE + |descriptor|] == descriptor;
  }

  /** The fixed part of the 180-byte record of the test suite. */
  const SAMPLE_HEADER: seq<u8> :=
    [0x73, 0x6b, 0x00, 0x00, 0x50, 0x4b, 0x04, 0x00, 0xa8, 0x2c, 0x00, 0x00, 0x55, 0x00, 0x00, 0x00]
    + [0xa0, 0x00, 0x00, 0x00]

  /** The sample's fixed part followed by 160 bytes yields those 160 bytes as the descriptor. */
  lemma SampleSecurityKey(rest: seq<u8>)
    requires |rest| == 160
    ensures ReadData(SecurityKey(None), SAMPLE_HEADER + rest) == Ok(SecurityKey(Some(rest)))
  {
    var d := SAMPLE_HEADER + rest;
    assert d[0] == 0x73 && d[1] == 0x6b;
    assert d[..2] == SECURITY_KEY_SIGNATURE;
    assert d[16] == 0xa0 && d[17] == 0 && d[18] == 0 && d[19] == 0;
    assert U32At(d, 16) == 160;
    assert d[20..180] == rest;
  }
}
