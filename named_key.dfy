/**
 * The "nk" named key record (libregf_named_key.c): a 76-byte fixed part
 * followed by the key name, which is stored in a codepage when the
 * NAME_IS_ASCII flag is set and in UTF-16 little-endian otherwise.
 */
module NamedKey {
  import opened Common
  import opened Text

  const NAMED_KEY_SIZE: nat := 76
  const NAMED_KEY_FLAG_NAME_IS_ASCII: nat := 0x0020
  /** "nk" */
  const NAMED_KEY_SIGNATURE: seq<u8> := [0x6e, 0x6b]

  /** The fixed-part fields the reader keeps. */
  datatype Fields = Fields(
    flags: u16,
    lastWrittenTime: u64,
    numberOfSubKeys: u32,
    subKeysListOffset: u32,
    numberOfValues: u32,
    valuesListOffset: u32,
    securityKeyOffset: u32,
    classNameOffset: u32,
    nameSize: u16,
    classNameSize: u16)

  /** The little-endian fields of a record starting at `at`. */
  function FieldsAt(data: seq<u8>, at: nat): Fields
    requires at + NAMED_KEY_SIZE <= |data|
  {
    Fields(
      U16At(data, at + 2), U64At(data, at + 4), U32At(data, at + 20), U32At(data, at + 28),
      U32At(data, at + 36), U32At(data, at + 40), U32At(data, at + 44), U32At(data, at + 48),
      U16At(data, at + 72), U16At(data, at + 74))
  }

  /** The text decoders the library uses for names. */
  datatype NameCodecs = NameCodecs(codepage: Decoder<u8>, utf16le: Decoder<u8>, upper: Upper)

  /** A name is decoded with the codepage when NAME_IS_ASCII is set, as UTF-16LE otherwise. */
  function NameDecoder(flags: u16, codecs: NameCodecs): Decoder<u8> {
    if HasFlag(flags, NAMED_KEY_FLAG_NAME_IS_ASCII) then codecs.codepage else codecs.utf16le
  }

  /** How far libregf_named_key_read_data gets through a record before hashing the name. */
  datatype Parse =
    | Rejected
    | BadSignature
    | BadNameSize(fields: Fields)
    | Parsed(fields: Fields, name: seq<u8>)

  /**
   * The checks and field reads of libregf_named_key_read_data: the data must
   * hold the fixed part (after the 4-byte prefix of format 1.1 and earlier),
   * start with "nk", and carry a non-zero name that fits after the fixed part.
   */
  function ParseRecord(version: FormatVersion, data: seq<u8>): (r: Parse)
    ensures r.Rejected? <==> |data| < RecordStart(version) + NAMED_KEY_SIZE || |data| > SSIZE_MAX
    ensures r.BadSignature? ==> !HasSignature(data, RecordStart(version), NAMED_KEY_SIGNATURE)
    ensures r.Parsed? ==> HasSignature(data, RecordStart(version), NAMED_KEY_SIGNATURE)
    ensures r.Parsed? ==>
      var nameOffset := RecordStart(version) + NAMED_KEY_SIZE;
      && 0 < |r.name| == r.fields.nameSize
      && nameOffset + |r.name| <= |data|
      && r.name == data[nameOffset..nameOffset + |r.name|]
  {
    var start := RecordStart(version);
    if |data| < start + NAMED_KEY_SIZE || |data| > SSIZE_MAX then Rejected
    else if data[start..start + 2] != NAMED_KEY_SIGNATURE then BadSignature
    else
      var fields := FieldsAt(data, start);
      var nameOffset := start + NAMED_KEY_SIZE;
      if fields.nameSize == 0 || fields.nameSize > |data| - nameOffset then BadNameSize(fields)
      else Parsed(fields, data[nameOffset..nameOffset + fields.nameSize])
  }

  /** The fixed part of a record as a writer lays it out; unkept fields are zero. */
  function EncodeFields(f: Fields): (d: seq<u8>)
    ensures |d| == NAMED_KEY_SIZE
  {
    EncodeHead(f) + EncodeMiddle(f) + EncodeTail(f)
  }

  /** Bytes 0-19: signature, flags, last written time, two unkept fields. */
  function EncodeHead(f: Fields): (d: seq<u8>)
    ensures |d| == 20
  {
    NAMED_KEY_SIGNATURE + Le16(f.flags) + Le64(f.lastWrittenTime) + Le32(0) + Le32(0)
  }

  /** Bytes 20-51: sub-key and value counts and offsets, security and class name offsets. */
  function EncodeMiddle(f: Fields): (d: seq<u8>)
    ensures |d| == 32
  {
    (Le32(f.numberOfSubKeys) + Le32(0) + Le32(f.subKeysListOffset) + Le32(0))
    + (Le32(f.numberOfValues) + Le32(f.valuesListOffset) + Le32(f.securityKeyOffset) + Le32(f.classNameOffset))
  }

  /** Bytes 52-75: five unkept fields, the name size and the class name size. */
  function EncodeTail(f: Fields): (d: seq<u8>)
    ensures |d| == 24
  {
    Le32(0) + Le32(0) + Le32(0) + Le32(0) + Le32(0) + Le16(f.nameSize) + Le16(f.classNameSize)
  }

  /** The fields of an encoded head sit where the reader looks for them. */
  lemma HeadFields(f: Fields, data: seq<u8>, at: nat)
    requires at + 20 <= |data| && data[at..at + 20] == EncodeHead(f)
    ensures U16At(data, at + 2) == f.flags && U64At(data, at + 4) == f.lastWrittenTime
  {
    var d := data[at..at + 20];
    assert d[2..4] == Le16(f.flags);
    assert d[4..12] == Le64(f.lastWrittenTime);
    Le16RoundTrip(f.flags, d, 2);
    Le64RoundTrip(f.lastWrittenTime, d, 4);
    U16AtSlice(data, at, at + 20, 2);
    U64AtSlice(data, at, at + 20, 4);
  }

  /** The fields of an encoded middle part sit where the reader looks for them. */
  lemma MiddleFields(f: Fields, data: seq<u8>, at: nat)
    requires at + 32 <= |data| && data[at..at + 32] == EncodeMiddle(f)
    ensures U32At(data, at) == f.numberOfSubKeys && U32At(data, at + 8) == f.subKeysListOffset
    ensures U32At(data, at + 16) == f.numberOfValues && U32At(data, at + 20) == f.valuesListOffset
    ensures U32At(data, at + 24) == f.securityKeyOffset && U32At(data, at + 28) == f.classNameOffset
  {
    var d := data[at..at + 32];
    assert d[0..4] == Le32(f.numberOfSubKeys);
    assert d[8..12] == Le32(f.subKeysListOffset);
    assert d[16..20] == Le32(f.numberOfValues);
    assert d[20..24] == Le32(f.valuesListOffset);
    assert d[24..28] == Le32(f.securityKeyOffset);
    assert d[28..32] == Le32(f.classNameOffset);
    Le32RoundTrip(f.numberOfSubKeys, d, 0);
    Le32RoundTrip(f.subKeysListOffset, d, 8);
    Le32RoundTrip(f.numberOfValues, d, 16);
    Le32RoundTrip(f.valuesListOffset, d, 20);
    Le32RoundTrip(f.securityKeyOffset, d, 24);
    Le32RoundTrip(f.classNameOffset, d, 28);
    U32AtSlice(data, at, at + 32, 0);
    U32AtSlice(data, at, at + 32, 8);
    U32AtSlice(data, at, at + 32, 16);
    U32AtSlice(data, at, at + 32, 20);
    U32AtSlice(data, at, at + 32, 24);
    U32AtSlice(data, at, at + 32, 28);
  }

  /** The fields of an encoded tail sit where the reader looks for them. */
  lemma TailFields(f: Fields, data: seq<u8>, at: nat)
    requires at + 24 <= |data| && data[at..at + 24] == EncodeTail(f)
    ensures U16At(data, at + 20) == f.nameSize && U16At(data, at + 22) == f.classNameSize
  {
    var d := data[at..at + 24];
    assert d[20..22] == Le16(f.nameSize);
    assert d[22..24] == Le16(f.classNameSize);
    Le16RoundTrip(f.nameSize, d, 20);
    Le16RoundTrip(f.classNameSize, d, 22);
    U16AtSlice(data, at, at + 24, 20);
    U16AtSlice(data, at, at + 24, 22);
  }

  /** Reading the fields back from an encoded fixed part gives them back. */
  lemma FieldsRoundTrip(f: Fields, data: seq<u8>, at: nat)
    requires at + NAMED_KEY_SIZE <= |data| && data[at..at + NAMED_KEY_SIZE] == EncodeFields(f)
    ensures FieldsAt(data, at) == f
  {
    var head, middle, tail := EncodeHead(f), EncodeMiddle(f), EncodeTail(f);
    var e := data[at..at + NAMED_KEY_SIZE];
    assert e == head + middle + tail;
    assert e[..20] == head && e[20..52] == middle && e[52..] == tail;
    SliceOfSlice(data, at, at + NAMED_KEY_SIZE, 0, 20);
    SliceOfSlice(data, at, at + NAMED_KEY_SIZE, 20, 52);
    SliceOfSlice(data, at, at + NAMED_KEY_SIZE, 52, 76);
    HeadFields(f, data, at);
    MiddleFields(f, data, at + 20);
    TailFields(f, data, at + 52);
  }

  /** A record encoded for a non-empty name parses back to its fields and name. */
  lemma ParseEncodedRecord(version: FormatVersion, prefix: seq<u8>, f: Fields, name: seq<u8>)
    requires |prefix| == RecordStart(version)
    requires 0 < |name| == f.nameSize
    ensures ParseRecord(version, prefix + EncodeFields(f) + name) == Parsed(f, name)
  {
    var data := prefix + EncodeFields(f) + name;
    var start := |prefix|;
    assert data[start..start + NAMED_KEY_SIZE] == EncodeFields(f);
    assert data[start..start + 2] == EncodeFields(f)[..2] == NAMED_KEY_SIGNATURE;
    FieldsRoundTrip(f, data, start);
    assert data[start + NAMED_KEY_SIZE..start + NAMED_KEY_SIZE + |name|] == name;
  }

  /** The 140-byte record of the test suite. */
  const SAMPLE_RECORD: seq<u8> :=
    [0x6e, 0x6b, 0x2c, 0x00, 0x0d, 0x3f, 0x8a, 0x46, 0x68, 0x22, 0xd2, 0x01, 0x02, 0x00, 0x00, 0x00]
    + [0x68, 0x09, 0x00, 0x00, 0x0a, 0x00, 0x00, 0x00, 0x00, 0x00, 0x00, 0x00, 0xd8, 0x14, 0x00, 0x00]
    + [0xff, 0xff, 0xff, 0xff, 0x00, 0x00, 0x00, 0x00, 0xff, 0xff, 0xff, 0xff, 0xa8, 0x2c, 0x00, 0x00]
    + [0xff, 0xff, 0xff, 0xff, 0x28, 0x00, 0x00, 0x00, 0x00, 0x00, 0x00, 0x00, 0x00, 0x00, 0x00, 0x00]
    + [0x00, 0x00, 0x00, 0x00, 0x38, 0x00, 0x33, 0x00, 0x39, 0x00, 0x00, 0x00, 0x43, 0x73, 0x69, 0x54]
    + [0x6f, 0x6f, 0x6c, 0x2d, 0x43, 0x72, 0x65, 0x61, 0x74, 0x65, 0x48, 0x69, 0x76, 0x65, 0x2d, 0x7b]
    + [0x30, 0x30, 0x30, 0x30, 0x30, 0x30, 0x30, 0x30, 0x2d, 0x30, 0x30, 0x30, 0x30, 0x2d, 0x30, 0x30]
    + [0x30, 0x30, 0x2d, 0x30, 0x30, 0x30, 0x30, 0x2d, 0x30, 0x30, 0x30, 0x30, 0x30, 0x30, 0x30, 0x30]
    + [0x30, 0x30, 0x30, 0x30, 0x7d, 0x00, 0x39, 0x00, 0x31, 0x00, 0x45, 0x00]

  /** The sample record parses with an ASCII name of 57 bytes and 10 sub-keys. */
  lemma SampleRecord()
    ensures var r := ParseRecord(FormatVersion(1, 5), SAMPLE_RECORD);
      && r.Parsed?
      && r.fields.nameSize == 57
      && r.fields.numberOfSubKeys == 10
      && HasFlag(r.fields.flags, NAMED_KEY_FLAG_NAME_IS_ASCII)
      && r.name == SAMPLE_RECORD[76..133]
  {
    var d := SAMPLE_RECORD;
    assert |d| == 140;
    assert d[0] == 0x6e && d[1] == 0x6b;
    assert d[..2] == NAMED_KEY_SIGNATURE;
    assert d[72] == 0x39 && d[73] == 0;
    assert d[2] == 0x2c && d[3] == 0;
    assert d[20] == 10 && d[21] == 0 && d[22] == 0 && d[23] == 0;
    assert U16At(d, 72) == 57;
    assert U16At(d, 2) == 0x2c;
    assert U32At(d, 20) == 10;
  }

  class NamedKey {
    var nameHash: u32
    /** The name bytes; None stands for the C NULL pointer. */
    var name: Option<seq<u8>>
    var nameSize: u16
    var lastWrittenTime: u64
    var flags: u16
    var numberOfSubKeys: u32
    var subKeysListOffset: u32
    var numberOfValues: u32
    var valuesListOffset: u32
    var securityKeyOffset: u32
    var classNameOffset: u32
    var classNameSize: u16

    /** The name size always agrees with the stored name. */
    ghost predicate Valid()
      reads this
    {
      && (name.None? ==> nameSize == 0)
      && (name.Some? ==> |name.value| == nameSize)
    }

    /** The fixed-part fields as currently held. */
    function CurrentFields(): Fields
      reads this
    {
      Fields(flags, lastWrittenTime, numberOfSubKeys, subKeysListOffset, numberOfValues,
             valuesListOffset, securityKeyOffset, classNameOffset, nameSize, classNameSize)
    }

    /** libregf_named_key_initialize: everything zero, no name. */
    constructor ()
      ensures Valid() && name.None? && nameHash == 0
      ensures CurrentFields() == Fields(0, 0, 0, 0, 0, 0, 0, 0, 0, 0)
    {
      nameHash := 0;
      name := None;
      nameSize := 0;
      lastWrittenTime := 0;
      flags := 0;
      numberOfSubKeys := 0;
      subKeysListOffset := 0;
      numberOfValues := 0;
      valuesListOffset := 0;
      securityKeyOffset := 0;
      classNameOffset := 0;
      classNameSize := 0;
    }

    method SetFields(f: Fields)
      modifies this
      ensures CurrentFields() == f && name == old(name) && nameHash == old(nameHash)
    {
      flags := f.flags;
      lastWrittenTime := f.lastWrittenTime;
      numberOfSubKeys := f.numberOfSubKeys;
      subKeysListOffset := f.subKeysListOffset;
      numberOfValues := f.numberOfValues;
      valuesListOffset := f.valuesListOffset;
      securityKeyOffset := f.securityKeyOffset;
      classNameOffset := f.classNameOffset;
      nameSize := f.nameSize;
      classNameSize := f.classNameSize;
    }

    /**
     * libregf_named_key_read_data. A key that already has a name is refused.
     * A size error changes nothing. From the signature check on, a failure
     * releases the name and resets the name size to 0, keeping the fields
     * already read; the name hash keeps what the hash loop reached.
     */
    method ReadData(version: FormatVersion, data: seq<u8>, codecs: NameCodecs) returns (success: bool)
      requires Valid()
      modifies this
      ensures Valid()
      ensures old(name).Some? ==> !success && CurrentFields() == old(CurrentFields()) && name == old(name)
                                  && nameHash == old(nameHash)
      ensures old(name).None? ==> match ParseRecord(version, data)
        case Rejected =>
          !success && CurrentFields() == old(CurrentFields()) && name.None? && nameHash == old(nameHash)
        case BadSignature =>
          !success && CurrentFields() == old(CurrentFields()).(nameSize := 0) && name.None?
          && nameHash == old(nameHash)
        case BadNameSize(f) =>
          !success && CurrentFields() == f.(nameSize := 0) && name.None? && nameHash == old(nameHash)
        case Parsed(f, nm) =>
          var h := NameHash(NameDecoder(f.flags, codecs), codecs.upper, nm, 0, 0);
          && success == h.ok
          && nameHash == h.hash
          && (success ==> CurrentFields() == f && name == Some(nm))
          && (!success ==> CurrentFields() == f.(nameSize := 0) && name.None?)
    {
      if name.Some? {
        return false;
      }
      var start := RecordStart(version);
      if |data| < start + NAMED_KEY_SIZE || |data| > SSIZE_MAX {
        return false;
      }
      if data[start] != 0x6e || data[start + 1] != 0x6b {
        assert data[start..start + 2] != NAMED_KEY_SIGNATURE;
        nameSize := 0;
        return false;
      }
      assert data[start..start + 2] == NAMED_KEY_SIGNATURE;
      var fields := FieldsAt(data, start);
      SetFields(fields);
      var dataOffset := start + NAMED_KEY_SIZE;
      if nameSize == 0 || nameSize > |data| - dataOffset {
        nameSize := 0;
        return false;
      }
      var nameBytes := data[dataOffset..dataOffset + nameSize];
      name := Some(nameBytes);
      var dec := NameDecoder(flags, codecs);
      nameHash := 0;
      var nameIndex := 0;
      while nameIndex < nameSize
        invariant 0 <= nameIndex <= |nameBytes| == nameSize
        invariant CurrentFields() == fields && name == Some(nameBytes)
        invariant NameHash(dec, codecs.upper, nameBytes, nameIndex, nameHash)
               == NameHash(dec, codecs.upper, nameBytes, 0, 0)
        decreases nameSize - nameIndex
      {
        var step := DecodeAt(dec, nameBytes, nameIndex);
        if step.Invalid? {
          name := None;
          nameSize := 0;
          return false;
        }
        nameIndex := step.next;
        nameHash := HashStep(nameHash, step.c, codecs.upper);
      }
      return true;
    }

    /** libregf_named_key_get_name: the destination must hold name_size bytes. */
    method GetName(destinationSize: nat) returns (r: Result<seq<u8>>)
      requires Valid()
      ensures r.Ok? <==> destinationSize <= SSIZE_MAX && nameSize <= destinationSize
      ensures r.Ok? ==> |r.value| == nameSize && (name.Some? ==> r.value == name.value)
    {
      if destinationSize > SSIZE_MAX || destinationSize < nameSize {
        return Err;
      }
      if name.None? {
        return Ok([]);
      }
      return Ok(name.value);
    }

    /**
     * libregf_named_key_compare_name_with_utf8_string, with the query's
     * decoder as a parameter. A key without a name and an over-long query
     * are errors. The full comparison runs only when either hash is zero or
     * the two hashes agree; otherwise the names do not match.
     */
    method CompareNameWithString<Q>(nameHashArg: u32, query: seq<Q>, queryDec: Decoder<Q>, codecs: NameCodecs)
      returns (r: Result<bool>)
      requires Valid()
      ensures name.None? || |query| > SSIZE_MAX ==> r == Err
      ensures name.Some? && |query| <= SSIZE_MAX ==>
        if nameHashArg == 0 || nameHash == 0 || nameHash == nameHashArg
        then r == Compare(NameDecoder(flags, codecs), name.value, queryDec, query, codecs.upper)
        else r == Ok(false)
    {
      if name.None? || |query| > SSIZE_MAX {
        return Err;
      }
      if !(nameHashArg == 0 || nameHash == 0 || nameHash == nameHashArg) {
        return Ok(false);
      }
      var nm := name.value;
      var dec := NameDecoder(flags, codecs);
      var upper := codecs.upper;
      var nameIndex: nat, queryIndex: nat := 0, 0;
      var equal := false;
      while nameIndex < nameSize
        invariant nameIndex <= |nm| && queryIndex <= |query|
        invariant CompareFrom(dec, nm, queryDec, query, upper, nameIndex, queryIndex, equal)
               == Compare(dec, nm, queryDec, query, upper)
        decreases nameSize - nameIndex
      {
        if queryIndex >= |query| {
          break;
        }
        var nameStep := DecodeAt(dec, nm, nameIndex);
        if nameStep.Invalid? {
          return Err;
        }
        var queryStep := DecodeAt(queryDec, query, queryIndex);
        if queryStep.Invalid? {
          return Err;
        }
        nameIndex, queryIndex := nameStep.next, queryStep.next;
        equal := upper(nameStep.c) == upper(queryStep.c);
        if !equal {
          return Ok(false);
        }
      }
      return Ok(equal && nameIndex == nameSize && queryIndex == |query|);
    }
  }
}
