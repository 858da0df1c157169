/**
 * The "vk" value key record (libregf_value_key.c): a 20-byte fixed part
 * followed by the value name. Unlike the other record readers the record
 * starts at offset 0 whatever the format version, and a signature other
 * than "vk" is "not found" rather than an error.
 */
module ValueKey {
  import opened Common
  import opened Text
  import opened NamedKey

  const VALUE_KEY_SIZE: nat := 20
  /** "vk" */
  const VALUE_KEY_SIGNATURE: seq<u8> := [0x76, 0x6b]

  /** The fixed-part fields the reader keeps. */
  datatype ValueFields = ValueFields(nameSize: u16, dataSize: u32, dataOffset: u32, dataType: u32, flags: u16)

  function ValueFieldsAt(data: seq<u8>): ValueFields
    requires VALUE_KEY_SIZE <= |data|
  {
    ValueFields(U16At(data, 2), U32At(data, 4), U32At(data, 8), U32At(data, 12), U16At(data, 16))
  }

  /** How far libregf_value_key_read_data gets through a record before hashing the name. */
  datatype ValueParse =
    | ValueRejected
    | NotValueKey
    | ValueBadNameSize(fields: ValueFields)
    | ValueParsed(fields: ValueFields, name: seq<u8>)

  /**
   * The checks and field reads of libregf_value_key_read_data: the data must
   * hold the fixed part and start with "vk"; a non-zero name must fit after
   * the fixed part. Name size 0 is the default value, which has no name.
   */
  function ParseValueKey(data: seq<u8>): (r: ValueParse)
    ensures r.ValueRejected? <==> |data| < VALUE_KEY_SIZE || |data| > SSIZE_MAX
    ensures r.NotValueKey? <==> !r.ValueRejected? && !HasSignature(data, 0, VALUE_KEY_SIGNATURE)
    ensures r.ValueBadNameSize? ==> r.fields.nameSize > |data| - VALUE_KEY_SIZE
    ensures r.ValueParsed? ==>
      && |r.name| == r.fields.nameSize
      && VALUE_KEY_SIZE + |r.name| <= |data|
      && r.name == data[VALUE_KEY_SIZE..VALUE_KEY_SIZE + |r.name|]
  {
    if |data| < VALUE_KEY_SIZE || |data| > SSIZE_MAX then ValueRejected
    else if data[..2] != VALUE_KEY_SIGNATURE then NotValueKey
    else
      var fields := ValueFieldsAt(data);
      if fields.nameSize > 0 && fields.nameSize > |data| - VALUE_KEY_SIZE then ValueBadNameSize(fields)
      else ValueParsed(fields, data[VALUE_KEY_SIZE..VALUE_KEY_SIZE + fields.nameSize])
  }

  /** The fixed part of a record as a writer lays it out; the unkept field is zero. */
  function EncodeValueFields(f: ValueFields): (d: seq<u8>)
    ensures |d| == VALUE_KEY_SIZE
  {
    VALUE_KEY_SIGNATURE + Le16(f.nameSize) + Le32(f.dataSize) + Le32(f.dataOffset) + Le32(f.dataType)
    + Le16(f.flags) + Le16(0)
  }

  /** A record encoded with its name parses back to its fields and name. */
  lemma ParseEncodedValueKey(f: ValueFields, name: seq<u8>)
    requires |name| == f.nameSize
    ensures ParseValueKey(EncodeValueFields(f) + name) == ValueParsed(f, name)
  {
    var data := EncodeValueFields(f) + name;
    var e := EncodeValueFields(f);
    assert data[..VALUE_KEY_SIZE] == e;
    assert data[..2] == e[..2] == VALUE_KEY_SIGNATURE;
    assert data[2..4] == e[2..4] == Le16(f.nameSize);
    assert data[4..8] == e[4..8] == Le32(f.dataSize);
    assert data[8..12] == e[8..12] == Le32(f.dataOffset);
    assert data[12..16] == e[12..16] == Le32(f.dataType);
    assert data[16..18] == e[16..18] == Le16(f.flags);
    Le16RoundTrip(f.nameSize, data, 2);
    Le32RoundTrip(f.dataSize, data, 4);
    Le32RoundTrip(f.dataOffset, data, 8);
    Le32RoundTrip(f.dataType, data, 12);
    Le16RoundTrip(f.flags, data, 16);
    assert data[VALUE_KEY_SIZE..VALUE_KEY_SIZE + |name|] == name;
  }

  /** The 36-byte record of the test suite: the value "DispFileName". */
  const SAMPLE_VALUE_KEY: seq<u8> :=
    [0x76, 0x6b, 0x0c, 0x00, 0x22, 0x00, 0x00, 0x00, 0x30, 0xdc, 0x00, 0x00, 0x01, 0x00, 0x00, 0x00]
    + [0x01, 0x00, 0x00, 0x00, 0x44, 0x69, 0x73, 0x70, 0x46, 0x69, 0x6c, 0x65, 0x4e, 0x61, 0x6d, 0x65]
    + [0x00, 0x00, 0x00, 0x00]

  /** The sample parses with name size 12, data size 0x22 at offset 0xdc30, type 1 and flags 1. */
  lemma SampleValueKey()
    ensures ParseValueKey(SAMPLE_VALUE_KEY)
         == ValueParsed(ValueFields(12, 0x22, 0xdc30, 1, 1), SAMPLE_VALUE_KEY[20..32])
  {
    var d := SAMPLE_VALUE_KEY;
    assert |d| == 36;
    assert d[0] == 0x76 && d[1] == 0x6b;
    assert d[..2] == VALUE_KEY_SIGNATURE;
    assert d[2] == 0x0c && d[3] == 0;
    assert d[4] == 0x22 && d[5] == 0 && d[6] == 0 && d[7] == 0;
    assert d[8] == 0x30 && d[9] == 0xdc && d[10] == 0 && d[11] == 0;
    assert d[12] == 1 && d[13] == 0 && d[14] == 0 && d[15] == 0;
    assert d[16] == 1 && d[17] == 0;
  }

  class ValueKey {
    var nameHash: u32
    /** The name bytes; None stands for the C NULL pointer. */
    var name: Option<seq<u8>>
    var nameSize: u16
    var dataSize: u32
    var dataOffset: u32
    var dataType: u32
    var flags: u16

    /** A stored name has the recorded size; without a name the size is 0. */
    ghost predicate Valid()
      reads this
    {
      && (name.None? ==> nameSize == 0)
      && (name.Some? ==> |name.value| == nameSize)
    }

    function CurrentFields(): ValueFields
      reads this
    {
      ValueFields(nameSize, dataSize, dataOffset, dataType, flags)
    }

    /** libregf_value_key_initialize: everything zero, no name. */
    constructor ()
      ensures Valid() && name.None? && nameHash == 0 && CurrentFields() == ValueFields(0, 0, 0, 0, 0)
    {
      nameHash := 0;
      name := None;
      nameSize := 0;
      dataSize := 0;
      dataOffset := 0;
      dataType := 0;
      flags := 0;
    }

    /**
     * libregf_value_key_read_data. A key that already has a name is refused.
     * Size errors and a signature other than "vk" leave the key untouched.
     * A name that does not fit, or does not decode, releases the name and
     * resets the name size to 0, keeping the other fields; the hash keeps
     * what the hash loop reached. Name size 0 stores no name and leaves the
     * hash as it was.
     */
    method ReadData(data: seq<u8>, codecs: NameCodecs) returns (status: Status)
      requires Valid()
      modifies this
      ensures Valid()
      ensures old(name).Some? ==> status == Failure && unchanged(this)
      ensures old(name).None? ==> match ParseValueKey(data)
        case ValueRejected => status == Failure && unchanged(this)
        case NotValueKey => status == Absent && unchanged(this)
        case ValueBadNameSize(f) =>
          status == Failure && CurrentFields() == f.(nameSize := 0) && name.None? && nameHash == old(nameHash)
        case ValueParsed(f, nm) =>
          if f.nameSize == 0 then
            status == Success && CurrentFields() == f && name.None? && nameHash == old(nameHash)
          else
            var h := NameHash(NameDecoder(f.flags, codecs), codecs.upper, nm, 0, 0);
            && (status == Success <==> h.ok)
            && (status != Success ==> status == Failure)
            && nameHash == h.hash
            && (h.ok ==> CurrentFields() == f && name == Some(nm))
            && (!h.ok ==> CurrentFields() == f.(nameSize := 0) && name.None?)
    {
      if name.Some? {
        return Failure;
      }
      if |data| < VALUE_KEY_SIZE || |data| > SSIZE_MAX {
        return Failure;
      }
      if data[0] != 0x76 || data[1] != 0x6b {
        assert data[..2] != VALUE_KEY_SIGNATURE;
        return Absent;
      }
      assert data[..2] == VALUE_KEY_SIGNATURE;
      var fields := ValueFieldsAt(data);
      nameSize, dataSize, dataOffset, dataType, flags :=
        fields.nameSize, fields.dataSize, fields.dataOffset, fields.dataType, fields.flags;
      if nameSize > 0 {
        if nameSize > |data| - VALUE_KEY_SIZE {
          nameSize := 0;
          return Failure;
        }
        var nameBytes := data[VALUE_KEY_SIZE..VALUE_KEY_SIZE + nameSize];
        name := Some(nameBytes);
        var dec := NameDecoder(flags, codecs);
        nameHash := 0;
        var nameIndex := 0;
        while nameIndex < nameSize
          invariant 0 <= nameIndex <= |nameBytes| == nameSize
          invariant CurrentFields() == fields && name == Some(nameBytes)
          invariant NameHash(dec, codecs.upper, nameBytes, nameIndex, nameHash)
                 == NameHash(dec, codecs.upper, nameBytes, 0, 0)
          decreases nameSize - nameIndex
        {
          var step := DecodeAt(dec, nameBytes, nameIndex);
          if step.Invalid? {
            name := None;
            nameSize := 0;
            return Failure;
          }
          nameIndex := step.next;
          nameHash := HashStep(nameHash, step.c, codecs.upper);
        }
      }
      return Success;
    }
  }
}
