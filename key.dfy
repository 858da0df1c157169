/**
 * Keys (libregf_key.c): a key item read at a cell offset, its file offset,
 * and lookup of its values and sub keys by index and by name.
 *
 * The comparison of a value's name with a query string is done by
 * libregf_value_key_compare_name_with_utf8_string and its UTF-16 twin,
 * which are declared but whose bodies are not part of this model: here the
 * comparison is a parameter that sees the value key (or its absence), the
 * query hash and the query.
 */
module Key {
  import opened Common
  import opened Text
  import opened HiveBinsList
  import NK = NamedKey
  import SKL = SubKeyList
  import VK = ValueKey
  import KI = KeyItem
  import VI = ValueItem

  /**
   * A key or value offset is relative to the start of the hive bins list
   * and names the cell's size field; the file offset points past it, at
   * the cell's data.
   */
  function FileOffset(hiveBinsListOffset: nat, offset: u32): nat {
    offset + hiveBinsListOffset + 4
  }

  /** The stored cell offset a file offset stands for, if any. */
  function StoredOffset(hiveBinsListOffset: nat, fileOffset: nat): (r: Option<u32>)
    ensures r.Some? ==> hiveBinsListOffset + 4 <= fileOffset
  {
    if fileOffset < hiveBinsListOffset + 4 || fileOffset - hiveBinsListOffset - 4 > UINT32_MAX then None
    else Some(fileOffset - hiveBinsListOffset - 4)
  }

  /** File offsets and stored offsets are inverse: different cells have different file offsets. */
  lemma FileOffsetRoundTrip(hiveBinsListOffset: nat, offset: u32, fileOffset: nat)
    ensures StoredOffset(hiveBinsListOffset, FileOffset(hiveBinsListOffset, offset)) == Some(offset)
    ensures StoredOffset(hiveBinsListOffset, fileOffset) == Some(offset) <==> FileOffset(hiveBinsListOffset, offset) == fileOffset
  {
  }

  /** What the value-name comparison sees of a value item. */
  datatype ValueKeyView = NoValueKey | ValueKeyView(fields: VK.ValueFields, name: Option<seq<u8>>)

  /**
   * libregf_value_key_compare_name_with_utf8_string (or utf16): given the
   * value key, the query hash and the query, Ok(true) on a match.
   */
  type NameCompare<!Q> = (ValueKeyView, u32, seq<Q>) -> Result<bool>

  /** The value item the values list hands out for a value key read, or None when the read fails. */
  function ViewOf(r: VI.ValueKeyRead): Option<ValueKeyView> {
    match r
    case KeyReadError => None
    case CellTooSmall => Some(NoValueKey)
    case NotAValueKey => Some(ValueKeyView(VK.ValueFields(0, 0, 0, 0, 0), None))
    case KeyRead(f, name, _) => Some(ValueKeyView(f, name))
  }

  /**
   * The value loop of libregf_internal_key_get_value_by_utf8_name from
   * index `i`: read each value item in list order and compare its name;
   * Found(index) at the first match.
   */
  function FindValue<Q>(h: HiveBinsList, codecs: NK.NameCodecs, values: seq<u32>, i: nat, nameHash: u32,
                        query: seq<Q>, compare: NameCompare<Q>): (r: Outcome<nat>)
    ensures r.Found? ==> i <= r.value < |values|
    decreases |values| - i
  {
    if i >= |values| then NotFound
    else match ViewOf(VI.ReadValueKeyOf(h, codecs, values[i]))
      case None => Error
      case Some(v) =>
        match compare(v, nameHash, query)
        case Err => Error
        case Ok(true) => Found(i)
        case Ok(false) => FindValue(h, codecs, values, i + 1, nameHash, query, compare)
  }

  /** Whether the value at `values[j]` reads and its name is compared unequal to the query. */
  predicate ReadsAndDiffers<Q>(h: HiveBinsList, codecs: NK.NameCodecs, values: seq<u32>, j: nat, nameHash: u32,
                               query: seq<Q>, compare: NameCompare<Q>)
    requires j < |values|
  {
    var v := ViewOf(VI.ReadValueKeyOf(h, codecs, values[j]));
    v.Some? && compare(v.value, nameHash, query) == Ok(false)
  }

  /** Lookup by name returns the first value whose name matches: every one before it reads and differs. */
  lemma {:induction false} FindValueIsFirstMatch<Q>(h: HiveBinsList, codecs: NK.NameCodecs, values: seq<u32>, i: nat,
                                                     nameHash: u32, query: seq<Q>, compare: NameCompare<Q>)
    requires FindValue(h, codecs, values, i, nameHash, query, compare).Found?
    ensures var j := FindValue(h, codecs, values, i, nameHash, query, compare).value;
      && ViewOf(VI.ReadValueKeyOf(h, codecs, values[j])).Some?
      && compare(ViewOf(VI.ReadValueKeyOf(h, codecs, values[j])).value, nameHash, query) == Ok(true)
      && forall k :: i <= k < j ==> ReadsAndDiffers(h, codecs, values, k, nameHash, query, compare)
    decreases |values| - i
  {
    var v := ViewOf(VI.ReadValueKeyOf(h, codecs, values[i]));
    if compare(v.value, nameHash, query) == Ok(false) {
      FindValueIsFirstMatch(h, codecs, values, i + 1, nameHash, query, compare);
    }
  }

  /** NotFound means every value from `i` read and none matched. */
  lemma {:induction false} FindValueNotFound<Q>(h: HiveBinsList, codecs: NK.NameCodecs, values: seq<u32>, i: nat,
                                                 nameHash: u32, query: seq<Q>, compare: NameCompare<Q>)
    requires FindValue(h, codecs, values, i, nameHash, query, compare).NotFound?
    ensures forall k :: i <= k < |values| ==> ReadsAndDiffers(h, codecs, values, k, nameHash, query, compare)
    decreases |values| - i
  {
    if i < |values| {
      FindValueNotFound(h, codecs, values, i + 1, nameHash, query, compare);
    }
  }

  /**
   * libregf_internal_key_get_value_by_utf8_name (and utf16): the index of
   * the value named `name`, whose length the caller gives separately. A
   * NULL name (None) is allowed only with length 0, and selects the
   * default value; a length above SSIZE_MAX is an error. A key without
   * values gives NotFound before the query is decoded; otherwise the query
   * hash is folded over its decoded characters and the values are searched.
   */
  function GetValueByNameOf<Q>(h: HiveBinsList, codecs: NK.NameCodecs, values: seq<u32>, queryDec: Decoder<Q>,
                               name: Option<seq<Q>>, length: nat, compare: NameCompare<Q>): (r: Outcome<nat>)
    requires name.Some? ==> |name.value| == length
    ensures (name.None? && length != 0) || length > SSIZE_MAX ==> r == Error
    ensures r.Found? ==> r.value < |values|
    ensures r.Found? ==> NameHash(queryDec, codecs.upper, if name.Some? then name.value else [], 0, 0).ok
  {
    if name.None? && length != 0 then Error
    else if length > SSIZE_MAX then Error
    else if |values| == 0 then NotFound
    else
      var query := if name.Some? then name.value else [];
      var fold := NameHash(queryDec, codecs.upper, query, 0, 0);
      if !fold.ok then Error
      else FindValue(h, codecs, values, 0, fold.hash, query, compare)
  }

  /** A key without values has no value of any name, even one that does not decode. */
  lemma NoValuesIsNotFound<Q>(h: HiveBinsList, codecs: NK.NameCodecs, queryDec: Decoder<Q>,
                              name: Option<seq<Q>>, length: nat, compare: NameCompare<Q>)
    requires name.Some? ==> |name.value| == length
    requires name.Some? || length == 0
    requires length <= SSIZE_MAX
    ensures GetValueByNameOf(h, codecs, [], queryDec, name, length, compare) == NotFound
  {
  }

  /**
   * The default value is looked up with the hash of the empty name, 0, and
   * an empty query; a NULL name with a length is an error.
   */
  lemma DefaultValueQuery<Q>(h: HiveBinsList, codecs: NK.NameCodecs, values: seq<u32>, queryDec: Decoder<Q>,
                             length: nat, compare: NameCompare<Q>)
    ensures length != 0 ==> GetValueByNameOf(h, codecs, values, queryDec, None, length, compare) == Error
    ensures length == 0 && values != [] ==>
      GetValueByNameOf(h, codecs, values, queryDec, None, length, compare) == FindValue(h, codecs, values, 0, 0, [], compare)
  {
  }

  /**
   * libregf_internal_key_get_sub_key_by_utf8_name (and utf16): unlike a
   * value name, a NULL sub key name is always an error. The found
   * descriptor's key must read for the sub key to be created.
   */
  function GetSubKeyByNameOf<Q>(h: HiveBinsList, codecs: NK.NameCodecs, descriptors: seq<SKL.KeyDescriptor>,
                                queryDec: Decoder<Q>, name: Option<seq<Q>>): (r: Outcome<u32>)
    ensures name.None? ==> r == Error
    ensures r.Found? ==> KI.ReadKeyItem(h, codecs, r.value).Ok? && exists d :: d in descriptors && d.keyOffset == r.value
  {
    if name.None? || |name.value| > SSIZE_MAX then Error
    else
      var fold := NameHash(queryDec, codecs.upper, name.value, 0, 0);
      if !fold.ok then Error
      else match KI.FindSubKey(h, codecs, descriptors, 0, fold.hash, name.value, queryDec)
        case Error => Error
        case NotFound => NotFound
        case Found(d) => if KI.ReadKeyItem(h, codecs, d.keyOffset).Ok? then Found(d.keyOffset) else Error
  }

  /** A sub key found by name is a descriptor of the key that reads, and every earlier descriptor did not match. */
  lemma SubKeyByNameIsFirstMatch<Q>(h: HiveBinsList, codecs: NK.NameCodecs, descriptors: seq<SKL.KeyDescriptor>,
                                    queryDec: Decoder<Q>, name: Option<seq<Q>>)
    requires GetSubKeyByNameOf(h, codecs, descriptors, queryDec, name).Found?
    ensures name.Some?
    ensures var o := GetSubKeyByNameOf(h, codecs, descriptors, queryDec, name).value;
      var hash := NameHash(queryDec, codecs.upper, name.value, 0, 0).hash;
      KI.ReadKeyItem(h, codecs, o).Ok? &&
      exists j :: (0 <= j < |descriptors| && descriptors[j].keyOffset == o
        && KI.DescriptorMatches(h, codecs, descriptors[j], hash, name.value, queryDec) == Ok(true)
        && forall k :: 0 <= k < j ==> KI.DescriptorMatches(h, codecs, descriptors[k], hash, name.value, queryDec) == Ok(false))
  {
    var hash := NameHash(queryDec, codecs.upper, name.value, 0, 0).hash;
    KI.FindSubKeyIsFirstMatch(h, codecs, descriptors, 0, hash, name.value, queryDec);
  }

  /** libregf_internal_key_get_value: the file offset of the value at `index`, once its item reads. */
  function GetValueOf(h: HiveBinsList, codecs: NK.NameCodecs, values: seq<u32>, index: int): (r: Result<nat>)
    ensures r.Ok? <==> 0 <= index < |values| && !VI.ReadValueKeyOf(h, codecs, values[index]).KeyReadError?
    ensures r.Ok? ==> StoredOffset(h.hiveBinsListOffset, r.value) == Some(values[index])
  {
    if index < 0 || index >= |values| then Err
    else if VI.ReadValueKeyOf(h, codecs, values[index]).KeyReadError? then Err
    else Ok(FileOffset(h.hiveBinsListOffset, values[index]))
  }

  /** libregf_key_get_sub_key: the offset of sub key `index`, once its key item reads. */
  function GetSubKeyOf(h: HiveBinsList, codecs: NK.NameCodecs, descriptors: seq<SKL.KeyDescriptor>, index: int): (r: Result<u32>)
    ensures r.Ok? <==> 0 <= index < |descriptors| && KI.ReadKeyItem(h, codecs, descriptors[index].keyOffset).Ok?
    ensures r.Ok? ==> r.value == descriptors[index].keyOffset
  {
    if index < 0 || index >= |descriptors| then Err
    else if KI.ReadKeyItem(h, codecs, descriptors[index].keyOffset).Err? then Err
    else Ok(descriptors[index].keyOffset)
  }

  /** The hash loop of the lookup functions over a query string. */
  method HashQuery<Q>(queryDec: Decoder<Q>, upper: Upper, query: seq<Q>) returns (r: HashFold)
    ensures r == NameHash(queryDec, upper, query, 0, 0)
  {
    var index := 0;
    var nameHash: u32 := 0;
    while index < |query|
      invariant index <= |query|
      invariant NameHash(queryDec, upper, query, index, nameHash) == NameHash(queryDec, upper, query, 0, 0)
      decreases |query| - index
    {
      var step := DecodeAt(queryDec, query, index);
      if step.Invalid? {
        return HashFold(false, nameHash);
      }
      nameHash := HashStep(nameHash, step.c, upper);
      index := step.next;
    }
    return HashFold(true, nameHash);
  }

  /** The value key a read value item holds, as the comparison sees it. */
  function ItemView(item: VI.ValueItem): ValueKeyView
    reads item, item.valueKey
  {
    if item.valueKey == null then NoValueKey
    else ValueKeyView(item.valueKey.CurrentFields(), item.valueKey.name)
  }

  class Key {
    /** The hive the key was read from, with its IO handle's format version. */
    const hive: HiveBinsList
    const codecs: NK.NameCodecs
    const keyOffset: u32
    const item: KI.KeyItem

    constructor (hive: HiveBinsList, codecs: NK.NameCodecs, keyOffset: u32, item: KI.KeyItem)
      ensures this.hive == hive && this.codecs == codecs && this.keyOffset == keyOffset && this.item == item
    {
      this.hive := hive;
      this.codecs := codecs;
      this.keyOffset := keyOffset;
      this.item := item;
    }

    /**
     * libregf_key_initialize: a key whose item is read at `keyOffset`, or
     * none when the read fails.
     */
    static method Open(hive: HiveBinsList, codecs: NK.NameCodecs, keyOffset: u32) returns (key: Key?)
      ensures key == null <==> KI.ReadKeyItem(hive, codecs, keyOffset).Err?
      ensures key != null ==>
        && fresh(key) && fresh(key.item) && key.hive == hive && key.codecs == codecs && key.keyOffset == keyOffset
        && key.item.values == KI.ReadKeyItem(hive, codecs, keyOffset).value.lists.values
        && key.item.subKeyDescriptors == KI.ReadKeyItem(hive, codecs, keyOffset).value.lists.subKeys
    {
      var item := new KI.KeyItem();
      var ok := item.Read(hive, codecs, keyOffset);
      if !ok {
        return null;
      }
      key := new Key(hive, codecs, keyOffset, item);
    }

    /** libregf_key_get_offset */
    method GetOffset() returns (r: nat)
      ensures StoredOffset(hive.hiveBinsListOffset, r) == Some(keyOffset)
    {
      r := keyOffset + hive.hiveBinsListOffset + 4;
    }

    /** libregf_internal_key_get_value */
    method GetValue(index: int) returns (r: Result<nat>)
      ensures r == GetValueOf(hive, codecs, item.values, index)
    {
      if index < 0 || index >= |item.values| {
        return Err;
      }
      var offset := item.values[index];
      var valueItem, _ := VI.ValueItem.ReadElementData(hive, codecs, offset);
      if valueItem == null {
        return Err;
      }
      return Ok(offset + hive.hiveBinsListOffset + 4);
    }

    /** libregf_internal_key_get_value_by_utf8_name (and utf16) */
    method GetValueByName<Q>(queryDec: Decoder<Q>, name: Option<seq<Q>>, length: nat, compare: NameCompare<Q>)
      returns (r: Outcome<nat>)
      requires name.Some? ==> |name.value| == length
      ensures r == GetValueByNameOf(hive, codecs, item.values, queryDec, name, length, compare)
    {
      if name.None? && length != 0 {
        return Error;
      }
      if length > SSIZE_MAX {
        return Error;
      }
      var values := item.values;
      if |values| == 0 {
        return NotFound;
      }
      var query := if name.Some? then name.value else [];
      var fold := HashQuery(queryDec, codecs.upper, query);
      if !fold.ok {
        return Error;
      }
      var valueIndex := 0;
      while valueIndex < |values|
        invariant valueIndex <= |values|
        invariant FindValue(hive, codecs, values, valueIndex, fold.hash, query, compare)
               == FindValue(hive, codecs, values, 0, fold.hash, query, compare)
        decreases |values| - valueIndex
      {
        var valueItem, _ := VI.ValueItem.ReadElementData(hive, codecs, values[valueIndex]);
        if valueItem == null {
          return Error;
        }
        assert ViewOf(VI.ReadValueKeyOf(hive, codecs, values[valueIndex])) == Some(ItemView(valueItem));
        var result := compare(ItemView(valueItem), fold.hash, query);
        if result.Err? {
          return Error;
        }
        if result.value {
          return Found(valueIndex);
        }
        valueIndex := valueIndex + 1;
      }
      return NotFound;
    }

    /** libregf_key_get_sub_key */
    method GetSubKey(index: int) returns (r: Result<u32>)
      ensures r == GetSubKeyOf(hive, codecs, item.subKeyDescriptors, index)
    {
      if index < 0 || index >= |item.subKeyDescriptors| {
        return Err;
      }
      var offset := item.subKeyDescriptors[index].keyOffset;
      var subKey := Open(hive, codecs, offset);
      if subKey == null {
        return Err;
      }
      return Ok(offset);
    }

    /** libregf_internal_key_get_sub_key_by_utf8_name (and utf16) */
    method GetSubKeyByName<Q>(queryDec: Decoder<Q>, name: Option<seq<Q>>) returns (r: Outcome<u32>)
      ensures r == GetSubKeyByNameOf(hive, codecs, item.subKeyDescriptors, queryDec, name)
    {
      if name.None? || |name.value| > SSIZE_MAX {
        return Error;
      }
      var fold := HashQuery(queryDec, codecs.upper, name.value);
      if !fold.ok {
        return Error;
      }
      var found := item.GetSubKeyDescriptorByName(hive, codecs, fold.hash, name.value, queryDec);
      if !found.Found? {
        return if found.Error? then Error else NotFound;
      }
      var subKey := Open(hive, codecs, found.value.keyOffset);
      if subKey == null {
        return Error;
      }
      return Found(found.value.keyOffset);
    }
  }
}
