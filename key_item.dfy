/**
 * A key item (libregf_key_item.c): a named key together with its class
 * name, security descriptor, the offsets of its values and the descriptors
 * of its sub keys, read through the hive bins list. Offsets that point
 * outside every hive bin are skipped and mark the item corrupted rather
 * than failing the read.
 */
module KeyItem {
  import opened Common
  import opened Text
  import opened HiveBinsList
  import NK = NamedKey
  import SKL = SubKeyList
  import SK = SecurityKey

  /** LIBREGF_MAXIMUM_SUB_KEY_RECURSION_DEPTH (its definition is not part of this model; 256 assumed). */
  const MAXIMUM_SUB_KEY_RECURSION_DEPTH: int := 256

  /** The offset value the format uses for "no such cell". */
  const NO_OFFSET: u32 := 0xffff_ffff

  // ---------------------------------------------------------------- named key

  /** What libregf_key_item_read_named_key leaves in a fresh named key. */
  datatype NamedKeyValue = NamedKeyValue(fields: NK.Fields, name: seq<u8>, nameHash: u32)

  /**
   * libregf_key_item_read_named_key into a fresh named key: the offset must
   * not be 0 or 0xffffffff, the cell must exist and hold a named key record
   * whose name decodes.
   */
  function NamedKeyAt(h: HiveBinsList, codecs: NK.NameCodecs, offset: u32): (r: Result<NamedKeyValue>)
    ensures r.Ok? ==> offset != 0 && offset != NO_OFFSET && offset in h.cells
    ensures r.Ok? ==> NK.ParseRecord(h.version, h.cells[offset]) == NK.Parsed(r.value.fields, r.value.name)
  {
    if offset == 0 || offset == NO_OFFSET then Err
    else match CellAt(h, offset)
      case Err => Err
      case Ok(cell) =>
        match NK.ParseRecord(h.version, cell)
        case Parsed(f, nm) =>
          var hash := NameHash(NK.NameDecoder(f.flags, codecs), codecs.upper, nm, 0, 0);
          if hash.ok then Ok(NamedKeyValue(f, nm, hash.hash)) else Err
        case _ => Err
  }

  /** libregf_named_key_compare_name_with_utf8_string (or utf16) on a named key read as above. */
  function NameMatches<Q>(k: NamedKeyValue, codecs: NK.NameCodecs, nameHash: u32, query: seq<Q>, queryDec: Decoder<Q>): Result<bool> {
    if |query| > SSIZE_MAX then Err
    else if nameHash == 0 || k.nameHash == 0 || k.nameHash == nameHash
    then Compare(NK.NameDecoder(k.fields.flags, codecs), k.name, queryDec, query, codecs.upper)
    else Ok(false)
  }

  /** Reading the key a descriptor points to and comparing its name with the query. */
  function DescriptorMatches<Q>(h: HiveBinsList, codecs: NK.NameCodecs, d: SKL.KeyDescriptor,
                                nameHash: u32, query: seq<Q>, queryDec: Decoder<Q>): Result<bool> {
    match NamedKeyAt(h, codecs, d.keyOffset)
    case Err => Err
    case Ok(k) => NameMatches(k, codecs, nameHash, query, queryDec)
  }

  // --------------------------------------------------------------- class name

  /**
   * libregf_key_item_read_class_name_data: the size must be non-zero and fit
   * in the cell; exactly that many bytes are copied.
   */
  function ClassNameData(data: seq<u8>, classNameSize: u16): (r: Result<seq<u8>>)
    ensures r.Ok? <==> |data| <= SSIZE_MAX && 0 < classNameSize <= |data|
    ensures r.Ok? ==> |r.value| == classNameSize && data == r.value + data[classNameSize..]
  {
    if |data| > SSIZE_MAX || classNameSize == 0 || classNameSize > |data| then Err
    else Ok(data[..classNameSize])
  }

  /**
   * libregf_key_item_read_class_name: offset 0xffffffff, or offset 0 with
   * size 0, means there is no class name; offset 0 with a size is an error.
   */
  function ClassName(h: HiveBinsList, offset: u32, size: u16): (r: Result<Option<seq<u8>>>)
  {
    if offset == NO_OFFSET then Ok(None)
    else if offset == 0 && size == 0 then Ok(None)
    else if offset == 0 then Err
    else match CellAt(h, offset)
      case Err => Err
      case Ok(cell) =>
        match ClassNameData(cell, size)
        case Err => Err
        case Ok(name) => Ok(Some(name))
  }

  /** The class-name rules: when there is none, when it is an error, and what a present one is. */
  lemma ClassNameCases(h: HiveBinsList, offset: u32, size: u16)
    ensures offset == NO_OFFSET || (offset == 0 && size == 0) ==> ClassName(h, offset, size) == Ok(None)
    ensures offset == 0 && size != 0 ==> ClassName(h, offset, size) == Err
    ensures offset != 0 && offset != NO_OFFSET ==>
      (ClassName(h, offset, size).Ok? <==>
        offset in h.cells && |h.cells[offset]| <= SSIZE_MAX && 0 < size <= |h.cells[offset]|)
    ensures ClassName(h, offset, size) == Ok(None) <==> offset == NO_OFFSET || (offset == 0 && size == 0)
    ensures match ClassName(h, offset, size)
      case Ok(Some(name)) => |name| == size > 0 && name == h.cells[offset][..size]
      case _ => true
  {
  }

  // ------------------------------------------------------ security descriptor

  /**
   * libregf_key_item_read_security_key: offset 0 or 0xffffffff is an error;
   * otherwise the cell is read as a security key and its descriptor (None
   * when its size is 0) is taken over.
   */
  function SecurityDescriptorAt(h: HiveBinsList, offset: u32): (r: Result<Option<seq<u8>>>)
    ensures offset == 0 || offset == NO_OFFSET ==> r == Err
    ensures r.Ok? ==> offset in h.cells && SK.ReadData(SK.SecurityKey(None), h.cells[offset]) == Ok(SK.SecurityKey(r.value))
  {
    if offset == 0 || offset == NO_OFFSET then Err
    else match CellAt(h, offset)
      case Err => Err
      case Ok(cell) =>
        match SK.ReadData(SK.SecurityKey(None), cell)
        case Err => Err
        case Ok(key) => Ok(key.descriptor)
  }

  // -------------------------------------------------------------- values list

  /** The first `n` little-endian 32-bit words of `data` from `at`. */
  function ElementOffsets(data: seq<u8>, at: nat, n: nat): (r: seq<u32>)
    requires at + 4 * n <= |data|
    ensures |r| == n
  {
    if n == 0 then [] else ElementOffsets(data, at, n - 1) + [U32At(data, at + 4 * (n - 1))]
  }

  /** Element `k` of the list is the word at `at + 4k`. */
  lemma {:induction false} ElementOffsetsAt(data: seq<u8>, at: nat, n: nat, k: nat)
    requires at + 4 * n <= |data| && k < n
    ensures ElementOffsets(data, at, n)[k] == U32At(data, at + 4 * k)
  {
    if k < n - 1 {
      ElementOffsetsAt(data, at, n - 1, k);
    }
  }

  /** The value offsets kept, and whether one was dropped. */
  datatype ValueOffsets = ValueOffsets(offsets: seq<u32>, corrupted: bool)

  /** The element loop of libregf_key_item_read_values_list: offsets in no hive bin are dropped and flag corruption. */
  function KeepInBins(bins: seq<BinRange>, offsets: seq<u32>): (r: ValueOffsets)
    decreases |offsets|
  {
    if offsets == [] then ValueOffsets([], false)
    else
      var init := KeepInBins(bins, offsets[..|offsets| - 1]);
      var last := offsets[|offsets| - 1];
      if InBins(bins, last) then ValueOffsets(init.offsets + [last], init.corrupted)
      else ValueOffsets(init.offsets, true)
  }

  /**
   * The kept offsets are exactly the list's offsets that lie in a hive bin,
   * in list order; the item is corrupted exactly when one was dropped.
   */
  lemma {:induction false} KeepInBinsMeaning(bins: seq<BinRange>, offsets: seq<u32>)
    ensures var r := KeepInBins(bins, offsets);
      && |r.offsets| <= |offsets|
      && (r.corrupted <==> |r.offsets| < |offsets|)
      && (forall k :: 0 <= k < |r.offsets| ==> InBins(bins, r.offsets[k]) && r.offsets[k] in offsets)
      && (forall k :: 0 <= k < |offsets| && InBins(bins, offsets[k]) ==> offsets[k] in r.offsets)
    decreases |offsets|
  {
    if offsets != [] {
      var init := offsets[..|offsets| - 1];
      KeepInBinsMeaning(bins, init);
      var r := KeepInBins(bins, offsets);
      assert offsets == init + [offsets[|offsets| - 1]];
      forall k | 0 <= k < |offsets| && InBins(bins, offsets[k])
        ensures offsets[k] in r.offsets
      {
        if k < |offsets| - 1 {
          assert offsets[k] == init[k];
        }
      }
    }
  }

  /**
   * libregf_key_item_read_values_list: no elements is success without a
   * cell; otherwise offset 0 or 0xffffffff is an error, and the count must
   * fit in the cell after the 4-byte prefix of format 1.1 and earlier.
   */
  function ValuesList(h: HiveBinsList, offset: u32, n: u32): (r: Result<ValueOffsets>)
    ensures n == 0 ==> r == Ok(ValueOffsets([], false))
    ensures r.Ok? ==> |r.value.offsets| <= n && (r.value.corrupted <==> |r.value.offsets| < n)
    ensures r.Ok? ==> OffsetsInBins(h.bins, r.value.offsets)
  {
    if n == 0 then Ok(ValueOffsets([], false))
    else if offset == 0 || offset == NO_OFFSET then Err
    else match CellAt(h, offset)
      case Err => Err
      case Ok(cell) =>
        var start := RecordStart(h.version);
        if start > |cell| || n > (|cell| - start) / 4 then Err
        else
          var all := ElementOffsets(cell, start, n);
          KeepInBinsMeaning(h.bins, all);
          Ok(KeepInBins(h.bins, all))
  }

  /**
   * The values list reads `n` words after the prefix; it fails exactly on a
   * bad offset, a missing cell or a count that does not fit; on success the
   * kept offsets are the words that lie in a hive bin, and the item is
   * corrupted exactly when a word was dropped.
   */
  lemma ValuesListMeaning(h: HiveBinsList, offset: u32, n: u32)
    requires n > 0
    ensures ValuesList(h, offset, n).Ok? <==>
      && offset != 0 && offset != NO_OFFSET && offset in h.cells
      && RecordStart(h.version) + 4 * n <= |h.cells[offset]|
    ensures match ValuesList(h, offset, n)
      case Ok(v) =>
        var cell := h.cells[offset];
        var start := RecordStart(h.version);
        && |v.offsets| <= n
        && (v.corrupted <==> |v.offsets| < n)
        && (forall k :: 0 <= k < |v.offsets| ==> InBins(h.bins, v.offsets[k]))
        && (forall k :: 0 <= k < n && InBins(h.bins, U32At(cell, start + 4 * k)) ==> U32At(cell, start + 4 * k) in v.offsets)
      case Err => true
  {
    if offset != 0 && offset != NO_OFFSET && offset in h.cells {
      var cell := h.cells[offset];
      var start := RecordStart(h.version);
      if start <= |cell| && n <= (|cell| - start) / 4 {
        var all := ElementOffsets(cell, start, n);
        KeepInBinsMeaning(h.bins, all);
        var v := KeepInBins(h.bins, all);
        forall k | 0 <= k < n && InBins(h.bins, U32At(cell, start + 4 * k))
          ensures U32At(cell, start + 4 * k) in v.offsets
        {
          ElementOffsetsAt(cell, start, n, k);
          assert all[k] == U32At(cell, start + 4 * k);
        }
      }
    }
  }

  // ---------------------------------------------------------- sub keys list

  /** The descriptors a sub keys list yields, and whether corruption was met below it. */
  datatype SubKeys = SubKeys(descriptors: seq<SKL.KeyDescriptor>, corrupted: bool)

  /**
   * libregf_key_item_read_sub_keys_list: the offset must not be 0 or
   * 0xffffffff and the depth must lie in 0 to the maximum; the cell must hold
   * a sub key list, whose elements are then gathered.
   */
  function SubKeysList(h: HiveBinsList, offset: u32, depth: int): (r: Result<SubKeys>)
    ensures depth < 0 || depth > MAXIMUM_SUB_KEY_RECURSION_DEPTH ==> r.Err?
    ensures r.Ok? ==> AllInBins(h.bins, r.value.descriptors)
    decreases MAXIMUM_SUB_KEY_RECURSION_DEPTH + 1 - depth, 1
  {
    if offset == 0 || offset == NO_OFFSET then Err
    else if depth < 0 || depth > MAXIMUM_SUB_KEY_RECURSION_DEPTH then Err
    else match CellAt(h, offset)
      case Err => Err
      case Ok(cell) =>
        match SKL.ParseSubKeyList(h.version, cell)
        case ListParsed(leaf, elements) => GatherFrom(h, elements, 0, leaf, depth, SubKeys([], false))
        case _ => Err
  }

  /**
   * The element loop, from element `i`, having gathered `acc`: an element in
   * no hive bin is skipped and flags corruption; a leaf element is taken
   * over; an index-root element is read as a sub keys list one level deeper,
   * whose error is the whole list's error. Nothing whose offset lies in no
   * hive bin is handed on, however deep the index roots go.
   */
  function GatherFrom(h: HiveBinsList, elements: seq<SKL.KeyDescriptor>, i: nat, leaf: bool, depth: int, acc: SubKeys): (r: Result<SubKeys>)
    requires 0 <= depth <= MAXIMUM_SUB_KEY_RECURSION_DEPTH
    ensures r.Ok? && AllInBins(h.bins, acc.descriptors) ==> AllInBins(h.bins, r.value.descriptors)
    ensures r.Ok? && acc.corrupted ==> r.value.corrupted
    decreases MAXIMUM_SUB_KEY_RECURSION_DEPTH + 1 - depth, 0, |elements| - i
  {
    if i >= |elements| then Ok(acc)
    else
      var d := elements[i];
      if !InBins(h.bins, d.keyOffset) then
        GatherFrom(h, elements, i + 1, leaf, depth, SubKeys(acc.descriptors, true))
      else if leaf then
        AllInBinsAppend(h.bins, acc.descriptors, [d]);
        GatherFrom(h, elements, i + 1, leaf, depth, SubKeys(acc.descriptors + [d], acc.corrupted))
      else
        match SubKeysList(h, d.keyOffset, depth + 1)
        case Err => Err
        case Ok(child) =>
          AllInBinsAppend(h.bins, acc.descriptors, child.descriptors);
          GatherFrom(h, elements, i + 1, leaf, depth, SubKeys(acc.descriptors + child.descriptors, acc.corrupted || child.corrupted))
  }

  /** Every offset lies in a hive bin. */
  predicate OffsetsInBins(bins: seq<BinRange>, offsets: seq<u32>) {
    forall k :: 0 <= k < |offsets| ==> InBins(bins, offsets[k])
  }

  /** Every descriptor's key offset lies in a hive bin. */
  predicate AllInBins(bins: seq<BinRange>, ds: seq<SKL.KeyDescriptor>) {
    forall k :: 0 <= k < |ds| ==> InBins(bins, ds[k].keyOffset)
  }

  lemma AllInBinsAppend(bins: seq<BinRange>, a: seq<SKL.KeyDescriptor>, b: seq<SKL.KeyDescriptor>)
    ensures AllInBins(bins, a) && AllInBins(bins, b) ==> AllInBins(bins, a + b)
  {
    if AllInBins(bins, a) && AllInBins(bins, b) {
      forall k | 0 <= k < |a + b|
        ensures InBins(bins, (a + b)[k].keyOffset)
      {
        if k >= |a| {
          assert (a + b)[k] == b[k - |a|];
        }
      }
    }
  }

  /** A leaf list whose elements all lie in hive bins yields them all, in order, uncorrupted. */
  lemma {:induction false} LeafGathersAll(h: HiveBinsList, elements: seq<SKL.KeyDescriptor>, i: nat, depth: int, acc: SubKeys)
    requires 0 <= depth <= MAXIMUM_SUB_KEY_RECURSION_DEPTH && i <= |elements|
    requires forall k :: i <= k < |elements| ==> InBins(h.bins, elements[k].keyOffset)
    ensures GatherFrom(h, elements, i, true, depth, acc) == Ok(SubKeys(acc.descriptors + elements[i..], acc.corrupted))
    decreases |elements| - i
  {
    if i < |elements| {
      var next := SubKeys(acc.descriptors + [elements[i]], acc.corrupted);
      assert GatherFrom(h, elements, i, true, depth, acc) == GatherFrom(h, elements, i + 1, true, depth, next);
      LeafGathersAll(h, elements, i + 1, depth, next);
      assert elements[i..] == [elements[i]] + elements[i + 1..];
      assert next.descriptors + elements[i + 1..] == acc.descriptors + elements[i..];
    } else {
      assert acc.descriptors + elements[i..] == acc.descriptors;
    }
  }

  /** Index-root lists nested deeper than the maximum depth are an error. */
  lemma TooDeepIsError(h: HiveBinsList, offset: u32, depth: int)
    requires depth > MAXIMUM_SUB_KEY_RECURSION_DEPTH
    ensures SubKeysList(h, offset, depth) == Err
  {
  }

  // ------------------------------------------------------------- whole item

  /** The class name and security descriptor of a key. */
  datatype Header = Header(className: Option<seq<u8>>, securityDescriptor: Option<seq<u8>>)

  /** The class name, then the security key unless its offset is 0xffffffff. */
  function ReadHeaderOf(h: HiveBinsList, f: NK.Fields): Result<Header> {
    match ClassName(h, f.classNameOffset, f.classNameSize)
    case Err => Err
    case Ok(className) =>
      if f.securityKeyOffset == NO_OFFSET then Ok(Header(className, None))
      else match SecurityDescriptorAt(h, f.securityKeyOffset)
        case Err => Err
        case Ok(descriptor) => Ok(Header(className, descriptor))
  }

  /** The sub key descriptors and value offsets of a key, and whether corruption was met. */
  datatype Lists = Lists(subKeys: seq<SKL.KeyDescriptor>, values: seq<u32>, corrupted: bool)

  /**
   * The sub keys list when the key has sub keys (a corrupt list flags the
   * item), then the values list when its offset lies in a hive bin
   * (otherwise the item is flagged corrupted and has no values).
   */
  function ReadListsOf(h: HiveBinsList, f: NK.Fields): Result<Lists> {
    var subKeys :=
      if f.numberOfSubKeys > 0 then SubKeysList(h, f.subKeysListOffset, 0)
      else Ok(SubKeys([], false));
    match subKeys
    case Err => Err
    case Ok(s) =>
      if !InBins(h.bins, f.valuesListOffset) then Ok(Lists(s.descriptors, [], true))
      else match ValuesList(h, f.valuesListOffset, f.numberOfValues)
        case Err => Err
        case Ok(v) => Ok(Lists(s.descriptors, v.offsets, s.corrupted || v.corrupted))
  }

  /** Everything a successful libregf_key_item_read leaves in the item. */
  datatype KeyItemValue = KeyItemValue(key: NamedKeyValue, header: Header, lists: Lists)

  /** libregf_key_item_read: the named key, then its header, then its lists. */
  function ReadKeyItem(h: HiveBinsList, codecs: NK.NameCodecs, keyOffset: u32): (r: Result<KeyItemValue>)
    ensures r.Ok? ==> NamedKeyAt(h, codecs, keyOffset) == Ok(r.value.key)
    ensures r.Ok? ==> AllInBins(h.bins, r.value.lists.subKeys)
    ensures r.Ok? ==> OffsetsInBins(h.bins, r.value.lists.values)
  {
    match NamedKeyAt(h, codecs, keyOffset)
    case Err => Err
    case Ok(k) =>
      match ReadHeaderOf(h, k.fields)
      case Err => Err
      case Ok(header) =>
        match ReadListsOf(h, k.fields)
        case Err => Err
        case Ok(lists) => Ok(KeyItemValue(k, header, lists))
  }

  /** ReadKeyItem fails exactly when one of its three steps does. */
  lemma ReadKeyItemSteps(h: HiveBinsList, codecs: NK.NameCodecs, keyOffset: u32)
    ensures var r := ReadKeyItem(h, codecs, keyOffset);
      && (NamedKeyAt(h, codecs, keyOffset).Err? ==> r.Err?)
      && (NamedKeyAt(h, codecs, keyOffset).Ok? ==>
            var k := NamedKeyAt(h, codecs, keyOffset).value;
            && (ReadHeaderOf(h, k.fields).Err? || ReadListsOf(h, k.fields).Err? ==> r.Err?)
            && (ReadHeaderOf(h, k.fields).Ok? && ReadListsOf(h, k.fields).Ok? ==>
                  r == Ok(KeyItemValue(k, ReadHeaderOf(h, k.fields).value, ReadListsOf(h, k.fields).value))))
  {
  }

  /**
   * A key whose values-list offset lies in no hive bin is read, flagged
   * corrupted and given no values, even when it declares none.
   */
  lemma ValuesListOutsideBinsIsCorrupt(h: HiveBinsList, codecs: NK.NameCodecs, keyOffset: u32)
    requires NamedKeyAt(h, codecs, keyOffset).Ok?
    requires !InBins(h.bins, NamedKeyAt(h, codecs, keyOffset).value.fields.valuesListOffset)
    ensures ReadKeyItem(h, codecs, keyOffset).Ok? ==>
      ReadKeyItem(h, codecs, keyOffset).value.lists.corrupted && ReadKeyItem(h, codecs, keyOffset).value.lists.values == []
  {
  }

  /** The first descriptor, from index `i`, whose key's name matches the query. */
  function FindSubKey<Q>(h: HiveBinsList, codecs: NK.NameCodecs, descriptors: seq<SKL.KeyDescriptor>, i: nat,
                         nameHash: u32, query: seq<Q>, queryDec: Decoder<Q>): (r: Outcome<SKL.KeyDescriptor>)
    ensures r.Found? ==> i < |descriptors| && r.value in descriptors[i..]
    decreases |descriptors| - i
  {
    if i >= |descriptors| then NotFound
    else match DescriptorMatches(h, codecs, descriptors[i], nameHash, query, queryDec)
      case Err => Error
      case Ok(true) => Found(descriptors[i])
      case Ok(false) => FindSubKey(h, codecs, descriptors, i + 1, nameHash, query, queryDec)
  }

  /**
   * Lookup by name returns the first matching descriptor: every one before
   * it was read and did not match.
   */
  lemma {:induction false} FindSubKeyIsFirstMatch<Q>(h: HiveBinsList, codecs: NK.NameCodecs, descriptors: seq<SKL.KeyDescriptor>,
                                                      i: nat, nameHash: u32, query: seq<Q>, queryDec: Decoder<Q>)
    requires FindSubKey(h, codecs, descriptors, i, nameHash, query, queryDec).Found?
    ensures exists j :: (i <= j < |descriptors|
      && descriptors[j] == FindSubKey(h, codecs, descriptors, i, nameHash, query, queryDec).value
      && DescriptorMatches(h, codecs, descriptors[j], nameHash, query, queryDec) == Ok(true)
      && forall k :: i <= k < j ==> DescriptorMatches(h, codecs, descriptors[k], nameHash, query, queryDec) == Ok(false))
    decreases |descriptors| - i
  {
    var m := DescriptorMatches(h, codecs, descriptors[i], nameHash, query, queryDec);
    if m == Ok(true) {
      assert descriptors[i] == FindSubKey(h, codecs, descriptors, i, nameHash, query, queryDec).value;
    } else {
      assert FindSubKey(h, codecs, descriptors, i, nameHash, query, queryDec)
          == FindSubKey(h, codecs, descriptors, i + 1, nameHash, query, queryDec);
      FindSubKeyIsFirstMatch(h, codecs, descriptors, i + 1, nameHash, query, queryDec);
      var j :| i + 1 <= j < |descriptors|
        && descriptors[j] == FindSubKey(h, codecs, descriptors, i + 1, nameHash, query, queryDec).value
        && DescriptorMatches(h, codecs, descriptors[j], nameHash, query, queryDec) == Ok(true)
        && forall k :: i + 1 <= k < j ==> DescriptorMatches(h, codecs, descriptors[k], nameHash, query, queryDec) == Ok(false);
      assert forall k :: i <= k < j ==> DescriptorMatches(h, codecs, descriptors[k], nameHash, query, queryDec) == Ok(false);
    }
  }

  /** NotFound means every descriptor from `i` was read and none matched. */
  lemma {:induction false} FindSubKeyNotFound<Q>(h: HiveBinsList, codecs: NK.NameCodecs, descriptors: seq<SKL.KeyDescriptor>,
                                                  i: nat, nameHash: u32, query: seq<Q>, queryDec: Decoder<Q>)
    requires FindSubKey(h, codecs, descriptors, i, nameHash, query, queryDec).NotFound?
    ensures forall k :: i <= k < |descriptors| ==> DescriptorMatches(h, codecs, descriptors[k], nameHash, query, queryDec) == Ok(false)
    decreases |descriptors| - i
  {
    if i < |descriptors| {
      FindSubKeyNotFound(h, codecs, descriptors, i + 1, nameHash, query, queryDec);
    }
  }

  class KeyItem {
    var namedKey: NK.NamedKey?
    var className: Option<seq<u8>>
    var securityDescriptor: Option<seq<u8>>
    /** The offsets of the values, in list order. */
    var values: seq<u32>
    var subKeyDescriptors: seq<SKL.KeyDescriptor>
    var itemFlags: u8

    /** An item without a named key holds nothing else: it is new, or its read failed. */
    ghost predicate Valid()
      reads this
    {
      namedKey == null ==> className.None? && securityDescriptor.None? && values == [] && subKeyDescriptors == []
    }

    /** libregf_key_item_initialize */
    constructor ()
      ensures Valid() && namedKey == null && itemFlags == 0
    {
      namedKey := null;
      className := None;
      securityDescriptor := None;
      values := [];
      subKeyDescriptors := [];
      itemFlags := 0;
    }

    /**
     * libregf_key_item_read. An item that already has a named key is
     * refused. On failure everything read so far is released.
     */
    method Read(h: HiveBinsList, codecs: NK.NameCodecs, keyOffset: u32) returns (success: bool)
      requires Valid()
      modifies this
      ensures Valid()
      ensures old(namedKey) != null ==> !success && unchanged(this)
      ensures old(namedKey) == null ==> match ReadKeyItem(h, codecs, keyOffset)
        case Err => !success && namedKey == null
        case Ok(v) =>
          && success && namedKey != null && fresh(namedKey)
          && namedKey.CurrentFields() == v.key.fields && namedKey.name == Some(v.key.name)
          && namedKey.nameHash == v.key.nameHash
          && className == v.header.className && securityDescriptor == v.header.securityDescriptor
          && subKeyDescriptors == v.lists.subKeys && values == v.lists.values
          && itemFlags == (if v.lists.corrupted then MarkCorrupted(old(itemFlags)) else old(itemFlags))
    {
      if namedKey != null {
        return false;
      }
      ReadKeyItemSteps(h, codecs, keyOffset);
      var key := new NK.NamedKey();
      var ok := ReadNamedKey(h, codecs, keyOffset, key);
      if !ok {
        return false;
      }
      var header := ReadHeader(h, key.CurrentFields());
      if header.Err? {
        return false;
      }
      ok := ReadLists(h, key.CurrentFields());
      if !ok {
        return false;
      }
      namedKey := key;
      className := header.value.className;
      securityDescriptor := header.value.securityDescriptor;
      return true;
    }

    /** The class name and security key steps of libregf_key_item_read. */
    static method ReadHeader(h: HiveBinsList, f: NK.Fields) returns (r: Result<Header>)
      ensures r == ReadHeaderOf(h, f)
    {
      var className := ReadClassName(h, f.classNameOffset, f.classNameSize);
      if className.Err? {
        return Err;
      }
      if f.securityKeyOffset == NO_OFFSET {
        return Ok(Header(className.value, None));
      }
      var descriptor := ReadSecurityKey(h, f.securityKeyOffset);
      if descriptor.Err? {
        return Err;
      }
      return Ok(Header(className.value, descriptor.value));
    }

    /**
     * The sub keys and values steps of libregf_key_item_read. On failure the
     * descriptors are emptied; the corrupted flag may already be set.
     */
    method ReadLists(h: HiveBinsList, f: NK.Fields) returns (success: bool)
      requires subKeyDescriptors == [] && values == []
      modifies this`subKeyDescriptors, this`values, this`itemFlags
      ensures match ReadListsOf(h, f)
        case Err => !success && subKeyDescriptors == [] && values == []
        case Ok(l) =>
          && success && subKeyDescriptors == l.subKeys && values == l.values
          && itemFlags == (if l.corrupted then MarkCorrupted(old(itemFlags)) else old(itemFlags))
    {
      if f.numberOfSubKeys > 0 {
        var status := ReadSubKeysList(h, f.subKeysListOffset, 0);
        if status == Failure {
          return false;
        }
        if status == Absent {
          itemFlags := MarkCorrupted(itemFlags);
        }
      }
      if !InBins(h.bins, f.valuesListOffset) {
        itemFlags := MarkCorrupted(itemFlags);
        return true;
      }
      var list := ReadValuesList(h, f.valuesListOffset, f.numberOfValues);
      if list.Err? {
        subKeyDescriptors := [];
        return false;
      }
      values := list.value.offsets;
      if list.value.corrupted {
        itemFlags := MarkCorrupted(itemFlags);
      }
      return true;
    }

    /** libregf_key_item_read_named_key into a fresh named key. */
    static method ReadNamedKey(h: HiveBinsList, codecs: NK.NameCodecs, offset: u32, key: NK.NamedKey) returns (success: bool)
      requires key.Valid() && key.name.None?
      modifies key
      ensures success <==> NamedKeyAt(h, codecs, offset).Ok?
      ensures success ==>
        var v := NamedKeyAt(h, codecs, offset).value;
        key.Valid() && key.CurrentFields() == v.fields && key.name == Some(v.name) && key.nameHash == v.nameHash
    {
      if offset == 0 || offset == NO_OFFSET {
        return false;
      }
      var cell := CellAt(h, offset);
      if cell.Err? {
        return false;
      }
      success := key.ReadData(h.version, cell.value, codecs);
    }

    /** libregf_key_item_read_class_name on an item without a class name. */
    static method ReadClassName(h: HiveBinsList, offset: u32, size: u16) returns (r: Result<Option<seq<u8>>>)
      ensures r == ClassName(h, offset, size)
    {
      if offset == NO_OFFSET {
        return Ok(None);
      }
      if offset == 0 && size == 0 {
        return Ok(None);
      }
      if offset == 0 {
        return Err;
      }
      var cell := CellAt(h, offset);
      if cell.Err? {
        return Err;
      }
      var data := cell.value;
      if |data| > SSIZE_MAX || size == 0 || size > |data| {
        return Err;
      }
      return Ok(Some(data[..size]));
    }

    /** libregf_key_item_read_security_key on an item without a descriptor. */
    static method ReadSecurityKey(h: HiveBinsList, offset: u32) returns (r: Result<Option<seq<u8>>>)
      ensures r == SecurityDescriptorAt(h, offset)
    {
      if offset == 0 || offset == NO_OFFSET {
        return Err;
      }
      var cell := CellAt(h, offset);
      if cell.Err? {
        return Err;
      }
      var key := SK.ReadData(SK.SecurityKey(None), cell.value);
      if key.Err? {
        return Err;
      }
      return Ok(key.value.descriptor);
    }

    /** libregf_key_item_read_values_list, gathering into a fresh list. */
    static method ReadValuesList(h: HiveBinsList, offset: u32, numberOfElements: u32) returns (r: Result<ValueOffsets>)
      ensures r == ValuesList(h, offset, numberOfElements)
    {
      if numberOfElements == 0 {
        return Ok(ValueOffsets([], false));
      }
      if offset == 0 || offset == NO_OFFSET {
        return Err;
      }
      var cell := CellAt(h, offset);
      if cell.Err? {
        return Err;
      }
      var data := cell.value;
      var dataOffset := RecordStart(h.version);
      if dataOffset > |data| || numberOfElements > (|data| - dataOffset) / 4 {
        return Err;
      }
      var elements := KeepElements(h, data, dataOffset, numberOfElements);
      return Ok(elements);
    }

    /** The element loop of libregf_key_item_read_values_list. */
    static method KeepElements(h: HiveBinsList, data: seq<u8>, start: nat, numberOfElements: u32) returns (r: ValueOffsets)
      requires start + 4 * numberOfElements <= |data|
      ensures r == KeepInBins(h.bins, ElementOffsets(data, start, numberOfElements))
    {
      var dataOffset := start;
      var kept: seq<u32> := [];
      var corrupted := false;
      var index := 0;
      while index < numberOfElements
        invariant index <= numberOfElements && dataOffset == start + 4 * index
        invariant ValueOffsets(kept, corrupted) == KeepInBins(h.bins, ElementOffsets(data, start, index))
      {
        var elementOffset := U32At(data, dataOffset);
        dataOffset := dataOffset + 4;
        ghost var before := ElementOffsets(data, start, index);
        assert ElementOffsets(data, start, index + 1)[..index] == before;
        if !InBins(h.bins, elementOffset) {
          corrupted := true;
        } else {
          kept := kept + [elementOffset];
        }
        index := index + 1;
      }
      return ValueOffsets(kept, corrupted);
    }

    /**
     * libregf_key_item_read_sub_keys_list: appends the gathered descriptors.
     * Returns Absent (0) when corruption was met, Failure (-1) on error. A
     * refused offset or depth returns before touching the descriptors; any
     * later error empties them.
     */
    method ReadSubKeysList(h: HiveBinsList, offset: u32, depth: int) returns (status: Status)
      modifies this`subKeyDescriptors
      ensures match SubKeysList(h, offset, depth)
        case Err =>
          && status == Failure
          && subKeyDescriptors == (if ArgumentsRefused(offset, depth) then old(subKeyDescriptors) else [])
        case Ok(s) =>
          && status == (if s.corrupted then Absent else Success)
          && subKeyDescriptors == old(subKeyDescriptors) + s.descriptors
      decreases MAXIMUM_SUB_KEY_RECURSION_DEPTH + 1 - depth, 1
    {
      if ArgumentsRefused(offset, depth) {
        return Failure;
      }
      var cell := CellAt(h, offset);
      if cell.Err? {
        subKeyDescriptors := [];
        return Failure;
      }
      var list := new SKL.SubKeyList();
      var ok := list.ReadData(h.version, cell.value);
      if !ok {
        subKeyDescriptors := [];
        return Failure;
      }
      var elements := list.descriptors;
      var leaf := list.atLeafLevel;
      assert SKL.ParseSubKeyList(h.version, cell.value) == SKL.ListParsed(leaf, elements);
      assert SubKeysList(h, offset, depth) == GatherFrom(h, elements, 0, leaf, depth, SubKeys([], false));
      status := GatherElements(h, elements, leaf, depth);
    }

    /** The argument checks of libregf_key_item_read_sub_keys_list, which return before its on_error. */
    static predicate ArgumentsRefused(offset: u32, depth: int)
    {
      offset == 0 || offset == NO_OFFSET || depth < 0 || depth > MAXIMUM_SUB_KEY_RECURSION_DEPTH
    }

    /** The element loop of libregf_key_item_read_sub_keys_list. */
    method GatherElements(h: HiveBinsList, elements: seq<SKL.KeyDescriptor>, leaf: bool, depth: int) returns (status: Status)
      requires 0 <= depth <= MAXIMUM_SUB_KEY_RECURSION_DEPTH
      modifies this`subKeyDescriptors
      ensures match GatherFrom(h, elements, 0, leaf, depth, SubKeys([], false))
        case Err => status == Failure && subKeyDescriptors == []
        case Ok(s) =>
          && status == (if s.corrupted then Absent else Success)
          && subKeyDescriptors == old(subKeyDescriptors) + s.descriptors
      decreases MAXIMUM_SUB_KEY_RECURSION_DEPTH + 1 - depth, 0
    {
      ghost var target := GatherFrom(h, elements, 0, leaf, depth, SubKeys([], false));
      ghost var added: seq<SKL.KeyDescriptor> := [];
      var corruptionDetected := false;
      var index := 0;
      while index < |elements|
        invariant index <= |elements|
        invariant subKeyDescriptors == old(subKeyDescriptors) + added
        invariant GatherFrom(h, elements, index, leaf, depth, SubKeys(added, corruptionDetected)) == target
      {
        var d := elements[index];
        if !InBins(h.bins, d.keyOffset) {
          corruptionDetected := true;
        } else if leaf {
          subKeyDescriptors := subKeyDescriptors + [d];
          added := added + [d];
        } else {
          var result := ReadSubKeysList(h, d.keyOffset, depth + 1);
          if result == Failure {
            subKeyDescriptors := [];
            return Failure;
          }
          added := added + SubKeysList(h, d.keyOffset, depth + 1).value.descriptors;
          if result == Absent {
            corruptionDetected := true;
          }
        }
        index := index + 1;
      }
      return if corruptionDetected then Absent else Success;
    }

    /** libregf_key_item_is_corrupted */
    function IsCorrupted(): bool
      reads this
    {
      HasFlag(itemFlags, ITEM_FLAG_IS_CORRUPTED)
    }

    /** libregf_key_item_get_class_name_size: 0 (Absent) when there is no class name. */
    method GetClassNameSize() returns (r: Outcome<nat>)
      ensures r.NotFound? <==> className.None? || className.value == []
      ensures r.Found? ==> className.Some? && r.value == |className.value| > 0
      ensures !r.Error?
    {
      if className.None? || className.value == [] {
        return NotFound;
      }
      return Found(|className.value|);
    }

    /**
     * libregf_key_item_get_class_name: an over-large or too-small
     * destination is an error; otherwise the whole class name is copied.
     */
    method GetClassName(destinationSize: nat) returns (r: Outcome<seq<u8>>)
      ensures destinationSize > SSIZE_MAX ==> r.Error?
      ensures destinationSize <= SSIZE_MAX && (className.None? || className.value == []) ==> r.NotFound?
      ensures r.Found? <==> destinationSize <= SSIZE_MAX && className.Some? && 0 < |className.value| <= destinationSize
      ensures r.Found? ==> r.value == className.value
    {
      if destinationSize > SSIZE_MAX {
        return Error;
      }
      if className.None? || className.value == [] {
        return NotFound;
      }
      if destinationSize < |className.value| {
        return Error;
      }
      return Found(className.value);
    }

    /** libregf_key_item_get_security_descriptor_size: 0 (Absent) when there is none. */
    method GetSecurityDescriptorSize() returns (r: Outcome<nat>)
      ensures r.NotFound? <==> securityDescriptor.None? || securityDescriptor.value == []
      ensures r.Found? ==> securityDescriptor.Some? && r.value == |securityDescriptor.value| > 0
      ensures !r.Error?
    {
      if securityDescriptor.None? || securityDescriptor.value == [] {
        return NotFound;
      }
      return Found(|securityDescriptor.value|);
    }

    /**
     * libregf_key_item_get_security_descriptor: an over-large or too-small
     * destination is an error; otherwise the whole descriptor is copied.
     */
    method GetSecurityDescriptor(destinationSize: nat) returns (r: Outcome<seq<u8>>)
      ensures destinationSize > SSIZE_MAX ==> r.Error?
      ensures destinationSize <= SSIZE_MAX && (securityDescriptor.None? || securityDescriptor.value == []) ==> r.NotFound?
      ensures r.Found? <==> destinationSize <= SSIZE_MAX && securityDescriptor.Some? && 0 < |securityDescriptor.value| <= destinationSize
      ensures r.Found? ==> r.value == securityDescriptor.value
    {
      if destinationSize > SSIZE_MAX {
        return Error;
      }
      if securityDescriptor.None? || securityDescriptor.value == [] {
        return NotFound;
      }
      if destinationSize < |securityDescriptor.value| {
        return Error;
      }
      return Found(securityDescriptor.value);
    }

    /**
     * libregf_key_item_get_sub_key_descriptor_by_utf8_name (and utf16): read
     * the named key of each descriptor in turn and compare its name; the
     * first match is returned, a read or compare error is an error.
     */
    method GetSubKeyDescriptorByName<Q>(h: HiveBinsList, codecs: NK.NameCodecs, nameHash: u32,
                                        query: seq<Q>, queryDec: Decoder<Q>) returns (r: Outcome<SKL.KeyDescriptor>)
      ensures r == FindSubKey(h, codecs, subKeyDescriptors, 0, nameHash, query, queryDec)
    {
      var index := 0;
      while index < |subKeyDescriptors|
        invariant index <= |subKeyDescriptors|
        invariant FindSubKey(h, codecs, subKeyDescriptors, index, nameHash, query, queryDec)
               == FindSubKey(h, codecs, subKeyDescriptors, 0, nameHash, query, queryDec)
      {
        var d := subKeyDescriptors[index];
        var key := new NK.NamedKey();
        var ok := ReadNamedKey(h, codecs, d.keyOffset, key);
        if !ok {
          return Error;
        }
        var result := key.CompareNameWithString(nameHash, query, queryDec, codecs);
        if result.Err? {
          return Error;
        }
        if result.value {
          return Found(d);
        }
        index := index + 1;
      }
      return NotFound;
    }
  }
}
