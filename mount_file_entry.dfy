/**
 * The file entries of the regfmount file system (mount_file_entry.c). A
 * registry key is a directory; so is the "(values)" directory that lists
 * its values; a value and the "(classname)" of a key are regular files
 * whose contents are the value data and the class name.
 *
 * The libregf key and value handles an entry holds are seen through what
 * the libregf API answers about them (RegfKey, RegfValue); a KeyHandle is
 * one handle on a key, so that two entries can be told to share a handle.
 */
module MountFileEntry {
  import opened Common
  import MFS = MountFileSystem

  /** MOUNT_FILE_ENTRY_TYPE_*: Unknown is the unclassified type, which initialize refuses. */
  datatype EntryType = Unknown | ClassName | Key | Value | Values

  /** The data of a value: readable, of known size but unreadable, or failing already on its size. */
  datatype ValueData = Readable(bytes: seq<u8>) | Unreadable(size: nat) | Broken

  /** A value as libregf reports it: its name (None when the name size is 0) and its data. */
  datatype RegfValue = RegfValue(name: Option<seq<nat>>, data: ValueData)

  /**
   * A key as libregf reports it: its name (None when the name size is 0),
   * the FILETIME it was last written, its class name, and its values and
   * sub keys, each of which may fail to open.
   */
  datatype RegfKey = RegfKey(name: Option<seq<nat>>, lastWrittenTime: u64, className: Option<seq<u8>>,
                             values: seq<Result<RegfValue>>, subKeys: seq<Result<RegfKey>>)

  /** A libregf_key_t: one handle on a key. Two handles on one key are distinct objects. */
  class KeyHandle {
    const key: RegfKey

    constructor (key: RegfKey)
      ensures this.key == key
    {
      this.key := key;
    }
  }

  /** libregf_value_get_value_data_size */
  function DataSize(d: ValueData): Result<nat> {
    match d
    case Readable(bytes) => Ok(|bytes|)
    case Unreadable(size) => Ok(size)
    case Broken => Err
  }

  /** libregf_value_get_value_data */
  function DataBytes(d: ValueData): Result<seq<u8>> {
    if d.Readable? then Ok(d.bytes) else Err
  }

  // ---------------------------------------------------------------------
  // Strings
  // ---------------------------------------------------------------------

  function Zeros(n: nat): (r: seq<nat>)
    ensures |r| == n && forall i :: 0 <= i < n ==> r[i] == 0
  {
    if n == 0 then [] else [0] + Zeros(n - 1)
  }

  /**
   * system_string_copy (strncpy): the first n characters of the source up
   * to its first NUL, padded with NULs to n characters.
   */
  function StringCopy(src: seq<nat>, n: nat): (r: seq<nat>)
    requires n <= |src|
  {
    var s := MFS.UpToNul(src[..n]);
    s + Zeros(n - |s|)
  }

  /**
   * A string copy is n characters long and reads, as a C string, as the
   * source's first n characters up to their first NUL.
   */
  lemma StringCopyReads(src: seq<nat>, n: nat)
    requires n <= |src|
    ensures |StringCopy(src, n)| == n
    ensures MFS.UpToNul(StringCopy(src, n)) == MFS.UpToNul(src[..n])
  {
    var s := MFS.UpToNul(src[..n]);
    UpToNulStops(s, Zeros(n - |s|));
  }

  /** The C string of a NUL-free prefix followed by NULs is that prefix. */
  lemma {:induction false} UpToNulStops(s: seq<nat>, t: seq<nat>)
    requires 0 !in s && (t != [] ==> t[0] == 0)
    ensures MFS.UpToNul(s + t) == s
  {
    if s != [] {
      assert (s + t)[1..] == s[1..] + t;
      UpToNulStops(s[1..], t);
    } else {
      assert s + t == t;
    }
  }

  /**
   * Copying a name buffer that holds `f` and a NUL within its first n
   * characters gives `f` padded with NULs.
   */
  lemma StringCopyOfTerminated(src: seq<nat>, n: nat, f: seq<nat>)
    requires |f| <= n <= |src| && src[..|f|] == f && 0 !in f
    requires |f| < n ==> src[|f|] == 0
    ensures StringCopy(src, n) == f + Zeros(n - |f|)
  {
    var p := src[..n];
    if |f| < n {
      assert p == f + p[|f|..];
      UpToNulStops(f, p[|f|..]);
    } else {
      assert p + [] == f;
      UpToNulStops(f, []);
    }
  }

  // ---------------------------------------------------------------------
  // File modes
  // ---------------------------------------------------------------------

  const S_IFDIR: nat := 0x4000
  const S_IFREG: nat := 0x8000

  predicate IsDirectoryType(t: EntryType) {
    t == Key || t == Values
  }

  /** Whether bit `bit` (a power of two) is set in `m`. */
  predicate HasBit(m: nat, bit: nat)
    requires bit > 0
  {
    (m / bit) % 2 == 1
  }

  /**
   * mount_file_entry_get_file_mode: keys and "(values)" are directories
   * S_IFDIR | 0555, the rest regular files S_IFREG | 0444.
   */
  function FileMode(t: EntryType): (m: nat)
    ensures m / 0x1000 == (if IsDirectoryType(t) then 4 else 8)
    ensures HasBit(m, 0x100) && HasBit(m, 0x20) && HasBit(m, 0x4)
    ensures !HasBit(m, 0x80) && !HasBit(m, 0x10) && !HasBit(m, 0x2)
    ensures HasBit(m, 0x40) == HasBit(m, 0x8) == HasBit(m, 0x1) == IsDirectoryType(t)
  {
    if IsDirectoryType(t) then S_IFDIR + 0x16d else S_IFREG + 0x124
  }

  // ---------------------------------------------------------------------
  // Time stamps
  // ---------------------------------------------------------------------

  /** The FILETIME of 1970-01-01 00:00:00 UTC, in 100 ns intervals since 1601. */
  const POSIX_EPOCH_FILETIME: int := 116444736000000000

  const TWO_63: int := 0x8000_0000_0000_0000
  const TWO_64: int := 0x1_0000_0000_0000_0000

  /** (int64_t) of a 64-bit unsigned value. */
  function Signed64(x: u64): int {
    if x < TWO_63 then x else x - TWO_64
  }

  /** (uint64_t) of an integer: two's complement wrap-around. */
  function Unsigned64(x: int): u64 {
    x % TWO_64
  }

  /**
   * The non-Windows conversion of mount_file_entry_get_modification_time:
   * a FILETIME of 0 stays 0; any other becomes the signed nanoseconds
   * since the POSIX epoch, stored as an unsigned 64-bit value.
   */
  function PosixTime(filetime: u64): (r: u64)
    ensures filetime == 0 ==> r == 0
    ensures filetime != 0 ==> (r - (filetime - POSIX_EPOCH_FILETIME) * 100) % TWO_64 == 0
  {
    if filetime == 0 then 0 else Unsigned64((Signed64(filetime) - POSIX_EPOCH_FILETIME) * 100)
  }

  /** FILETIMEs whose POSIX nanosecond time fits a signed 64-bit integer. */
  predicate InPosixRange(filetime: u64) {
    filetime != 0 && -TWO_63 <= (filetime - POSIX_EPOCH_FILETIME) * 100 < TWO_63
  }

  /** The FILETIME of a signed POSIX nanosecond time that is a whole number of 100 ns. */
  function FiletimeOf(nanoseconds: int): int {
    nanoseconds / 100 + POSIX_EPOCH_FILETIME
  }

  /**
   * In range the conversion is exact: the stored time read back as signed
   * is the nanoseconds since the epoch, and it converts back to the FILETIME.
   */
  lemma PosixTimeRoundTrip(filetime: u64)
    requires InPosixRange(filetime)
    ensures Signed64(PosixTime(filetime)) == (filetime - POSIX_EPOCH_FILETIME) * 100
    ensures FiletimeOf(Signed64(PosixTime(filetime))) == filetime
  {
    var ns := (filetime - POSIX_EPOCH_FILETIME) * 100;
    assert filetime < TWO_63;
    if ns < 0 {
      assert Unsigned64(ns) == ns + TWO_64;
    } else {
      assert Unsigned64(ns) == ns;
    }
    assert ns / 100 == filetime - POSIX_EPOCH_FILETIME;
  }

  /** In range the conversion keeps the order of time stamps. */
  lemma PosixTimeMonotonic(f1: u64, f2: u64)
    requires InPosixRange(f1) && InPosixRange(f2) && f1 <= f2
    ensures Signed64(PosixTime(f1)) <= Signed64(PosixTime(f2))
  {
    PosixTimeRoundTrip(f1);
    PosixTimeRoundTrip(f2);
  }

  /**
   * The modification time of an entry: the mount time stamp for an entry
   * without a key, otherwise its key's last written time converted.
   */
  function ModificationTime(mountedTimestamp: u64, key: Option<RegfKey>): (t: u64)
    ensures key.None? ==> t == mountedTimestamp
    ensures key.Some? && key.value.lastWrittenTime == 0 ==> t == 0
    ensures key.Some? && InPosixRange(key.value.lastWrittenTime) ==>
      FiletimeOf(Signed64(t)) == key.value.lastWrittenTime
  {
    if key.None? then mountedTimestamp
    else
      var f := key.value.lastWrittenTime;
      if InPosixRange(f) then PosixTimeRoundTrip(f); PosixTime(f) else PosixTime(f)
  }

  // ---------------------------------------------------------------------
  // File contents
  // ---------------------------------------------------------------------

  /**
   * The size a CLASS_NAME or VALUE entry queries for its contents; every
   * other entry type keeps size 0. A key without a class name has none to
   * size, which the source treats as an error.
   */
  function ContentSize(t: EntryType, key: Option<RegfKey>, value: Option<RegfValue>): Result<nat> {
    match t
    case ClassName =>
      if key.None? || key.value.className.None? then Err else Ok(|key.value.className.value|)
    case Value => if value.None? then Err else DataSize(value.value.data)
    case _ => Ok(0)
  }

  /** The contents a CLASS_NAME or VALUE entry fetches into its cache. */
  function Content(t: EntryType, key: Option<RegfKey>, value: Option<RegfValue>): Result<seq<u8>> {
    match t
    case ClassName =>
      if key.None? || key.value.className.None? then Err else Ok(key.value.className.value)
    case Value => if value.None? then Err else DataBytes(value.value.data)
    case _ => Err
  }

  /** Contents that can be fetched have the size that was queried. */
  lemma ContentHasSize(t: EntryType, key: Option<RegfKey>, value: Option<RegfValue>)
    requires Content(t, key, value).Ok?
    ensures ContentSize(t, key, value) == Ok(|Content(t, key, value).value|)
  {
  }

  function Min(a: int, b: int): int {
    if a <= b then a else b
  }

  /**
   * What a read of `size` bytes at `offset` returns from `data`: the
   * bytes from `offset` on, at most `size` of them, and none at or past
   * the end.
   */
  function Chunk(data: seq<u8>, offset: nat, size: nat): (r: seq<u8>)
    ensures |r| == (if offset < |data| then Min(size, |data| - offset) else 0)
    ensures offset < |data| ==> r == data[offset..offset + |r|]
  {
    if offset < |data| then data[offset..offset + Min(size, |data| - offset)] else []
  }

  /**
   * The copy as mount_file_entry_read_buffer_at_offset writes it: the
   * count is right, but the bytes come from the start of the data.
   */
  function ChunkAsWritten(data: seq<u8>, offset: nat, size: nat): (r: seq<u8>)
    ensures |r| == |Chunk(data, offset, size)|
  {
    if offset < |data| then data[..Min(size, |data| - offset)] else []
  }

  /** Reading from offset 0 is the same either way. */
  lemma ChunkAsWrittenAtStart(data: seq<u8>, size: nat)
    ensures ChunkAsWritten(data, 0, size) == Chunk(data, 0, size)
  {
  }

  /** A class name "ABCD" read 2 bytes at offset 2 gives "AB", not "CD". */
  lemma ChunkAsWrittenRereadsStart()
    ensures ChunkAsWritten([0x41, 0x42, 0x43, 0x44], 2, 2) == [0x41, 0x42]
    ensures Chunk([0x41, 0x42, 0x43, 0x44], 2, 2) == [0x43, 0x44]
  {
    var d: seq<u8> := [0x41, 0x42, 0x43, 0x44];
    assert d[..2] == [0x41, 0x42];
    assert d[2..4] == [0x43, 0x44];
  }

  /**
   * Two reads in sequence, the second at the offset where the first one
   * stopped, return what one read of the combined size returns.
   */
  lemma ChunksConcatenate(data: seq<u8>, offset: nat, size1: nat, size2: nat)
    ensures Chunk(data, offset, size1) + Chunk(data, offset + |Chunk(data, offset, size1)|, size2)
         == Chunk(data, offset, size1 + size2)
  {
    var c1 := Chunk(data, offset, size1);
    if offset < |data| && offset + |c1| < |data| {
      var c2 := Chunk(data, offset + |c1|, size2);
      assert data[offset..offset + |c1|] + data[offset + |c1|..offset + |c1| + |c2|]
          == data[offset..offset + |c1| + |c2|];
    } else if offset < |data| {
      assert c1 + [] == c1;
    }
  }

  /** A read of the whole size from offset 0 returns all of the data. */
  lemma ChunkOfAll(data: seq<u8>, size: nat)
    requires |data| <= size
    ensures Chunk(data, 0, size) == data
  {
    if data != [] {
      assert data[0..|data|] == data;
    }
  }

  /**
   * The result of a read of `bufferSize` bytes at `offset`: only CLASS_NAME
   * and VALUE entries can be read; a buffer size over SSIZE_MAX, a negative
   * offset, a failing size query, contents over SSIZE_MAX or contents that
   * cannot be fetched are errors; contents of size 0 read as nothing.
   */
  function ReadAt(t: EntryType, key: Option<RegfKey>, value: Option<RegfValue>, bufferSize: nat, offset: int): (r: Result<seq<u8>>)
    ensures (t != ClassName && t != Value) || bufferSize > SSIZE_MAX || offset < 0 ==> r.Err?
    ensures r.Ok? ==> |r.value| <= bufferSize
    ensures r.Ok? && r.value != [] ==>
      Content(t, key, value).Ok? && offset + |r.value| <= |Content(t, key, value).value|
      && r.value == Content(t, key, value).value[offset..offset + |r.value|]
  {
    if t != ClassName && t != Value then Err
    else if bufferSize > SSIZE_MAX || offset < 0 then Err
    else match ContentSize(t, key, value)
      case Err => Err
      case Ok(size) =>
        if size == 0 then Ok([])
        else if size > SSIZE_MAX then Err
        else match Content(t, key, value)
          case Err => Err
          case Ok(data) => Ok(Chunk(data, offset, bufferSize))
  }

  /** Reads of a readable entry return its contents piece by piece. */
  lemma ReadsConcatenate(t: EntryType, key: Option<RegfKey>, value: Option<RegfValue>, offset: nat, size1: nat, size2: nat)
    requires size1 + size2 <= SSIZE_MAX
    requires ReadAt(t, key, value, size1 + size2, offset).Ok?
    ensures ReadAt(t, key, value, size1, offset).Ok?
    ensures ReadAt(t, key, value, size2, offset + |ReadAt(t, key, value, size1, offset).value|).Ok?
    ensures ReadAt(t, key, value, size1, offset).value
          + ReadAt(t, key, value, size2, offset + |ReadAt(t, key, value, size1, offset).value|).value
         == ReadAt(t, key, value, size1 + size2, offset).value
  {
    if ContentSize(t, key, value).value != 0 {
      var data := Content(t, key, value).value;
      var c1 := Chunk(data, offset, size1);
      ReadAtIsChunk(t, key, value, size1, offset);
      ReadAtIsChunk(t, key, value, size2, offset + |c1|);
      ReadAtIsChunk(t, key, value, size1 + size2, offset);
      ChunksConcatenate(data, offset, size1, size2);
    }
  }

  /** A read of an entry with contents is the chunk of those contents. */
  lemma ReadAtIsChunk(t: EntryType, key: Option<RegfKey>, value: Option<RegfValue>, bufferSize: nat, offset: nat)
    requires (t == ClassName || t == Value) && bufferSize <= SSIZE_MAX
    requires ContentSize(t, key, value).Ok? && 0 < ContentSize(t, key, value).value <= SSIZE_MAX
    requires Content(t, key, value).Ok?
    ensures ReadAt(t, key, value, bufferSize, offset) == Ok(Chunk(Content(t, key, value).value, offset, bufferSize))
  {
  }

  /** A read of a readable entry from offset 0 with a large enough buffer returns its whole contents. */
  lemma ReadAllIsContent(t: EntryType, key: Option<RegfKey>, value: Option<RegfValue>, bufferSize: nat)
    requires Content(t, key, value).Ok? && |Content(t, key, value).value| <= bufferSize <= SSIZE_MAX
    ensures ReadAt(t, key, value, bufferSize, 0) == Content(t, key, value)
  {
    var data := Content(t, key, value).value;
    if data != [] {
      ChunkOfAll(data, bufferSize);
    }
  }

  // ---------------------------------------------------------------------
  // Sub entries
  // ---------------------------------------------------------------------

  /** "(values)" and "(classname)", the names of the two synthetic sub entries of a key. */
  const VALUES_NAME: seq<nat> := [0x28, 0x76, 0x61, 0x6c, 0x75, 0x65, 0x73, 0x29]
  const CLASS_NAME_NAME: seq<nat> := [0x28, 0x63, 0x6c, 0x61, 0x73, 0x73, 0x6e, 0x61, 0x6d, 0x65, 0x29]

  /** The position of a sub entry of a key directory. */
  datatype Slot = SubKeySlot(index: nat) | ValuesSlot | ClassNameSlot

  function Flag(b: bool): nat {
    if b then 1 else 0
  }

  /** The number of sub entries of a key directory: its sub keys, "(values)" and "(classname)". */
  function KeySlotCount(subKeys: nat, hasValues: bool, hasClassName: bool): nat {
    subKeys + Flag(hasValues) + Flag(hasClassName)
  }

  /**
   * The index map of a key directory: the sub keys first, then "(values)"
   * when the key has values, then "(classname)" when it has a class name.
   */
  function KeySlot(subKeys: nat, hasValues: bool, hasClassName: bool, i: nat): Option<Slot> {
    if i < subKeys then Some(SubKeySlot(i))
    else if hasValues && i == subKeys then Some(ValuesSlot)
    else if hasClassName && i == subKeys + Flag(hasValues) then Some(ClassNameSlot)
    else None
  }

  /** The index map is a one-to-one map from [0, count) onto the slots the key has. */
  lemma KeySlotsEnumerate(subKeys: nat, hasValues: bool, hasClassName: bool)
    ensures forall i: nat :: KeySlot(subKeys, hasValues, hasClassName, i).Some? <==> i < KeySlotCount(subKeys, hasValues, hasClassName)
    ensures forall i: nat, j: nat ::
      (KeySlot(subKeys, hasValues, hasClassName, i).Some? &&
       KeySlot(subKeys, hasValues, hasClassName, i) == KeySlot(subKeys, hasValues, hasClassName, j)) ==> i == j
    ensures forall k: nat :: k < subKeys ==> KeySlot(subKeys, hasValues, hasClassName, k) == Some(SubKeySlot(k))
    ensures hasValues ==> KeySlot(subKeys, hasValues, hasClassName, subKeys) == Some(ValuesSlot)
    ensures hasClassName ==> KeySlot(subKeys, hasValues, hasClassName, subKeys + Flag(hasValues)) == Some(ClassNameSlot)
  {
  }

  /**
   * mount_file_entry_get_number_of_sub_file_entries: none for files, the
   * values of the key for "(values)", and the slots of the key for a key.
   */
  function NumberOfSubEntries(t: EntryType, key: Option<RegfKey>): (r: Result<nat>)
    ensures (t == ClassName || t == Value) ==> r == Ok(0)
    ensures t == Values ==> (r.Ok? <==> key.Some?) && (r.Ok? ==> r.value == |key.value.values|)
  {
    if t == ClassName || t == Value then Ok(0)
    else if key.None? then Err
    else if t == Values then Ok(|key.value.values|)
    else Ok(KeySlotCount(|key.value.subKeys|, |key.value.values| > 0, key.value.className.Some?))
  }

  /** Where a sub entry's key handle comes from: none, a new handle on a sub key, or its parent's own handle. */
  datatype KeySource = NoKey | OwnHandle(key: RegfKey) | ParentHandle

  /** The entry mount_file_entry_get_sub_file_entry_by_index initializes. */
  datatype SubEntry = SubEntry(name: seq<nat>, entryType: EntryType, keySource: KeySource, value: Option<RegfValue>)

  /**
   * The name a sub entry stores: the file name buffer of 4 * n + 1
   * characters for a name of n characters is copied with the length
   * 4 * n, so the file name is kept padded with NULs.
   */
  function StoredFilename(f: seq<nat>, nameLength: nat): seq<nat>
    requires |f| <= 4 * nameLength
  {
    f + Zeros(4 * nameLength - |f|)
  }

  /** The name of the value a VALUE sub entry is named after: the default value is "(default)". */
  function ValueNameOrDefault(name: Option<seq<nat>>): seq<nat> {
    if name.None? then MFS.DEFAULT_VALUE_NAME else name.value
  }

  /**
   * mount_file_entry_get_sub_file_entry_by_index for an entry of type
   * `t` on `key`: a negative index or a file is an error; in "(values)"
   * index i is value i of the key; in a key it is the slot at i.
   */
  function SubEntryOf(t: EntryType, key: Option<RegfKey>, index: int): (r: Result<SubEntry>)
    ensures index < 0 || key.None? || (t != Key && t != Values) ==> r.Err?
    ensures r.Ok? && t == Values ==>
      index < |key.value.values| && key.value.values[index].Ok?
      && r.value.entryType == Value && r.value.value == Some(key.value.values[index].value)
    ensures r.Ok? && t == Key && index < |key.value.subKeys| ==>
      key.value.subKeys[index].Ok?
      && r.value.entryType == Key && r.value.keySource == OwnHandle(key.value.subKeys[index].value)
    ensures r.Ok? && t == Key && index >= |key.value.subKeys| ==>
      r.value.entryType in {Values, ClassName} && r.value.keySource == ParentHandle
  {
    if index < 0 || (t != Key && t != Values) || key.None? then Err
    else if t == Values then
      if index >= |key.value.values| then Err
      else match key.value.values[index]
        case Err => Err
        case Ok(v) =>
          match MFS.FilenameFromValueName(v.name)
          case Err => Err
          case Ok(f) => Ok(SubEntry(StoredFilename(f, |ValueNameOrDefault(v.name)|), Value, NoKey, Some(v)))
    else match KeySlot(|key.value.subKeys|, |key.value.values| > 0, key.value.className.Some?, index)
      case None => Err
      case Some(ValuesSlot) => Ok(SubEntry(VALUES_NAME, Values, ParentHandle, None))
      case Some(ClassNameSlot) => Ok(SubEntry(CLASS_NAME_NAME, ClassName, ParentHandle, None))
      case Some(SubKeySlot(i)) =>
        match key.value.subKeys[i]
        case Err => Err
        case Ok(k) =>
          match MFS.FilenameFromKeyName(k.name)
          case Err => Err
          case Ok(f) => Ok(SubEntry(StoredFilename(f, |k.name.value|), Key, OwnHandle(k), None))
  }

  /**
   * Every sub entry lies within the count of sub entries; in a key
   * directory every index past the sub keys and within the count is
   * "(values)" or "(classname)", which always exist.
   */
  lemma SubEntriesWithinCount(t: EntryType, key: Option<RegfKey>, index: int)
    ensures SubEntryOf(t, key, index).Ok? ==> NumberOfSubEntries(t, key).Ok? && index < NumberOfSubEntries(t, key).value
    ensures t == Key && key.Some? && |key.value.subKeys| <= index < NumberOfSubEntries(t, key).value ==>
      SubEntryOf(t, key, index).Ok? && SubEntryOf(t, key, index).value.keySource == ParentHandle
  {
    if t == Key && key.Some? {
      KeySlotsEnumerate(|key.value.subKeys|, |key.value.values| > 0, key.value.className.Some?);
    }
  }

  /**
   * A sub entry reads, as a C string, as the file name of the value or sub
   * key it stands for.
   */
  lemma SubEntryNameIsFilename(t: EntryType, key: Option<RegfKey>, index: int)
    requires SubEntryOf(t, key, index).Ok? && SubEntryOf(t, key, index).value.entryType != Values
    requires SubEntryOf(t, key, index).value.entryType != ClassName
    ensures var e := SubEntryOf(t, key, index).value;
      e.entryType == Value ==> MFS.UpToNul(e.name) == MFS.FilenameFromValueName(e.value.value.name).value
    ensures var e := SubEntryOf(t, key, index).value;
      e.entryType == Key ==> MFS.UpToNul(e.name) == MFS.FilenameFromKeyName(e.keySource.key.name).value
  {
    var e := SubEntryOf(t, key, index).value;
    var f := if e.entryType == Value then MFS.FilenameFromValueName(e.value.value.name).value
      else MFS.FilenameFromKeyName(e.keySource.key.name).value;
    FilenameHasNoNul(if e.entryType == Value then ValueNameOrDefault(e.value.value.name) else e.keySource.key.name.value);
    var z := Zeros(|e.name| - |f|);
    assert z != [] ==> z[0] == 0;
    UpToNulStops(f, z);
  }

  /** A file name holds no NUL. */
  lemma {:induction false} FilenameHasNoNul(name: seq<nat>)
    ensures 0 !in MFS.FilenameOf(name)
  {
    if name != [] && name[0] != 0 {
      FilenameHasNoNul(name[1..]);
    }
  }

  /**
   * A key with values and a sub key named "(values)" lists two sub entries
   * of that name: the sub key's and the synthetic one.
   */
  lemma SubKeyNamedValuesCollides(key: RegfKey, i: nat)
    requires i < |key.subKeys| && key.subKeys[i] == Ok(RegfKey(Some(VALUES_NAME), 0, None, [], []))
    requires |key.values| > 0
    ensures SubEntryOf(Key, Some(key), i).Ok? && SubEntryOf(Key, Some(key), |key.subKeys|).Ok?
    ensures MFS.UpToNul(SubEntryOf(Key, Some(key), i).value.name) == VALUES_NAME
    ensures MFS.UpToNul(SubEntryOf(Key, Some(key), |key.subKeys|).value.name) == VALUES_NAME
  {
    SubKeyEntryNamedValues(key, i);
    ValuesEntryName(key);
  }

  /** The sub entry of a sub key named "(values)" is named "(values)". */
  lemma SubKeyEntryNamedValues(key: RegfKey, i: nat)
    requires i < |key.subKeys| && key.subKeys[i] == Ok(RegfKey(Some(VALUES_NAME), 0, None, [], []))
    ensures SubEntryOf(Key, Some(key), i).Ok?
    ensures MFS.UpToNul(SubEntryOf(Key, Some(key), i).value.name) == VALUES_NAME
  {
    ValuesNameIsOwnFilename();
    assert KeySlot(|key.subKeys|, |key.values| > 0, key.className.Some?, i) == Some(SubKeySlot(i));
    assert MFS.FilenameFromKeyName(Some(VALUES_NAME)) == Ok(VALUES_NAME);
    SubEntryNameIsFilename(Key, Some(key), i);
  }

  /** The synthetic sub entry of a key with values is named "(values)". */
  lemma ValuesEntryName(key: RegfKey)
    requires |key.values| > 0
    ensures SubEntryOf(Key, Some(key), |key.subKeys|).Ok?
    ensures MFS.UpToNul(SubEntryOf(Key, Some(key), |key.subKeys|).value.name) == VALUES_NAME
  {
    assert KeySlot(|key.subKeys|, true, key.className.Some?, |key.subKeys|) == Some(ValuesSlot);
    assert SubEntryOf(Key, Some(key), |key.subKeys|).value.name == VALUES_NAME;
    ValuesNameIsOwnFilename();
  }

  /** "(values)" needs no escaping: it is its own file name. */
  lemma ValuesNameIsOwnFilename()
    ensures MFS.FilenameOf(VALUES_NAME) == VALUES_NAME && MFS.UpToNul(VALUES_NAME) == VALUES_NAME
  {
    forall j | 0 <= j < |VALUES_NAME|
      ensures VALUES_NAME[j] != 0 && VALUES_NAME[j] != MFS.ESCAPE && !MFS.IsEscapedByValue(VALUES_NAME[j])
    {
    }
    MFS.NoEscapeFilename(VALUES_NAME);
    MFS.UpToNulOfNulFree(VALUES_NAME);
  }

  /**
   * mount_file_entry_free releases the key handle of KEY and VALUES
   * entries; CLASS_NAME and VALUE entries are taken to borrow theirs.
   */
  predicate ReleasesKeyOnFree(t: EntryType) {
    t != ClassName && t != Value
  }

  /**
   * The "(values)" sub entry of a key holds its parent's own handle, and
   * freeing a VALUES entry releases its handle: freeing that sub entry
   * releases the handle its parent still holds.
   */
  lemma ValuesSubEntrySharesParentHandle(key: RegfKey)
    requires |key.values| > 0
    ensures SubEntryOf(Key, Some(key), |key.subKeys|) == Ok(SubEntry(VALUES_NAME, Values, ParentHandle, None))
    ensures ReleasesKeyOnFree(Values)
  {
  }

  // ---------------------------------------------------------------------
  // The file entry
  // ---------------------------------------------------------------------

  function KeyOf(h: KeyHandle?): Option<RegfKey> {
    if h == null then None else Some(h.key)
  }

  /** mount_file_entry_t */
  class FileEntry {
    /** The mount time stamp of the file system the entry belongs to. */
    const mountedTimestamp: u64
    /** The stored name, without the NUL that ends it; its size counts that NUL. */
    const name: Option<seq<nat>>
    const entryType: EntryType
    const key: KeyHandle?
    const value: Option<RegfValue>
    /** The cached size and contents of a CLASS_NAME or VALUE entry, 0 and null until read. */
    var valueDataSize: nat
    var valueData: array?<u8>

    /**
     * The cache agrees with the key or value: a size once cached is the
     * queried size, and cached contents have that size and are the
     * fetched contents.
     */
    ghost predicate Valid()
      reads this, valueData
    {
      && entryType != Unknown
      && (valueDataSize != 0 ==> ContentSize(entryType, KeyOf(key), value) == Ok(valueDataSize))
      && (valueData != null ==>
            && 0 < valueDataSize <= SSIZE_MAX && valueData.Length == valueDataSize
            && Content(entryType, KeyOf(key), value) == Ok(valueData[..]))
    }

    /** The name size: the name and its NUL, 0 for an entry without a name. */
    function NameSize(): nat {
      if name.None? then 0 else |name.value| + 1
    }

    constructor (mountedTimestamp: u64, name: Option<seq<nat>>, entryType: EntryType, key: KeyHandle?, value: Option<RegfValue>)
      requires entryType != Unknown
      ensures Valid()
      ensures this.mountedTimestamp == mountedTimestamp && this.name == name && this.entryType == entryType
      ensures this.key == key && this.value == value && valueDataSize == 0 && valueData == null
    {
      this.mountedTimestamp := mountedTimestamp;
      this.name := name;
      this.entryType := entryType;
      this.key := key;
      this.value := value;
      valueDataSize := 0;
      valueData := null;
    }

    /**
     * mount_file_entry_initialize: a name longer than SSIZE_MAX - 1 or an
     * unknown type is an error; the name's first `nameLength` characters
     * are copied with a NUL after them.
     */
    static method Initialize(mountedTimestamp: u64, name: Option<seq<nat>>, nameLength: nat, entryType: EntryType,
                             key: KeyHandle?, value: Option<RegfValue>) returns (r: FileEntry?)
      requires name.Some? ==> nameLength <= |name.value|
      ensures r == null <==> nameLength > SSIZE_MAX - 1 || entryType == Unknown
      ensures r != null ==> fresh(r) && r.Valid() && r.valueData == null && r.valueDataSize == 0
      ensures r != null ==> (r.mountedTimestamp == mountedTimestamp && r.entryType == entryType
        && r.key == key && r.value == value
        && r.name == (if name.None? then None else Some(StringCopy(name.value, nameLength))))
      ensures r != null && name.Some? ==> r.NameSize() == nameLength + 1
    {
      if nameLength > SSIZE_MAX - 1 || entryType == Unknown {
        return null;
      }
      var stored: Option<seq<nat>> := None;
      if name.Some? {
        stored := Some(StringCopy(name.value, nameLength));
        StringCopyReads(name.value, nameLength);
      }
      r := new FileEntry(mountedTimestamp, stored, entryType, key, value);
    }

    /** Whether mount_file_entry_free releases the entry's key handle. */
    predicate ReleasesKey() {
      key != null && ReleasesKeyOnFree(entryType)
    }

    /** mount_file_entry_get_modification_time (non-Windows) */
    function GetModificationTime(): (t: u64)
      ensures t == ModificationTime(mountedTimestamp, KeyOf(key))
    {
      if key == null then mountedTimestamp else PosixTime(key.key.lastWrittenTime)
    }

    /**
     * mount_file_entry_get_name: the entry must have a name and the
     * destination must hold at most SSIZE_MAX and at least the name size
     * characters; the name is copied with its NUL.
     */
    method GetName(dest: array<nat>, destSize: nat) returns (ok: bool)
      requires destSize <= dest.Length
      modifies dest
      ensures ok <==> name.Some? && destSize <= SSIZE_MAX && NameSize() <= destSize
      ensures ok ==> dest[..NameSize()] == StringCopy(name.value + [0], NameSize())
      ensures ok ==> MFS.UpToNul(dest[..NameSize()]) == MFS.UpToNul(name.value)
      ensures !ok ==> dest[..] == old(dest[..])
      ensures ok ==> dest[NameSize()..] == old(dest[NameSize()..])
    {
      if name.None? || destSize > SSIZE_MAX || destSize < NameSize() {
        return false;
      }
      var buffer := name.value + [0];
      CopyString(dest, buffer, NameSize());
      dest[NameSize() - 1] := 0;
      StringCopyReads(buffer, NameSize());
      assert buffer[..NameSize()] == buffer;
      UpToNulSkipsNulTail(name.value);
      ok := true;
    }

    /**
     * mount_file_entry_get_size: the size of the contents, queried once
     * and then kept; the cache makes no difference to the answer.
     */
    method GetSize() returns (r: Result<nat>)
      requires Valid()
      modifies this
      ensures Valid() && valueData == old(valueData)
      ensures r == ContentSize(entryType, KeyOf(key), value)
      ensures valueDataSize == (if r.Ok? then r.value else old(valueDataSize))
    {
      if valueDataSize == 0 {
        var size := ContentSize(entryType, KeyOf(key), value);
        if size.Err? {
          return Err;
        }
        valueDataSize := size.value;
      }
      return Ok(valueDataSize);
    }

    /**
     * mount_file_entry_read_buffer_at_offset, with the copy taken from
     * `offset` into the contents: the result and the bytes written are
     * those ReadAt describes, whatever the cache held before.
     */
    method ReadBufferAtOffset(buffer: array<u8>, bufferSize: nat, offset: int) returns (r: Result<nat>)
      requires Valid() && bufferSize <= buffer.Length && buffer != valueData
      modifies this, buffer
      ensures Valid()
      ensures r.Ok? <==> ReadAt(entryType, KeyOf(key), value, bufferSize, offset).Ok?
      ensures r.Ok? ==> var data := ReadAt(entryType, KeyOf(key), value, bufferSize, offset).value;
        r.value == |data| && buffer[..r.value] == data && buffer[r.value..] == old(buffer[r.value..])
      ensures r.Err? ==> buffer[..] == old(buffer[..])
    {
      if entryType != ClassName && entryType != Value {
        return Err;
      }
      if bufferSize > SSIZE_MAX || offset < 0 {
        return Err;
      }
      var ok := CacheSize();
      if !ok {
        return Err;
      }
      if valueDataSize == 0 {
        return Ok(0);
      }
      ok := CacheData();
      if !ok {
        return Err;
      }
      ReadAtIsChunk(entryType, KeyOf(key), value, bufferSize, offset);
      var readCount := 0;
      if offset < valueDataSize {
        readCount := Min(bufferSize, valueDataSize - offset);
        CopyBytes(buffer, valueData, offset, readCount);
      }
      return Ok(readCount);
    }

    /** The size query of mount_file_entry_read_buffer_at_offset, made once and cached. */
    method CacheSize() returns (ok: bool)
      requires Valid()
      modifies this`valueDataSize
      ensures Valid()
      ensures ok <==> ContentSize(entryType, KeyOf(key), value).Ok?
      ensures ok ==> valueDataSize == ContentSize(entryType, KeyOf(key), value).value
    {
      if valueDataSize == 0 {
        var size := ContentSize(entryType, KeyOf(key), value);
        if size.Err? {
          return false;
        }
        valueDataSize := size.value;
      }
      return true;
    }

    /** The contents fetch of mount_file_entry_read_buffer_at_offset, made once into a fresh cache. */
    method CacheData() returns (ok: bool)
      requires Valid() && valueDataSize != 0
      modifies this`valueData
      ensures Valid()
      ensures ok <==> valueDataSize <= SSIZE_MAX && Content(entryType, KeyOf(key), value).Ok?
      ensures ok ==> valueData != null
      ensures valueData == old(valueData) || fresh(valueData)
    {
      if valueData == null {
        if valueDataSize > SSIZE_MAX {
          return false;
        }
        var content := Content(entryType, KeyOf(key), value);
        if content.Err? {
          return false;
        }
        ContentHasSize(entryType, KeyOf(key), value);
        var data := new u8[valueDataSize];
        FillBytes(data, content.value);
        valueData := data;
      }
      return true;
    }

    /** The sub entry at `index` as GetSubFileEntryByIndex creates it from `s`. */
    ghost predicate IsSubEntry(e: FileEntry, s: SubEntry)
      reads e
    {
      && e.mountedTimestamp == mountedTimestamp && e.name == Some(s.name)
      && e.entryType == s.entryType && e.value == s.value
      && e.valueDataSize == 0 && e.valueData == null
      && match s.keySource
         case NoKey => e.key == null
         case ParentHandle => e.key == key
         case OwnHandle(k) => e.key != null && e.key != key && e.key.key == k
    }

    /**
     * mount_file_entry_get_sub_file_entry_by_index: the sub entry at
     * `index`, with a new handle for a sub key, its parent's handle for
     * "(values)" and "(classname)", and no key for a value.
     */
    method GetSubFileEntryByIndex(index: int) returns (r: Result<FileEntry>)
      ensures r.Ok? <==> SubEntryOf(entryType, KeyOf(key), index).Ok?
      ensures r.Ok? ==> fresh(r.value) && r.value.Valid() && IsSubEntry(r.value, SubEntryOf(entryType, KeyOf(key), index).value)
    {
      if index < 0 || (entryType != Key && entryType != Values) || key == null {
        return Err;
      }
      var parent := key.key;
      if entryType == Values {
        if index >= |parent.values| {
          return Err;
        }
        var v := parent.values[index];
        if v.Err? {
          return Err;
        }
        var valueName := ValueNameOrDefault(v.value.name);
        var filename := MFS.GetFilenameFromName(valueName);
        if filename.Err? {
          return Err;
        }
        var entry := NewSubEntry(filename.value, valueName, Value, null, Some(v.value));
        return Ok(entry);
      }
      var slot := KeySlot(|parent.subKeys|, |parent.values| > 0, parent.className.Some?, index);
      if slot.None? {
        return Err;
      }
      if slot.value.ValuesSlot? {
        var entry := new FileEntry(mountedTimestamp, Some(VALUES_NAME), Values, key, None);
        return Ok(entry);
      }
      if slot.value.ClassNameSlot? {
        var entry := new FileEntry(mountedTimestamp, Some(CLASS_NAME_NAME), ClassName, key, None);
        return Ok(entry);
      }
      var subKey := parent.subKeys[index];
      if subKey.Err? || subKey.value.name.None? {
        return Err;
      }
      var filename := MFS.GetFilenameFromName(subKey.value.name.value);
      if filename.Err? {
        return Err;
      }
      var handle := new KeyHandle(subKey.value);
      var entry := NewSubEntry(filename.value, subKey.value.name.value, Key, handle, None);
      return Ok(entry);
    }

    /**
     * The entry initialized from a file name buffer of 4 * n + 1
     * characters for a name of n characters, with the length 4 * n.
     */
    method NewSubEntry(filename: array<nat>, name: seq<nat>, t: EntryType, handle: KeyHandle?, v: Option<RegfValue>)
      returns (e: FileEntry)
      requires t != Unknown && 4 * |name| <= SSIZE_MAX - 1
      requires var f := MFS.FilenameOf(name);
        filename.Length == 4 * |name| + 1 && |f| < filename.Length && filename[..|f|] == f && filename[|f|] == 0
      ensures fresh(e) && e.Valid() && e.valueDataSize == 0 && e.valueData == null
      ensures e.mountedTimestamp == mountedTimestamp && e.entryType == t && e.key == handle && e.value == v
      ensures e.name == Some(StoredFilename(MFS.FilenameOf(name), |name|))
    {
      var f := MFS.FilenameOf(name);
      FilenameHasNoNul(name);
      StringCopyOfTerminated(filename[..], 4 * |name|, f);
      var r := Initialize(mountedTimestamp, Some(filename[..]), 4 * |name|, t, handle, v);
      e := r;
    }
  }

  /** A C string followed by NULs reads as that C string. */
  lemma UpToNulSkipsNulTail(s: seq<nat>)
    ensures MFS.UpToNul(s + [0]) == MFS.UpToNul(s)
  {
    var u := MFS.UpToNul(s);
    if |u| < |s| {
      assert s + [0] == u + ([s[|u|]] + s[|u| + 1..] + [0]);
      assert s == u + ([s[|u|]] + s[|u| + 1..]);
      UpToNulStops(u, [s[|u|]] + s[|u| + 1..] + [0]);
      UpToNulStops(u, [s[|u|]] + s[|u| + 1..]);
    } else {
      assert s == u;
      UpToNulStops(u, [0]);
    }
  }

  /** system_string_copy into `dest`: the first n characters of `src` up to its first NUL, padded with NULs. */
  method CopyString(dest: array<nat>, src: seq<nat>, n: nat)
    requires n <= |src| && n <= dest.Length
    modifies dest
    ensures dest[..n] == StringCopy(src, n)
    ensures dest[n..] == old(dest[n..])
  {
    var i := 0;
    while i < n && src[i] != 0
      invariant i <= n && 0 !in src[..i]
      invariant dest[..i] == src[..i] && dest[n..] == old(dest[n..])
      decreases n - i
    {
      dest[i] := src[i];
      i := i + 1;
    }
    UpToNulOfStop(src[..n], i);
    var k := i;
    while k < n
      invariant i <= k <= n
      invariant dest[..i] == src[..i] && dest[n..] == old(dest[n..])
      invariant forall j :: i <= j < k ==> dest[j] == 0
      decreases n - k
    {
      dest[k] := 0;
      k := k + 1;
    }
    assert dest[..n] == dest[..i] + dest[i..n];
    assert dest[i..n] == Zeros(n - i);
    assert src[..n][..i] == src[..i];
  }

  /** The C string of `s` ends where the copying loop stops: at its first NUL or its end. */
  lemma {:induction false} UpToNulOfStop(s: seq<nat>, i: nat)
    requires i <= |s| && 0 !in s[..i] && (i < |s| ==> s[i] == 0)
    ensures MFS.UpToNul(s) == s[..i]
  {
    if i < |s| {
      assert s == s[..i] + s[i..];
      UpToNulStops(s[..i], s[i..]);
    } else {
      assert s[..i] == s;
      MFS.UpToNulOfNulFree(s);
    }
  }

  /** Fills a new cache buffer with the fetched contents. */
  method FillBytes(dest: array<u8>, src: seq<u8>)
    requires dest.Length == |src|
    modifies dest
    ensures dest[..] == src
  {
    var i := 0;
    while i < |src|
      invariant i <= |src| && dest[..i] == src[..i]
      decreases |src| - i
    {
      dest[i] := src[i];
      i := i + 1;
    }
    assert dest[..] == dest[..i];
  }

  /** memory_copy of `count` bytes of `src` from `from` into the start of `dest`. */
  method CopyBytes(dest: array<u8>, src: array<u8>, from: nat, count: nat)
    requires dest != src && from + count <= src.Length && count <= dest.Length
    modifies dest
    ensures dest[..count] == src[from..from + count]
    ensures dest[count..] == old(dest[count..])
  {
    var i := 0;
    while i < count
      invariant i <= count
      invariant dest[..i] == src[from..from + i] && dest[count..] == old(dest[count..])
      decreases count - i
    {
      dest[i] := src[from + i];
      i := i + 1;
    }
  }
}
