/**
 * The mount handle of regfmount (mount_handle.c): it classifies a path of
 * the mounted file system into a key directory, the "(values)" directory
 * of a key, a value file in it, or the "(classname)" file of a key, and
 * creates the file entry for it.
 *
 * A path is a sequence of characters without its terminating NUL; the
 * character at index |path| reads as that NUL. Looking up a key by path
 * (mount_file_system_get_key_by_path) and a value by name
 * (libregf_key_get_value_by_utf8_name) are parameters.
 */
module MountHandle {
  import opened Common
  import MFS = MountFileSystem
  import opened MountFileEntry

  /** LIBREGF_CODEPAGE_WINDOWS_1252, the default ASCII codepage of a mount handle. */
  const CODEPAGE_WINDOWS_1252: int := 1252

  /** LIBCPATH_SEPARATOR of the POSIX build. */
  const SEPARATOR: nat := 0x2f

  /** Looks a key up by the first characters of a mount path. */
  type KeyLookup = seq<nat> -> Outcome<RegfKey>

  /** Looks a value of a key up by name; None is the default value. */
  type ValueLookup = (RegfKey, Option<seq<nat>>) -> Outcome<RegfValue>

  /** The character at index i, the terminating NUL at index |path|. */
  function CharAt(path: seq<nat>, i: nat): nat {
    if i < |path| then path[i] else 0
  }

  /**
   * The backward scan for a separator: the largest index in (0, i] whose
   * character is a separator, or 0 when there is none (index 0 itself is
   * never looked at).
   */
  function ScanBack(path: seq<nat>, i: nat): (j: nat)
    ensures j <= i
    ensures j > 0 ==> CharAt(path, j) == SEPARATOR
    ensures forall k :: j < k <= i ==> CharAt(path, k) != SEPARATOR
  {
    if i == 0 then 0 else if CharAt(path, i) == SEPARATOR then i else ScanBack(path, i - 1)
  }

  /** Over a segment without separators the scan finds the separator before it. */
  lemma {:induction false} ScanBackOverSegment(p: seq<nat>, s: seq<nat>, i: nat)
    requires SEPARATOR !in s && |p| <= i <= |p| + |s|
    ensures ScanBack(p + [SEPARATOR] + s, i) == |p|
    decreases i
  {
    var path := p + [SEPARATOR] + s;
    if i > |p| {
      assert path[i] == s[i - |p| - 1];
      ScanBackOverSegment(p, s, i - 1);
    } else if i > 0 {
      assert path[i] == SEPARATOR;
    }
  }

  /** The path length after one trailing separator is dropped from a path of at least 2 characters. */
  function TrimmedLength(path: seq<nat>): (len: nat)
    requires |path| > 0
    ensures 0 < len <= |path|
  {
    if |path| >= 2 && path[|path| - 1] == SEPARATOR then |path| - 1 else |path|
  }

  /**
   * How a path is classified: the entry type, how many characters of the
   * path name its key, and where its file name starts and how long it is
   * (negative where the source's unsigned length wraps around).
   */
  datatype Classification = Classification(entryType: EntryType, keyPathLength: nat, filenameStart: nat, filenameLength: int)

  predicate WellFormed(path: seq<nat>, c: Classification) {
    && c.keyPathLength <= |path| && c.filenameStart <= |path|
    && (c.filenameLength >= 0 ==> c.filenameStart + c.filenameLength <= |path|)
  }

  /**
   * The classification once the file name is known to start after index
   * `index` and to end at `len`: "(classname)" and "(values)" name the
   * class name and the values of the key before them; a file name after a
   * "(values)" segment, in a path longer than 10 characters, names a value
   * of the key before that; anything else is a key over the whole path.
   */
  function ClassifyAt(path: seq<nat>, len: nat, index: nat): (c: Classification)
    requires 0 < len <= |path| && index < |path| && index <= len
    ensures WellFormed(path, c) && c.entryType != Unknown
  {
    var filenameLength := len - (index + 1);
    if filenameLength == 11 && path[index + 1..len] == CLASS_NAME_NAME then
      Classification(ClassName, index + 1, index + 1, filenameLength)
    else if filenameLength == 8 && path[index + 1..len] == VALUES_NAME then
      Classification(Values, index + 1, index + 1, filenameLength)
    else if index > 0 && len > 10 && index - (ScanBack(path, index - 1) + 1) == 8
         && path[ScanBack(path, index - 1) + 1..index] == VALUES_NAME then
      Classification(Value, ScanBack(path, index - 1) + 1, index + 1, filenameLength)
    else Classification(Key, len, index + 1, filenameLength)
  }

  /**
   * The classification as mount_handle_get_file_entry_by_path computes it:
   * the scan for the last separator starts at index `len`, which after a
   * dropped trailing separator is that separator itself.
   */
  function ClassifyAsWritten(path: seq<nat>): (c: Classification)
    requires |path| > 0
    ensures WellFormed(path, c)
  {
    ClassifyAt(path, TrimmedLength(path), ScanBack(path, TrimmedLength(path)))
  }

  /** The classification with the scan starting at the last character kept, index `len` - 1. */
  function Classify(path: seq<nat>): (c: Classification)
    requires |path| > 0
    ensures WellFormed(path, c)
    ensures c.filenameLength >= 0
  {
    ClassifyAt(path, TrimmedLength(path), ScanBack(path, TrimmedLength(path) - 1))
  }

  /**
   * The file name of a path is its last segment: it holds no separator,
   * and it follows a separator or the first character.
   */
  lemma FilenameIsLastSegment(path: seq<nat>)
    requires |path| > 0
    ensures var c := Classify(path);
      && c.filenameStart + c.filenameLength == TrimmedLength(path)
      && SEPARATOR !in path[c.filenameStart..TrimmedLength(path)]
      && (c.filenameStart == 1 || path[c.filenameStart - 1] == SEPARATOR)
  {
    var c := Classify(path);
    var len := TrimmedLength(path);
    var j := ScanBack(path, len - 1);
    forall k | c.filenameStart <= k < len
      ensures path[k] != SEPARATOR
    {
      assert CharAt(path, k) != SEPARATOR;
    }
  }

  /** Both scans agree on a path without a trailing separator to drop. */
  lemma AsWrittenAgreesWithoutTrailingSeparator(path: seq<nat>)
    requires |path| > 0 && TrimmedLength(path) == |path|
    ensures ClassifyAsWritten(path) == Classify(path)
  {
  }

  /** "/a/": the scan starts on the dropped separator and the file name length is -1. */
  lemma TrailingSeparatorWrapsFilenameLength()
    ensures ClassifyAsWritten([SEPARATOR, 0x61, SEPARATOR]) == Classification(Key, 2, 3, -1)
    ensures Classify([SEPARATOR, 0x61, SEPARATOR]) == Classification(Key, 2, 1, 1)
  {
    var path: seq<nat> := [SEPARATOR, 0x61, SEPARATOR];
    assert ScanBack(path, 1) == 0;
  }

  /** The "(values)" directory of a key at mount path p is classified as such, on the key at p. */
  lemma ValuesPathClassifies(p: seq<nat>)
    ensures Classify(p + [SEPARATOR] + VALUES_NAME) == Classification(Values, |p| + 1, |p| + 1, 8)
  {
    var path := p + [SEPARATOR] + VALUES_NAME;
    ScanBackOverSegment(p, VALUES_NAME, |path| - 1);
    assert path[|p| + 1..|path|] == VALUES_NAME;
  }

  /**
   * A value file f in the "(values)" directory of the key at mount path p
   * is classified as a value of that key, unless f is itself "(values)" or
   * "(classname)".
   */
  lemma ValueFilePathClassifies(p: seq<nat>, f: seq<nat>)
    requires f != [] && SEPARATOR !in f && f != VALUES_NAME && f != CLASS_NAME_NAME
    ensures var path := p + [SEPARATOR] + VALUES_NAME + [SEPARATOR] + f;
      Classify(path) == Classification(Value, |p| + 1, |p| + 10, |f|)
  {
    var q := p + [SEPARATOR] + VALUES_NAME;
    var path := q + [SEPARATOR] + f;
    assert path == p + [SEPARATOR] + VALUES_NAME + [SEPARATOR] + f;
    assert TrimmedLength(path) == |path| by {
      assert path[|path| - 1] == f[|f| - 1];
    }
    ScanBackOverSegment(q, f, |path| - 1);
    assert path[|q| + 1..|path|] == f;
    ParentScan(p, q, path);
    ClassifyAtParentValues(path, |path|, |q|);
  }

  /** The scan back from before the file name of a value file finds the separator before "(values)". */
  lemma ParentScan(p: seq<nat>, q: seq<nat>, path: seq<nat>)
    requires q == p + [SEPARATOR] + VALUES_NAME && |q| < |path| && path[..|q|] == q
    ensures ScanBack(path, |q| - 1) == |p|
    ensures path[|p| + 1..|q|] == VALUES_NAME
  {
    ScanBackOverSegment(p, VALUES_NAME, |q| - 1);
    assert path == q + path[|q|..];
    ScanBackPrefix(q, path[|q|..], |q| - 1);
  }

  /** A file name after a "(values)" segment that is neither "(classname)" nor "(values)" names a value. */
  lemma ClassifyAtParentValues(path: seq<nat>, len: nat, index: nat)
    requires 10 < len <= |path| && 0 < index < len
    requires path[index + 1..len] != CLASS_NAME_NAME && path[index + 1..len] != VALUES_NAME
    requires index - (ScanBack(path, index - 1) + 1) == 8
    requires path[ScanBack(path, index - 1) + 1..index] == VALUES_NAME
    ensures ClassifyAt(path, len, index) == Classification(Value, ScanBack(path, index - 1) + 1, index + 1, len - (index + 1))
  {
  }

  /** A scan within a prefix does not see what follows it. */
  lemma {:induction false} ScanBackPrefix(q: seq<nat>, t: seq<nat>, i: nat)
    requires i < |q|
    ensures ScanBack(q + t, i) == ScanBack(q, i)
    decreases i
  {
    if i > 0 {
      assert (q + t)[i] == q[i];
      ScanBackPrefix(q, t, i - 1);
    }
  }

  /** A value named "(values)" has a file that is classified as a "(values)" directory instead. */
  lemma ValueNamedValuesIsValuesDirectory(p: seq<nat>)
    ensures var path := p + [SEPARATOR] + VALUES_NAME + [SEPARATOR] + VALUES_NAME;
      Classify(path).entryType == Values
  {
    ValuesPathClassifies(p + [SEPARATOR] + VALUES_NAME);
  }

  /** What the file entry of a path is made of. */
  datatype EntrySpec = EntrySpec(name: seq<nat>, entryType: EntryType, key: RegfKey, value: Option<RegfValue>)

  /**
   * mount_file_system_get_value_by_filename for the file name of `c`: a
   * length that wrapped around exceeds SSIZE_MAX - 1 and is refused.
   */
  function ValueFor(path: seq<nat>, c: Classification, key: RegfKey, lookUpValue: ValueLookup): Outcome<RegfValue>
    requires WellFormed(path, c)
  {
    if c.filenameLength < 0 then Error
    else match MFS.ValueQueryOf(path[c.filenameStart..c.filenameStart + c.filenameLength])
      case Err => Error
      case Ok(query) => lookUpValue(key, query)
  }

  /**
   * The entry of a classified path: its key must be found, and for a value
   * its value too; mount_file_entry_initialize then refuses a wrapped
   * file name length.
   */
  function EntryFor(path: seq<nat>, c: Classification, lookUpKey: KeyLookup, lookUpValue: ValueLookup): (r: Outcome<EntrySpec>)
    requires WellFormed(path, c)
    ensures r.Found? ==> c.filenameLength >= 0 && r.value.entryType == c.entryType
  {
    match lookUpKey(path[..c.keyPathLength])
    case Error => Error
    case NotFound => NotFound
    case Found(key) =>
      if c.entryType == Value then
        match ValueFor(path, c, key, lookUpValue)
        case Error => Error
        case NotFound => NotFound
        case Found(v) => Initialized(path, c, key, Some(v))
      else Initialized(path, c, key, None)
  }

  /** mount_file_entry_initialize on the file name of `c`. */
  function Initialized(path: seq<nat>, c: Classification, key: RegfKey, value: Option<RegfValue>): (r: Outcome<EntrySpec>)
    requires WellFormed(path, c)
    ensures r.Found? <==> 0 <= c.filenameLength <= SSIZE_MAX - 1
  {
    if c.filenameLength < 0 || c.filenameLength > SSIZE_MAX - 1 then Error
    else Found(EntrySpec(StringCopy(path[c.filenameStart..], c.filenameLength), c.entryType, key, value))
  }

  /**
   * mount_handle_get_file_entry_by_path: the entry of a path (Found), no
   * entry because its key or value does not exist (NotFound), or Error;
   * the empty path is an error.
   */
  function FileEntryByPathOf(path: seq<nat>, lookUpKey: KeyLookup, lookUpValue: ValueLookup): (r: Outcome<EntrySpec>)
    ensures |path| == 0 ==> r == Error
    ensures r.Found? ==> var c := Classify(path);
      && lookUpKey(path[..c.keyPathLength]).Found? && r.value.key == lookUpKey(path[..c.keyPathLength]).value
      && r.value.entryType == c.entryType
      && (r.value.value.Some? <==> c.entryType == Value)
  {
    if |path| == 0 then Error else EntryFor(path, Classify(path), lookUpKey, lookUpValue)
  }

  /** The same as the source computes it, with the scan starting on a dropped trailing separator. */
  function FileEntryByPathAsWritten(path: seq<nat>, lookUpKey: KeyLookup, lookUpValue: ValueLookup): Outcome<EntrySpec> {
    if |path| == 0 then Error else EntryFor(path, ClassifyAsWritten(path), lookUpKey, lookUpValue)
  }

  /**
   * "/a/" for an existing key "/a" is an error as written, where the entry
   * of the key named "a" is evidently intended.
   */
  lemma TrailingSeparatorIsError(lookUpKey: KeyLookup, lookUpValue: ValueLookup)
    requires lookUpKey([SEPARATOR, 0x61]).Found?
    ensures FileEntryByPathAsWritten([SEPARATOR, 0x61, SEPARATOR], lookUpKey, lookUpValue) == Error
    ensures FileEntryByPathOf([SEPARATOR, 0x61, SEPARATOR], lookUpKey, lookUpValue)
         == Found(EntrySpec([0x61], Key, lookUpKey([SEPARATOR, 0x61]).value, None))
  {
    var path: seq<nat> := [SEPARATOR, 0x61, SEPARATOR];
    TrailingSeparatorWrapsFilenameLength();
    assert path[..2] == [SEPARATOR, 0x61];
    assert path[1..][..1] == [0x61];
    StringCopyOfTerminated(path[1..], 1, [0x61]);
    assert Zeros(0) == [];
    assert StringCopy(path[1..], 1) == [0x61];
    var c := Classification(Key, 2, 1, 1);
    assert Initialized(path, c, lookUpKey(path[..2]).value, None) == Found(EntrySpec([0x61], Key, lookUpKey(path[..2]).value, None));
    assert EntryFor(path, c, lookUpKey, lookUpValue) == Initialized(path, c, lookUpKey(path[..2]).value, None);
  }

  /**
   * The entry of a path names the last segment of the path as a C string,
   * and a found entry has the type the path is classified as.
   */
  lemma FoundEntryIsNamedAfterPath(path: seq<nat>, lookUpKey: KeyLookup, lookUpValue: ValueLookup)
    requires FileEntryByPathOf(path, lookUpKey, lookUpValue).Found?
    ensures var c := Classify(path);
      var e := FileEntryByPathOf(path, lookUpKey, lookUpValue).value;
      && e.entryType == c.entryType && |e.name| == c.filenameLength
      && MFS.UpToNul(e.name) == MFS.UpToNul(path[c.filenameStart..TrimmedLength(path)])
      && e.key == lookUpKey(path[..c.keyPathLength]).value
  {
    var c := Classify(path);
    EntryForFields(path, c, lookUpKey, lookUpValue);
    FilenameIsLastSegment(path);
    StringCopyReads(path[c.filenameStart..], c.filenameLength);
    assert path[c.filenameStart..][..c.filenameLength] == path[c.filenameStart..TrimmedLength(path)];
  }

  /** The fields of an entry a classified path yields. */
  lemma EntryForFields(path: seq<nat>, c: Classification, lookUpKey: KeyLookup, lookUpValue: ValueLookup)
    requires WellFormed(path, c) && EntryFor(path, c, lookUpKey, lookUpValue).Found?
    ensures var e := EntryFor(path, c, lookUpKey, lookUpValue).value;
      && 0 <= c.filenameLength && e.entryType == c.entryType
      && e.name == StringCopy(path[c.filenameStart..], c.filenameLength)
      && e.key == lookUpKey(path[..c.keyPathLength]).value
  {
  }

  /**
   * The "(values)" directory of the key at mount path p exists exactly
   * when that key does, and is an entry of type VALUES on it.
   */
  lemma ValuesDirectoryEntry(p: seq<nat>, lookUpKey: KeyLookup, lookUpValue: ValueLookup)
    ensures var r := FileEntryByPathOf(p + [SEPARATOR] + VALUES_NAME, lookUpKey, lookUpValue);
      && (r.Found? <==> lookUpKey(p + [SEPARATOR]).Found?)
      && (r.Found? ==> r.value == EntrySpec(VALUES_NAME, Values, lookUpKey(p + [SEPARATOR]).value, None))
  {
    var path := p + [SEPARATOR] + VALUES_NAME;
    var c := Classification(Values, |p| + 1, |p| + 1, 8);
    ValuesPathClassifies(p);
    assert path[..|p| + 1] == p + [SEPARATOR];
    assert path[|p| + 1..] == VALUES_NAME;
    StringCopyOfTerminated(VALUES_NAME, 8, VALUES_NAME);
    assert Zeros(0) == [];
    assert FileEntryByPathOf(path, lookUpKey, lookUpValue) == EntryFor(path, c, lookUpKey, lookUpValue);
  }

  /** mount_handle_t */
  class MountHandle {
    /** The mount time stamp of the handle's file system. */
    const mountedTimestamp: u64
    var asciiCodepage: int

    /** mount_handle_initialize: the ASCII codepage defaults to Windows 1252. */
    constructor (mountedTimestamp: u64)
      ensures this.mountedTimestamp == mountedTimestamp && asciiCodepage == CODEPAGE_WINDOWS_1252
    {
      this.mountedTimestamp := mountedTimestamp;
      asciiCodepage := CODEPAGE_WINDOWS_1252;
    }

    /**
     * mount_handle_get_file_entry_by_path, with the scan for the file name
     * starting at the last character kept: a new entry with a new key
     * handle, as FileEntryByPathOf describes.
     */
    method GetFileEntryByPath(path: seq<nat>, lookUpKey: KeyLookup, lookUpValue: ValueLookup) returns (r: Outcome<FileEntry>)
      ensures r.Found? <==> FileEntryByPathOf(path, lookUpKey, lookUpValue).Found?
      ensures r.NotFound? <==> FileEntryByPathOf(path, lookUpKey, lookUpValue).NotFound?
      ensures r.Found? ==> var e := FileEntryByPathOf(path, lookUpKey, lookUpValue).value;
        && fresh(r.value) && r.value.Valid() && r.value.key != null && fresh(r.value.key)
        && r.value.name == Some(e.name) && r.value.entryType == e.entryType
        && r.value.key.key == e.key && r.value.value == e.value
        && r.value.mountedTimestamp == mountedTimestamp
    {
      if |path| == 0 {
        return Error;
      }
      var c := ClassifyPath(path);
      var key := lookUpKey(path[..c.keyPathLength]);
      if key.Error? {
        return Error;
      }
      if key.NotFound? {
        return NotFound;
      }
      var handle := new KeyHandle(key.value);
      var value: Option<RegfValue> := None;
      if c.entryType == Value {
        var found := ValueFor(path, c, key.value, lookUpValue);
        if found.Error? {
          return Error;
        }
        if found.NotFound? {
          return NotFound;
        }
        value := Some(found.value);
      }
      var entry := FileEntry.Initialize(mountedTimestamp, Some(path[c.filenameStart..]), c.filenameLength, c.entryType, handle, value);
      if entry == null {
        return Error;
      }
      return Found(entry);
    }
  }

  /**
   * The classification loops of mount_handle_get_file_entry_by_path: drop
   * one trailing separator, scan back for the file name, compare it, and
   * scan back once more for a "(values)" parent segment.
   */
  method ClassifyPath(path: seq<nat>) returns (c: Classification)
    requires |path| > 0
    ensures c == Classify(path)
  {
    var pathLength := |path|;
    if pathLength >= 2 && path[pathLength - 1] == SEPARATOR {
      pathLength := pathLength - 1;
    }
    var pathIndex := ScanBackward(path, pathLength - 1);
    c := ClassifyFrom(path, pathLength, pathIndex);
  }

  /** The comparisons and the second backward scan, once the file name's start is known. */
  method ClassifyFrom(path: seq<nat>, pathLength: nat, separatorIndex: nat) returns (c: Classification)
    requires 0 < pathLength <= |path| && separatorIndex < pathLength
    ensures c == ClassifyAt(path, pathLength, separatorIndex)
  {
    var pathIndex := separatorIndex;
    var filenameStart := pathIndex + 1;
    var filenameLength := pathLength - filenameStart;
    var entryType := Unknown;
    var keyPathLength := 0;
    if filenameLength == 11 && path[filenameStart..pathLength] == CLASS_NAME_NAME {
      entryType, keyPathLength := ClassName, pathIndex + 1;
    } else if filenameLength == 8 && path[filenameStart..pathLength] == VALUES_NAME {
      entryType, keyPathLength := Values, pathIndex + 1;
    }
    if entryType == Unknown && pathIndex > 0 && pathLength > 10 {
      var lastPathIndex := pathIndex;
      pathIndex := ScanBackward(path, pathIndex - 1);
      if lastPathIndex - (pathIndex + 1) == 8 && path[pathIndex + 1..lastPathIndex] == VALUES_NAME {
        entryType, keyPathLength := Value, pathIndex + 1;
      }
    }
    if entryType == Unknown {
      entryType, keyPathLength := Key, pathLength;
    }
    c := Classification(entryType, keyPathLength, filenameStart, filenameLength);
  }

  /** The backward scan loop, from index `start`. */
  method ScanBackward(path: seq<nat>, start: nat) returns (index: nat)
    ensures index == ScanBack(path, start)
  {
    index := start;
    while index > 0
      invariant index <= start && ScanBack(path, start) == ScanBack(path, index)
      decreases index
    {
      if CharAt(path, index) == SEPARATOR {
        return;
      }
      index := index - 1;
    }
  }
}
