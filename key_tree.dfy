/**
 * Key lookup by path (libregf_key_tree.c). A path is a sequence of
 * segments separated by '\'; each segment is hashed as key names are, and
 * looked up among the sub keys of the key reached so far. The UTF-8 and
 * UTF-16 variants differ only in the code units of the path, which the
 * decoder parameter stands for.
 */
module KeyTree {
  import opened Common
  import opened Text
  import opened HiveBinsList
  import NK = NamedKey
  import SKL = SubKeyList
  import KI = KeyItem

  /** LIBREGF_SEPARATOR */
  const SEPARATOR: int := 0x5c

  predicate IsTerminator(c: int) {
    c == SEPARATOR || c == 0
  }

  /**
   * Where the segment loop stops: the index after the segment and its
   * terminator, whether a separator or NUL ended it, and its name hash.
   */
  datatype SegmentScan = SegmentScan(next: nat, terminated: bool, hash: u32)

  /** The inner loop: decode characters from `i`, hashing them, up to a separator or NUL. */
  function ScanSegment<U>(dec: Decoder<U>, upper: Upper, path: seq<U>, i: nat, h: u32): (r: Result<SegmentScan>)
    requires i <= |path|
    ensures r.Ok? ==> i <= r.value.next <= |path|
    ensures r.Ok? && i < |path| ==> i < r.value.next
    ensures r.Ok? && !r.value.terminated ==> r.value.next == |path|
    ensures r.Ok? && r.value.terminated ==> i < r.value.next
    decreases |path| - i
  {
    if i == |path| then Ok(SegmentScan(i, false, h))
    else match DecodeAt(dec, path, i)
      case Invalid => Err
      case Char(c, next) =>
        if IsTerminator(c) then Ok(SegmentScan(next, true, h))
        else ScanSegment(dec, upper, path, next, HashStep(h, c, upper))
  }

  /**
   * The segment's length in code units: up to the end of the path, or up
   * to the unit before the index after the terminator.
   */
  function SegmentLength(start: nat, s: SegmentScan): nat
    requires start <= s.next && (s.terminated ==> start < s.next)
  {
    if s.terminated then s.next - (start + 1) else s.next - start
  }

  /** The segment's code units, without its terminator. */
  function Segment<U>(path: seq<U>, start: nat, s: SegmentScan): (r: seq<U>)
    requires start <= s.next <= |path| && (s.terminated ==> start < s.next)
    ensures |r| == SegmentLength(start, s)
  {
    path[start..start + SegmentLength(start, s)]
  }

  /**
   * A terminated segment ends with a separator or NUL character, which
   * is not part of it: the last character decoded is that terminator.
   */
  lemma {:induction false} TerminatorEndsSegment<U>(dec: Decoder<U>, upper: Upper, path: seq<U>, i: nat, h: u32)
    requires i <= |path|
    requires ScanSegment(dec, upper, path, i, h).Ok? && ScanSegment(dec, upper, path, i, h).value.terminated
    ensures var s := ScanSegment(dec, upper, path, i, h).value;
      exists p :: (i <= p < s.next
        && DecodeAt(dec, path, p).Char? && DecodeAt(dec, path, p).next == s.next
        && IsTerminator(DecodeAt(dec, path, p).c))
    decreases |path| - i
  {
    var st := DecodeAt(dec, path, i);
    if !IsTerminator(st.c) {
      TerminatorEndsSegment(dec, upper, path, st.next, HashStep(h, st.c, upper));
    }
  }

  /** A segment that runs to the end of the path is hashed as a key name is. */
  lemma {:induction false} UnterminatedSegmentHash<U>(dec: Decoder<U>, upper: Upper, path: seq<U>, i: nat, h: u32)
    requires i <= |path|
    requires ScanSegment(dec, upper, path, i, h).Ok? && !ScanSegment(dec, upper, path, i, h).value.terminated
    ensures NameHash(dec, upper, path, i, h) == HashFold(true, ScanSegment(dec, upper, path, i, h).value.hash)
    decreases |path| - i
  {
    if i < |path| {
      var st := DecodeAt(dec, path, i);
      UnterminatedSegmentHash(dec, upper, path, st.next, HashStep(h, st.c, upper));
    }
  }

  /**
   * What the libuna decoders guarantee and the walk relies on, for the
   * units of `path`: a character is decoded from its own code units only,
   * so any slice that holds those units decodes it alike; and NUL and '\'
   * are one code unit.
   */
  ghost predicate ReadsOwnUnits<U>(dec: Decoder<U>, path: seq<U>) {
    && (forall a: nat, b: nat, d: nat {:trigger SliceStep(dec, path, a, b, d)} ::
          a + d < b <= |path| && DecodeAt(dec, path, a + d).Char? && DecodeAt(dec, path, a + d).next <= b ==>
            SliceStep(dec, path, a, b, d) == Char(DecodeAt(dec, path, a + d).c, DecodeAt(dec, path, a + d).next - a))
    && (forall j: nat {:trigger DecodeAt(dec, path, j)} ::
          j < |path| && DecodeAt(dec, path, j).Char? && IsTerminator(DecodeAt(dec, path, j).c) ==> DecodeAt(dec, path, j).next == j + 1)
  }

  /** The decoder's step at index `d` of the slice `path[a..b]`. */
  ghost function SliceStep<U>(dec: Decoder<U>, path: seq<U>, a: nat, b: nat, d: nat): Step
    requires a + d < b <= |path|
  {
    DecodeAt(dec, path[a..b], d)
  }

  /** The index just after a scanned segment's last unit, before its terminator. */
  function SegmentEnd(start: nat, s: SegmentScan): nat
    requires start <= s.next && (s.terminated ==> start < s.next)
  {
    start + SegmentLength(start, s)
  }

  /**
   * The hash the segment loop computes from `i`, whether a separator, NUL
   * or the end of the path ends the segment, is the name hash of the
   * segment's own code units, read as a slice from any `a` up to `i`: the
   * hash a key of that name has.
   */
  lemma {:induction false} ScannedHashIsSliceHash<U>(dec: Decoder<U>, upper: Upper, path: seq<U>, a: nat, i: nat, h: u32)
    requires ReadsOwnUnits(dec, path)
    requires a <= i <= |path|
    requires ScanSegment(dec, upper, path, i, h).Ok?
    ensures var s := ScanSegment(dec, upper, path, i, h).value;
      NameHash(dec, upper, path[a..SegmentEnd(i, s)], i - a, h) == HashFold(true, s.hash)
    decreases |path| - i
  {
    if i == |path| || (DecodeAt(dec, path, i).Char? && IsTerminator(DecodeAt(dec, path, i).c)) {
      ScannedHashAtEnd(dec, upper, path, a, i, h);
    } else {
      var s := ScanSegment(dec, upper, path, i, h).value;
      var st := DecodeAt(dec, path, i);
      var h' := HashStep(h, st.c, upper);
      assert s == ScanSegment(dec, upper, path, st.next, h').value;
      ScannedHashIsSliceHash(dec, upper, path, a, st.next, h');
      var p := SegmentEnd(i, s);
      assert p == SegmentEnd(st.next, s);
      SliceHashStep(dec, upper, path, a, i, p, h);
    }
  }

  /** A segment that ends at `i`, at the end of the path or at a terminator, is empty and hashes as the empty slice. */
  lemma ScannedHashAtEnd<U>(dec: Decoder<U>, upper: Upper, path: seq<U>, a: nat, i: nat, h: u32)
    requires ReadsOwnUnits(dec, path)
    requires a <= i <= |path|
    requires ScanSegment(dec, upper, path, i, h).Ok?
    requires i == |path| || (DecodeAt(dec, path, i).Char? && IsTerminator(DecodeAt(dec, path, i).c))
    ensures var s := ScanSegment(dec, upper, path, i, h).value;
      SegmentEnd(i, s) == i && NameHash(dec, upper, path[a..i], i - a, h) == HashFold(true, s.hash)
  {
  }

  /** A character of the path inside a slice is hashed in the slice as in the path. */
  lemma SliceHashStep<U>(dec: Decoder<U>, upper: Upper, path: seq<U>, a: nat, i: nat, p: nat, h: u32)
    requires ReadsOwnUnits(dec, path)
    requires a <= i < p <= |path| && DecodeAt(dec, path, i).Char? && DecodeAt(dec, path, i).next <= p
    ensures var st := DecodeAt(dec, path, i);
      NameHash(dec, upper, path[a..p], i - a, h) == NameHash(dec, upper, path[a..p], st.next - a, HashStep(h, st.c, upper))
  {
    assert SliceStep(dec, path, a, p, i - a) == Char(DecodeAt(dec, path, i).c, DecodeAt(dec, path, i).next - a);
  }

  /**
   * One segment's step: read the key item at `keyOffset` and look the
   * segment up among its sub keys.
   */
  function LookUp<Q>(h: HiveBinsList, codecs: NK.NameCodecs, keyOffset: u32, nameHash: u32, segment: seq<Q>, dec: Decoder<Q>): Outcome<u32> {
    match KI.ReadKeyItem(h, codecs, keyOffset)
    case Err => Error
    case Ok(item) =>
      match KI.FindSubKey(h, codecs, item.lists.subKeys, 0, nameHash, segment, dec)
      case Error => Error
      case NotFound => NotFound
      case Found(d) => Found(d.keyOffset)
  }

  /**
   * The outer loop from index `i` at the key at `keyOffset`: an empty
   * segment means no such key; otherwise the key item is read and the
   * segment looked up among its sub keys, and the walk goes on from the
   * sub key found until the path is used up.
   */
  function Walk<U>(h: HiveBinsList, codecs: NK.NameCodecs, dec: Decoder<U>, path: seq<U>, i: nat, keyOffset: u32): (r: Outcome<u32>)
    requires i < |path|
    ensures r.Found? ==> Segments(dec, codecs.upper, path, i).Ok?
    decreases |path| - i
  {
    match SegmentStep(h, codecs, dec, path, i, keyOffset)
    case Error => Error
    case NotFound => NotFound
    case Found((o, next)) => if next < |path| then Walk(h, codecs, dec, path, next, o) else Found(o)
  }

  /**
   * One round of the outer loop from index `i`: the sub key the segment
   * there names under the key at `keyOffset`, with the index the walk
   * goes on from.
   */
  function SegmentStep<U>(h: HiveBinsList, codecs: NK.NameCodecs, dec: Decoder<U>, path: seq<U>, i: nat, keyOffset: u32): (r: Outcome<(u32, nat)>)
    requires i < |path|
    ensures r.Found? ==> i < r.value.1 <= |path|
  {
    StepAfterScan(h, codecs, dec, path, i, keyOffset, ScanSegment(dec, codecs.upper, path, i, 0))
  }

  /**
   * The rest of the round once the segment from `i` is scanned: an empty
   * segment names no key; otherwise it is looked up under the key at
   * `keyOffset`.
   */
  function StepAfterScan<U>(h: HiveBinsList, codecs: NK.NameCodecs, dec: Decoder<U>, path: seq<U>, i: nat, keyOffset: u32,
                            scan: Result<SegmentScan>): (r: Outcome<(u32, nat)>)
    requires i < |path| && (scan.Ok? ==> i < scan.value.next <= |path|)
    ensures r.Found? ==> i < r.value.1 <= |path|
  {
    match scan
    case Err => Error
    case Ok(s) =>
      if SegmentLength(i, s) == 0 then NotFound
      else Advance(LookUp(h, codecs, keyOffset, s.hash, Segment(path, i, s), dec), s.next)
  }

  /** A lookup's outcome, with the index the walk goes on from when a key was found. */
  function Advance(found: Outcome<u32>, next: nat): (r: Outcome<(u32, nat)>)
    ensures r.Error? <==> found.Error?
    ensures r.Found? <==> found.Found?
    ensures r.Found? ==> r.value == (found.value, next)
  {
    match found
    case Error => Error
    case NotFound => NotFound
    case Found(o) => Found((o, next))
  }

  /**
   * libregf_key_tree_get_sub_key_by_utf8_path (and utf16): the offset of
   * the key the path leads to from the key at `keyOffset` (1), NotFound
   * (0) or Error (-1). A path longer than SSIZE_MAX is an error; one
   * leading separator unit is skipped; a path that is empty after it
   * leads to the starting key.
   */
  function GetSubKeyByPathOf<U(==)>(h: HiveBinsList, codecs: NK.NameCodecs, dec: Decoder<U>, separatorUnit: U,
                                     keyOffset: u32, path: seq<U>): (r: Outcome<u32>)
    ensures |path| > SSIZE_MAX ==> r == Error
    ensures |path| <= SSIZE_MAX && PathSegments(dec, codecs.upper, separatorUnit, path) == Ok([]) ==> r == Found(keyOffset)
    ensures r.Found? ==> PathSegments(dec, codecs.upper, separatorUnit, path).Ok?
  {
    if |path| > SSIZE_MAX then Error
    else
      var start := if |path| > 0 && path[0] == separatorUnit then 1 else 0;
      if start == |path| then Found(keyOffset)
      else Walk(h, codecs, dec, path, start, keyOffset)
  }

  /** The empty path and a lone separator lead to the starting key. */
  lemma EmptyPathIsStartKey<U>(h: HiveBinsList, codecs: NK.NameCodecs, dec: Decoder<U>, separatorUnit: U,
                                   keyOffset: u32, path: seq<U>)
    requires path == [] || path == [separatorUnit]
    ensures GetSubKeyByPathOf(h, codecs, dec, separatorUnit, keyOffset, path) == Found(keyOffset)
  {
  }

  /** A segment that starts with a separator or NUL, as between two adjacent separators, is no key. */
  lemma EmptySegmentIsNotFound<U>(h: HiveBinsList, codecs: NK.NameCodecs, dec: Decoder<U>, path: seq<U>, i: nat, keyOffset: u32)
    requires i < |path|
    requires DecodeAt(dec, path, i).Char? && DecodeAt(dec, path, i).next == i + 1 && IsTerminator(DecodeAt(dec, path, i).c)
    ensures Walk(h, codecs, dec, path, i, keyOffset) == NotFound
  {
  }

  /**
   * A key a non-empty walk reaches is a sub key of a key that reads: it
   * is the key offset of a descriptor in that key's sub keys list.
   */
  lemma {:induction false} WalkEndsAtSubKey<U>(h: HiveBinsList, codecs: NK.NameCodecs, dec: Decoder<U>, path: seq<U>, i: nat, keyOffset: u32)
    requires i < |path| && Walk(h, codecs, dec, path, i, keyOffset).Found?
    ensures exists parent: u32, d: SKL.KeyDescriptor :: (
      && KI.ReadKeyItem(h, codecs, parent).Ok?
      && d in KI.ReadKeyItem(h, codecs, parent).value.lists.subKeys
      && d.keyOffset == Walk(h, codecs, dec, path, i, keyOffset).value)
    decreases |path| - i
  {
    var step := SegmentStep(h, codecs, dec, path, i, keyOffset).value;
    if step.1 < |path| {
      WalkEndsAtSubKey(h, codecs, dec, path, step.1, step.0);
    } else {
      StepFindsSubKey(h, codecs, dec, path, i, keyOffset, ScanSegment(dec, codecs.upper, path, i, 0));
    }
  }

  /** A key one round finds is a sub key of the key it starts from. */
  lemma StepFindsSubKey<U>(h: HiveBinsList, codecs: NK.NameCodecs, dec: Decoder<U>, path: seq<U>, i: nat, keyOffset: u32,
                           scan: Result<SegmentScan>)
    requires i < |path| && (scan.Ok? ==> i < scan.value.next <= |path|)
    requires StepAfterScan(h, codecs, dec, path, i, keyOffset, scan).Found?
    ensures KI.ReadKeyItem(h, codecs, keyOffset).Ok?
    ensures exists d :: (d in KI.ReadKeyItem(h, codecs, keyOffset).value.lists.subKeys
      && d.keyOffset == StepAfterScan(h, codecs, dec, path, i, keyOffset, scan).value.0)
  {
    if scan.Ok? && SegmentLength(i, scan.value) != 0 {
      var s := scan.value;
      var found := LookUp(h, codecs, keyOffset, s.hash, Segment(path, i, s), dec);
      StepOfLookUp(h, codecs, dec, path, i, keyOffset, scan, found);
      if found.Found? {
        LookUpFindsSubKey(h, codecs, keyOffset, s.hash, Segment(path, i, s), dec);
      }
    }
  }

  /** A round over a non-empty segment gives what looking it up gives, with the index after it. */
  lemma StepOfLookUp<U>(h: HiveBinsList, codecs: NK.NameCodecs, dec: Decoder<U>, path: seq<U>, i: nat, keyOffset: u32,
                        scan: Result<SegmentScan>, found: Outcome<u32>)
    requires i < |path| && scan.Ok? && i < scan.value.next <= |path| && SegmentLength(i, scan.value) != 0
    requires found == LookUp(h, codecs, keyOffset, scan.value.hash, Segment(path, i, scan.value), dec)
    ensures StepAfterScan(h, codecs, dec, path, i, keyOffset, scan) == Advance(found, scan.value.next)
  {
  }

  /** A key one lookup step finds is a sub key of the key it starts from. */
  lemma LookUpFindsSubKey<Q>(h: HiveBinsList, codecs: NK.NameCodecs, keyOffset: u32, nameHash: u32, segment: seq<Q>, dec: Decoder<Q>)
    requires LookUp(h, codecs, keyOffset, nameHash, segment, dec).Found?
    ensures KI.ReadKeyItem(h, codecs, keyOffset).Ok?
    ensures exists d :: (d in KI.ReadKeyItem(h, codecs, keyOffset).value.lists.subKeys
      && d.keyOffset == LookUp(h, codecs, keyOffset, nameHash, segment, dec).value)
  {
    var item := KI.ReadKeyItem(h, codecs, keyOffset).value;
    KI.FindSubKeyIsFirstMatch(h, codecs, item.lists.subKeys, 0, nameHash, segment, dec);
    var d := KI.FindSubKey(h, codecs, item.lists.subKeys, 0, nameHash, segment, dec).value;
    assert d in item.lists.subKeys;
  }

  // ------------------------------------------------- what a path names

  /** The key a descriptor points to reads, and its name equals `segment` ignoring case. */
  predicate Names<Q>(h: HiveBinsList, codecs: NK.NameCodecs, d: SKL.KeyDescriptor, segment: seq<Q>, dec: Decoder<Q>) {
    match KI.NamedKeyAt(h, codecs, d.keyOffset)
    case Err => false
    case Ok(k) =>
      |segment| <= SSIZE_MAX && Compare(NK.NameDecoder(k.fields.flags, codecs), k.name, dec, segment, codecs.upper) == Ok(true)
  }

  /**
   * The `j`-th sub key of the key at `keyOffset` is the first one named
   * `segment`: the key item reads, and every sub key before it reads and
   * has another name.
   */
  predicate FirstNamed<Q>(h: HiveBinsList, codecs: NK.NameCodecs, keyOffset: u32, segment: seq<Q>, dec: Decoder<Q>, j: nat) {
    match KI.ReadKeyItem(h, codecs, keyOffset)
    case Err => false
    case Ok(item) =>
      && j < |item.lists.subKeys|
      && Names(h, codecs, item.lists.subKeys[j], segment, dec)
      && forall m :: 0 <= m < j ==>
           KI.NamedKeyAt(h, codecs, item.lists.subKeys[m].keyOffset).Ok? && !Names(h, codecs, item.lists.subKeys[m], segment, dec)
  }

  /** `o` is the offset of the first sub key of the key at `keyOffset` named `segment`. */
  ghost predicate NamedSubKey<Q>(h: HiveBinsList, codecs: NK.NameCodecs, keyOffset: u32, segment: seq<Q>, dec: Decoder<Q>, o: u32) {
    exists j: nat :: FirstNamed(h, codecs, keyOffset, segment, dec, j)
      && KI.ReadKeyItem(h, codecs, keyOffset).value.lists.subKeys[j].keyOffset == o
  }

  /**
   * With the segment's own name hash, a descriptor matches exactly when it
   * names the segment: the hash gate never turns a matching name away.
   */
  lemma DescriptorMatchesNames<Q>(h: HiveBinsList, codecs: NK.NameCodecs, d: SKL.KeyDescriptor, segment: seq<Q>, dec: Decoder<Q>)
    ensures KI.DescriptorMatches(h, codecs, d, NameHash(dec, codecs.upper, segment, 0, 0).hash, segment, dec) == Ok(true)
        <==> Names(h, codecs, d, segment, dec)
  {
    match KI.NamedKeyAt(h, codecs, d.keyOffset)
    case Err =>
    case Ok(k) =>
      var nameDec := NK.NameDecoder(k.fields.flags, codecs);
      if |segment| <= SSIZE_MAX && Compare(nameDec, k.name, dec, segment, codecs.upper) == Ok(true) {
        MatchImpliesEqualHashes(nameDec, k.name, dec, segment, codecs.upper);
      }
  }

  /**
   * When some sub key is named by a decodable segment, every other sub key
   * that reads compares to a definite answer: a descriptor that does not
   * name the segment does not match.
   */
  lemma OtherNameDoesNotMatch<Q>(h: HiveBinsList, codecs: NK.NameCodecs, d: SKL.KeyDescriptor, e: SKL.KeyDescriptor,
                                 segment: seq<Q>, dec: Decoder<Q>)
    requires Names(h, codecs, e, segment, dec)
    requires KI.NamedKeyAt(h, codecs, d.keyOffset).Ok? && !Names(h, codecs, d, segment, dec)
    ensures KI.DescriptorMatches(h, codecs, d, NameHash(dec, codecs.upper, segment, 0, 0).hash, segment, dec) == Ok(false)
  {
    var ke := KI.NamedKeyAt(h, codecs, e.keyOffset).value;
    CompareMeaning(NK.NameDecoder(ke.fields.flags, codecs), ke.name, dec, segment, codecs.upper);
    assert DecodeAll(dec, segment, 0).Some?;
    var k := KI.NamedKeyAt(h, codecs, d.keyOffset).value;
    var nameDec := NK.NameDecoder(k.fields.flags, codecs);
    assert NameHash(nameDec, codecs.upper, k.name, 0, 0).ok;
    NameHashIsHashOfDecoded(nameDec, codecs.upper, k.name, 0, 0);
    CompareFromMeaning(nameDec, k.name, dec, segment, codecs.upper, 0, 0, false);
    var c := Compare(nameDec, k.name, dec, segment, codecs.upper);
    assert c.Ok? && c != Ok(true);
    assert !c.value;
  }

  /**
   * One step of the walk, looked up with the segment's own name hash,
   * finds exactly the first sub key the segment names.
   */
  lemma LookUpIsFirstNamed<Q>(h: HiveBinsList, codecs: NK.NameCodecs, keyOffset: u32, segment: seq<Q>, dec: Decoder<Q>, o: u32)
    ensures LookUp(h, codecs, keyOffset, NameHash(dec, codecs.upper, segment, 0, 0).hash, segment, dec) == Found(o)
        <==> NamedSubKey(h, codecs, keyOffset, segment, dec, o)
  {
    if LookUp(h, codecs, keyOffset, NameHash(dec, codecs.upper, segment, 0, 0).hash, segment, dec) == Found(o) {
      FoundIsFirstNamed(h, codecs, keyOffset, segment, dec, o);
    }
    if NamedSubKey(h, codecs, keyOffset, segment, dec, o) {
      var subs := KI.ReadKeyItem(h, codecs, keyOffset).value.lists.subKeys;
      var j: nat :| FirstNamed(h, codecs, keyOffset, segment, dec, j) && subs[j].keyOffset == o;
      FindsFirstMatch(h, codecs, subs, 0, j, segment, dec);
    }
  }

  /** What a lookup with the segment's own name hash finds is the first sub key it names. */
  lemma FoundIsFirstNamed<Q>(h: HiveBinsList, codecs: NK.NameCodecs, keyOffset: u32, segment: seq<Q>, dec: Decoder<Q>, o: u32)
    requires LookUp(h, codecs, keyOffset, NameHash(dec, codecs.upper, segment, 0, 0).hash, segment, dec) == Found(o)
    ensures NamedSubKey(h, codecs, keyOffset, segment, dec, o)
  {
    var hash := NameHash(dec, codecs.upper, segment, 0, 0).hash;
    var subs := KI.ReadKeyItem(h, codecs, keyOffset).value.lists.subKeys;
    KI.FindSubKeyIsFirstMatch(h, codecs, subs, 0, hash, segment, dec);
    var j :| 0 <= j < |subs|
      && subs[j] == KI.FindSubKey(h, codecs, subs, 0, hash, segment, dec).value
      && KI.DescriptorMatches(h, codecs, subs[j], hash, segment, dec) == Ok(true)
      && forall k :: 0 <= k < j ==> KI.DescriptorMatches(h, codecs, subs[k], hash, segment, dec) == Ok(false);
    DescriptorMatchesNames(h, codecs, subs[j], segment, dec);
    forall m | 0 <= m < j
      ensures KI.NamedKeyAt(h, codecs, subs[m].keyOffset).Ok? && !Names(h, codecs, subs[m], segment, dec)
    {
      DescriptorMatchesNames(h, codecs, subs[m], segment, dec);
    }
    assert FirstNamed(h, codecs, keyOffset, segment, dec, j);
  }

  /** Scanning from `i` up to the first named sub key `j` finds it. */
  lemma {:induction false} FindsFirstMatch<Q>(h: HiveBinsList, codecs: NK.NameCodecs, subs: seq<SKL.KeyDescriptor>, i: nat, j: nat,
                                              segment: seq<Q>, dec: Decoder<Q>)
    requires i <= j < |subs|
    requires Names(h, codecs, subs[j], segment, dec)
    requires forall m :: i <= m < j ==> KI.NamedKeyAt(h, codecs, subs[m].keyOffset).Ok? && !Names(h, codecs, subs[m], segment, dec)
    ensures KI.FindSubKey(h, codecs, subs, i, NameHash(dec, codecs.upper, segment, 0, 0).hash, segment, dec) == Found(subs[j])
    decreases j - i
  {
    var hash := NameHash(dec, codecs.upper, segment, 0, 0).hash;
    if i == j {
      DescriptorMatchesNames(h, codecs, subs[j], segment, dec);
      assert KI.DescriptorMatches(h, codecs, subs[i], hash, segment, dec) == Ok(true);
    } else {
      OtherNameDoesNotMatch(h, codecs, subs[i], subs[j], segment, dec);
      assert KI.DescriptorMatches(h, codecs, subs[i], hash, segment, dec) == Ok(false);
      FindsFirstMatch(h, codecs, subs, i + 1, j, segment, dec);
    }
  }

  /**
   * The meaning of a list of segments from the key at `keyOffset`: each
   * segment in turn leads to the first sub key it names (looked up with
   * its own name hash); an empty segment names no key.
   */
  function Resolve<U>(h: HiveBinsList, codecs: NK.NameCodecs, dec: Decoder<U>, keyOffset: u32, segments: seq<seq<U>>): Outcome<u32>
    decreases |segments|
  {
    if segments == [] then Found(keyOffset)
    else if segments[0] == [] then NotFound
    else match LookUp(h, codecs, keyOffset, NameHash(dec, codecs.upper, segments[0], 0, 0).hash, segments[0], dec)
      case Error => Error
      case NotFound => NotFound
      case Found(o) => Resolve(h, codecs, dec, o, segments[1..])
  }

  /**
   * A list of segments leads to `o` exactly when all but the last lead to
   * some key, the last is not empty, and `o` is the first sub key of that
   * key the last segment names.
   */
  lemma {:induction false} ResolveEndsAtNamedKey<U>(h: HiveBinsList, codecs: NK.NameCodecs, dec: Decoder<U>, keyOffset: u32,
                                                    segments: seq<seq<U>>, last: seq<U>, o: u32)
    ensures Resolve(h, codecs, dec, keyOffset, segments + [last]) == Found(o) <==>
      && Resolve(h, codecs, dec, keyOffset, segments).Found?
      && last != []
      && NamedSubKey(h, codecs, Resolve(h, codecs, dec, keyOffset, segments).value, last, dec, o)
    decreases |segments|
  {
    var all := segments + [last];
    if segments == [] {
      assert all == [last] && all[1..] == [];
      LookUpIsFirstNamed(h, codecs, keyOffset, last, dec, o);
    } else {
      assert all[0] == segments[0] && all[1..] == segments[1..] + [last];
      var first := LookUp(h, codecs, keyOffset, NameHash(dec, codecs.upper, segments[0], 0, 0).hash, segments[0], dec);
      if segments[0] != [] && first.Found? {
        ResolveEndsAtNamedKey(h, codecs, dec, first.value, segments[1..], last, o);
      }
    }
  }

  /**
   * Conversely, when each segment names a sub key of the key the one
   * before it led to, the segments lead to the last of those keys.
   */
  lemma {:induction false} ChainResolves<U>(h: HiveBinsList, codecs: NK.NameCodecs, dec: Decoder<U>, keys: seq<u32>, segments: seq<seq<U>>)
    requires |keys| == |segments| + 1
    requires forall m :: 0 <= m < |segments| ==>
      segments[m] != [] && NamedSubKey(h, codecs, keys[m], segments[m], dec, keys[m + 1])
    ensures Resolve(h, codecs, dec, keys[0], segments) == Found(keys[|segments|])
    decreases |segments|
  {
    if segments != [] {
      assert segments[0] != [] && NamedSubKey(h, codecs, keys[0], segments[0], dec, keys[1]);
      LookUpIsFirstNamed(h, codecs, keys[0], segments[0], dec, keys[1]);
      var ks, ss := keys[1..], segments[1..];
      forall m | 0 <= m < |ss|
        ensures ss[m] != [] && NamedSubKey(h, codecs, ks[m], ss[m], dec, ks[m + 1])
      {
        assert ss[m] == segments[m + 1] && ks[m] == keys[m + 1] && ks[m + 1] == keys[m + 2];
      }
      ChainResolves(h, codecs, dec, ks, ss);
    }
  }

  /**
   * The segments of the path from index `i`, cut where the segment loop
   * cuts them; Err when a character fails to decode.
   */
  function Segments<U>(dec: Decoder<U>, upper: Upper, path: seq<U>, i: nat): Result<seq<seq<U>>>
    requires i < |path|
    decreases |path| - i
  {
    match ScanSegment(dec, upper, path, i, 0)
    case Err => Err
    case Ok(s) =>
      var segment := Segment(path, i, s);
      if s.next < |path| then
        match Segments(dec, upper, path, s.next)
        case Err => Err
        case Ok(rest) => Ok([segment] + rest)
      else Ok([segment])
  }

  /**
   * The walk from index `i` resolves the path's segments: when every
   * segment decodes, it gives what following the segments by name gives.
   */
  lemma {:induction false} WalkIsResolve<U>(h: HiveBinsList, codecs: NK.NameCodecs, dec: Decoder<U>, path: seq<U>, i: nat, keyOffset: u32)
    requires ReadsOwnUnits(dec, path)
    requires i < |path|
    ensures Segments(dec, codecs.upper, path, i).Ok? ==>
      Walk(h, codecs, dec, path, i, keyOffset) == Resolve(h, codecs, dec, keyOffset, Segments(dec, codecs.upper, path, i).value)
    decreases |path| - i
  {
    var scan := ScanSegment(dec, codecs.upper, path, i, 0);
    if scan.Ok? {
      var s := scan.value;
      var segment := Segment(path, i, s);
      StepHashesSegment(h, codecs, dec, path, i, keyOffset);
      if segment != [] {
        var found := LookUp(h, codecs, keyOffset, NameHash(dec, codecs.upper, segment, 0, 0).hash, segment, dec);
        if found.Found? && s.next < |path| {
          WalkIsResolve(h, codecs, dec, path, s.next, found.value);
          if Segments(dec, codecs.upper, path, s.next).Ok? {
            ResolveCons(h, codecs, dec, keyOffset, segment, Segments(dec, codecs.upper, path, s.next).value);
          }
        } else if found.Found? {
          ResolveCons(h, codecs, dec, keyOffset, segment, []);
        }
      }
    }
  }

  /**
   * One round of the walk over a segment that decodes: an empty segment
   * is no key; otherwise the segment is looked up with its own name hash.
   */
  lemma StepHashesSegment<U>(h: HiveBinsList, codecs: NK.NameCodecs, dec: Decoder<U>, path: seq<U>, i: nat, keyOffset: u32)
    requires ReadsOwnUnits(dec, path)
    requires i < |path| && ScanSegment(dec, codecs.upper, path, i, 0).Ok?
    ensures var s := ScanSegment(dec, codecs.upper, path, i, 0).value;
      var segment := Segment(path, i, s);
      SegmentStep(h, codecs, dec, path, i, keyOffset) ==
        if segment == [] then NotFound
        else Advance(LookUp(h, codecs, keyOffset, NameHash(dec, codecs.upper, segment, 0, 0).hash, segment, dec), s.next)
  {
    SegmentHash(dec, codecs.upper, path, i);
  }

  /** The hash the segment loop computes is the name hash of the segment. */
  lemma SegmentHash<U>(dec: Decoder<U>, upper: Upper, path: seq<U>, i: nat)
    requires ReadsOwnUnits(dec, path)
    requires i < |path| && ScanSegment(dec, upper, path, i, 0).Ok?
    ensures var s := ScanSegment(dec, upper, path, i, 0).value;
      NameHash(dec, upper, Segment(path, i, s), 0, 0) == HashFold(true, s.hash)
  {
    ScannedHashIsSliceHash(dec, upper, path, i, i, 0);
  }

  /** Resolving a non-empty first segment looks it up, then resolves the rest from the key found. */
  lemma ResolveCons<U>(h: HiveBinsList, codecs: NK.NameCodecs, dec: Decoder<U>, keyOffset: u32, segment: seq<U>, rest: seq<seq<U>>)
    requires segment != []
    ensures Resolve(h, codecs, dec, keyOffset, [segment] + rest) ==
      match LookUp(h, codecs, keyOffset, NameHash(dec, codecs.upper, segment, 0, 0).hash, segment, dec)
      case Error => Error
      case NotFound => NotFound
      case Found(o) => Resolve(h, codecs, dec, o, rest)
  {
    assert ([segment] + rest)[0] == segment && ([segment] + rest)[1..] == rest;
  }

  /**
   * The segments of a whole path: one leading separator unit is skipped,
   * and a path that is empty after it has none.
   */
  function PathSegments<U(==)>(dec: Decoder<U>, upper: Upper, separatorUnit: U, path: seq<U>): Result<seq<seq<U>>> {
    var start := if |path| > 0 && path[0] == separatorUnit then 1 else 0;
    if start == |path| then Ok([]) else Segments(dec, upper, path, start)
  }

  /**
   * Lookup by path follows the path's segments by name: for a path
   * within SSIZE_MAX whose segments decode, it gives what resolving the
   * segments gives.
   */
  lemma GetSubKeyByPathResolves<U>(h: HiveBinsList, codecs: NK.NameCodecs, dec: Decoder<U>, separatorUnit: U,
                                       keyOffset: u32, path: seq<U>)
    requires ReadsOwnUnits(dec, path)
    ensures |path| <= SSIZE_MAX && PathSegments(dec, codecs.upper, separatorUnit, path).Ok? ==>
      GetSubKeyByPathOf(h, codecs, dec, separatorUnit, keyOffset, path)
        == Resolve(h, codecs, dec, keyOffset, PathSegments(dec, codecs.upper, separatorUnit, path).value)
  {
    var start := if |path| > 0 && path[0] == separatorUnit then 1 else 0;
    if start < |path| {
      WalkIsResolve(h, codecs, dec, path, start, keyOffset);
    }
  }

  /** The segment loop of libregf_key_tree_get_sub_key_by_utf8_path, from `start`. */
  method ReadSegment<U>(dec: Decoder<U>, upper: Upper, path: seq<U>, start: nat) returns (r: Result<SegmentScan>)
    requires start <= |path|
    ensures r == ScanSegment(dec, upper, path, start, 0)
  {
    var index := start;
    var nameHash: u32 := 0;
    while index < |path|
      invariant start <= index <= |path|
      invariant ScanSegment(dec, upper, path, start, 0) == ScanSegment(dec, upper, path, index, nameHash)
      decreases |path| - index
    {
      var step := DecodeAt(dec, path, index);
      if step.Invalid? {
        return Err;
      }
      if IsTerminator(step.c) {
        return Ok(SegmentScan(step.next, true, nameHash));
      }
      index := step.next;
      nameHash := HashStep(nameHash, step.c, upper);
    }
    return Ok(SegmentScan(index, false, nameHash));
  }

  /** One segment's step of the lookup loop, with a key item of its own. */
  method LookUpSegment<Q>(h: HiveBinsList, codecs: NK.NameCodecs, keyOffset: u32, nameHash: u32, segment: seq<Q>, dec: Decoder<Q>)
    returns (r: Outcome<u32>)
    ensures r == LookUp(h, codecs, keyOffset, nameHash, segment, dec)
  {
    var item := new KI.KeyItem();
    var ok := item.Read(h, codecs, keyOffset);
    if !ok {
      return Error;
    }
    var found := item.GetSubKeyDescriptorByName(h, codecs, nameHash, segment, dec);
    if found.Error? {
      return Error;
    }
    if found.NotFound? {
      return NotFound;
    }
    return Found(found.value.keyOffset);
  }

  /**
   * One round of the lookup loop from `index`: read the segment, look it
   * up under the key at `keyOffset`, and give the sub key found with the
   * index the walk goes on from.
   */
  method WalkSegment<U>(h: HiveBinsList, codecs: NK.NameCodecs, dec: Decoder<U>, path: seq<U>, index: nat, keyOffset: u32)
    returns (r: Outcome<(u32, nat)>)
    requires index < |path|
    ensures r == SegmentStep(h, codecs, dec, path, index, keyOffset)
  {
    var segment := ReadSegment(dec, codecs.upper, path, index);
    r := LookUpScanned(h, codecs, dec, path, index, keyOffset, segment);
  }

  /** The rest of one round of the lookup loop, once the segment is scanned. */
  method LookUpScanned<U>(h: HiveBinsList, codecs: NK.NameCodecs, dec: Decoder<U>, path: seq<U>, index: nat, keyOffset: u32,
                          segment: Result<SegmentScan>) returns (r: Outcome<(u32, nat)>)
    requires index < |path| && (segment.Ok? ==> index < segment.value.next <= |path|)
    ensures r == StepAfterScan(h, codecs, dec, path, index, keyOffset, segment)
  {
    if segment.Err? {
      return Error;
    }
    if SegmentLength(index, segment.value) == 0 {
      return NotFound;
    }
    var result := LookUpSegment(h, codecs, keyOffset, segment.value.hash, Segment(path, index, segment.value), dec);
    StepOfLookUp(h, codecs, dec, path, index, keyOffset, segment, result);
    match result
    case Error => return Error;
    case NotFound => return NotFound;
    case Found(o) => return Found((o, segment.value.next));
  }

  /**
   * The lookup loop of libregf_key_tree_get_sub_key_by_utf8_path: the
   * offset of the key the path leads to, which the source then opens.
   */
  method GetSubKeyByPath<U(==)>(h: HiveBinsList, codecs: NK.NameCodecs, dec: Decoder<U>, separatorUnit: U,
                                keyOffset: u32, path: seq<U>) returns (r: Outcome<u32>)
    ensures r == GetSubKeyByPathOf(h, codecs, dec, separatorUnit, keyOffset, path)
  {
    if |path| > SSIZE_MAX {
      return Error;
    }
    var subKeyOffset := keyOffset;
    var index := 0;
    if |path| > 0 && path[index] == separatorUnit {
      index := index + 1;
    }
    if index == |path| {
      return Found(subKeyOffset);
    }
    while index < |path|
      invariant index <= |path|
      invariant index < |path| ==> Walk(h, codecs, dec, path, index, subKeyOffset) == GetSubKeyByPathOf(h, codecs, dec, separatorUnit, keyOffset, path)
      invariant index == |path| ==> Found(subKeyOffset) == GetSubKeyByPathOf(h, codecs, dec, separatorUnit, keyOffset, path)
      decreases |path| - index
    {
      var step := WalkSegment(h, codecs, dec, path, index, subKeyOffset);
      if step.Error? {
        return Error;
      }
      if step.NotFound? {
        return NotFound;
      }
      subKeyOffset := step.value.0;
      index := step.value.1;
    }
    return Found(subKeyOffset);
  }
}
