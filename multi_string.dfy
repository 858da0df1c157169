/**
 * REG_MULTI_SZ values (libregf_multi_string.c): a sequence of UTF-16
 * little-endian strings, each ended by a 2-byte 0x0000 unit at an even
 * offset, and the sequence ended by an empty string. A first pass counts
 * the strings, a second records where each one lies; a missing terminator
 * marks the item corrupted instead of failing.
 */
module MultiString {
  import opened Common

  /** Where the scan for a terminator stopped, and whether it found one. */
  datatype Scan = Scan(end: nat, found: bool)

  /**
   * The inner loop of both passes: from `off`, step over 2-byte units until
   * a 0x0000 unit (which is consumed) or until fewer than 2 bytes remain.
   */
  function ScanString(data: seq<u8>, off: nat): (r: Scan)
    requires off <= |data|
    ensures off <= r.end <= |data| && (r.end - off) % 2 == 0
    ensures r.found ==> off + 2 <= r.end && data[r.end - 2] == 0 && data[r.end - 1] == 0
    ensures !r.found ==> |data| < r.end + 2
    decreases |data| - off
  {
    if |data| < off + 2 then Scan(off, false)
    else if data[off] == 0 && data[off + 1] == 0 then Scan(off + 2, true)
    else ScanString(data, off + 2)
  }

  /** The first pass's outcome: the strings counted, where it stopped, and whether a terminator was missing. */
  datatype Count = Count(strings: nat, end: nat, missingEnd: bool)

  /**
   * The first pass from `off`, having counted `count` strings: stop at the
   * end of the data, at a string without terminator, or at the first empty
   * string, which ends the sequence.
   */
  function CountStrings(data: seq<u8>, off: nat, count: nat): (r: Count)
    requires off <= |data|
    ensures off <= r.end <= |data| && r.strings >= count
    decreases |data| - off
  {
    if off >= |data| then Count(count, off, false)
    else
      var s := ScanString(data, off);
      if !s.found then Count(count, s.end, true)
      else if s.end - off == 2 then Count(count, s.end, false)
      else CountStrings(data, s.end, count + 1)
  }

  /** The second pass from `off`: the next `n` strings, each with its terminator. */
  function CollectStrings(data: seq<u8>, off: nat, n: nat): (r: seq<seq<u8>>)
    requires off <= |data|
    ensures |r| <= n
    decreases n
  {
    if n == 0 || off >= |data| then []
    else
      var s := ScanString(data, off);
      [data[off..s.end]] + CollectStrings(data, s.end, n - 1)
  }

  /** The strings of a multi-string and whether reading it found it corrupted. */
  datatype Split = Split(strings: seq<seq<u8>>, corrupted: bool)

  /**
   * What libregf_internal_multi_string_read_data makes of its data. The data
   * must hold 2 to MEMORY_MAXIMUM_ALLOCATION_SIZE bytes. The item is
   * corrupted when a string has no terminator or the data read by the first
   * pass does not end in 0x0000.
   */
  function ParseMultiString(data: seq<u8>): (r: Result<Split>)
    ensures r.Ok? <==> 2 <= |data| <= MEMORY_MAXIMUM_ALLOCATION_SIZE
  {
    if |data| < 2 || |data| > MEMORY_MAXIMUM_ALLOCATION_SIZE then Err
    else
      var c := CountStrings(data, 0, 0);
      CountEndsAfterFirstUnit(data);
      var corrupted := c.missingEnd || data[c.end - 2] != 0 || data[c.end - 1] != 0;
      Ok(Split(CollectStrings(data, 0, c.strings), corrupted))
  }

  /** The first pass always consumes the first unit, so the final check reads inside the data. */
  lemma CountEndsAfterFirstUnit(data: seq<u8>)
    requires |data| >= 2
    ensures CountStrings(data, 0, 0).end >= 2
  {
    var s := ScanString(data, 0);
    if !(data[0] == 0 && data[1] == 0) {
      assert s == ScanString(data, 2);
    }
    if s.found && s.end - 0 != 2 {
      CountEndAtLeast(data, s.end, 1);
    }
  }

  lemma {:induction false} CountEndAtLeast(data: seq<u8>, off: nat, count: nat)
    requires off <= |data|
    ensures CountStrings(data, off, count).end >= off
  {
  }

  /** True when `s` has no 0x0000 unit at an even offset. */
  predicate NoNulUnit(s: seq<u8>)
    decreases |s|
  {
    |s| < 2 || (!(s[0] == 0 && s[1] == 0) && NoNulUnit(s[2..]))
  }

  /** A recorded string: at least one character, whole units, ended by its only aligned 0x0000 unit. */
  predicate Terminated(s: seq<u8>) {
    && 4 <= |s| && |s| % 2 == 0
    && s[|s| - 2] == 0 && s[|s| - 1] == 0
    && NoNulUnit(s[..|s| - 2])
  }

  /** A found terminator is the first aligned 0x0000 unit from `off`. */
  lemma {:induction false} ScanFindsFirstNul(data: seq<u8>, off: nat)
    requires off <= |data|
    ensures var s := ScanString(data, off);
      s.found ==> NoNulUnit(data[off..s.end - 2])
    decreases |data| - off
  {
    var s := ScanString(data, off);
    if |data| >= off + 2 && !(data[off] == 0 && data[off + 1] == 0) {
      ScanFindsFirstNul(data, off + 2);
      if s.found {
        var whole := data[off..s.end - 2];
        assert whole[0] == data[off] && whole[1] == data[off + 1];
        assert whole[2..] == data[off + 2..s.end - 2];
      }
    }
  }

  /** A non-empty string the scan finds is a recorded string. */
  lemma ScannedIsTerminated(data: seq<u8>, off: nat)
    requires off <= |data|
    requires ScanString(data, off).found && ScanString(data, off).end - off != 2
    ensures Terminated(data[off..ScanString(data, off).end])
  {
    var e := ScanString(data, off).end;
    ScanFindsFirstNul(data, off);
    var w := data[off..e];
    assert w[..|w| - 2] == data[off..e - 2];
    assert w[|w| - 2] == data[e - 2] && w[|w| - 1] == data[e - 1];
  }

  /**
   * Every string the second pass records, for the count the first pass
   * found, is a recorded string: split at the first aligned 0x0000 unit.
   */
  lemma {:induction false} CountedStringsAreTerminated(data: seq<u8>, off: nat, count: nat)
    requires off <= |data|
    ensures var c := CountStrings(data, off, count);
      var strings := CollectStrings(data, off, c.strings - count);
      && |strings| == c.strings - count
      && forall i :: 0 <= i < |strings| ==> Terminated(strings[i])
    decreases |data| - off
  {
    var c := CountStrings(data, off, count);
    if off < |data| {
      var s := ScanString(data, off);
      if s.found && s.end - off != 2 {
        ScannedIsTerminated(data, off);
        CountedStringsAreTerminated(data, s.end, count + 1);
        var rest := CollectStrings(data, s.end, c.strings - (count + 1));
        var strings := CollectStrings(data, off, c.strings - count);
        assert strings == [data[off..s.end]] + rest;
        forall i | 0 <= i < |strings|
          ensures Terminated(strings[i])
        {
          if i > 0 {
            assert strings[i] == rest[i - 1];
          }
        }
      }
    }
  }

  /** The strings one after another. */
  function Flatten(ss: seq<seq<u8>>): seq<u8> {
    if ss == [] then [] else ss[0] + Flatten(ss[1..])
  }

  /** The recorded strings follow each other from `off`: together they are a slice of the data. */
  lemma {:induction false} CollectedStringsTile(data: seq<u8>, off: nat, n: nat)
    requires off <= |data|
    ensures var f := Flatten(CollectStrings(data, off, n));
      off + |f| <= |data| && f == data[off..off + |f|]
    decreases n
  {
    if n > 0 && off < |data| {
      var s := ScanString(data, off);
      CollectedStringsTile(data, s.end, n - 1);
      var rest := CollectStrings(data, s.end, n - 1);
      var strings := CollectStrings(data, off, n);
      assert strings == [data[off..s.end]] + rest;
      assert strings[1..] == rest;
      assert Flatten(strings) == data[off..s.end] + Flatten(rest);
      assert data[off..s.end] + data[s.end..s.end + |Flatten(rest)|] == data[off..s.end + |Flatten(rest)|];
    }
  }

  /** The encoding of a list of strings: each followed by 0x0000, then the empty string. */
  function Join(ss: seq<seq<u8>>): seq<u8> {
    if ss == [] then [0, 0] else ss[0] + [0, 0] + Join(ss[1..])
  }

  /** Each string with its terminator appended. */
  function WithTerminators(ss: seq<seq<u8>>): (r: seq<seq<u8>>)
    ensures |r| == |ss|
  {
    if ss == [] then [] else [ss[0] + [0, 0]] + WithTerminators(ss[1..])
  }

  /** Strings a writer may join: non-empty, whole 2-byte units, no 0x0000 unit. */
  predicate Joinable(ss: seq<seq<u8>>) {
    ss == [] || (|ss[0]| > 0 && |ss[0]| % 2 == 0 && NoNulUnit(ss[0]) && Joinable(ss[1..]))
  }

  /** Scanning a NUL-free string followed by 0x0000 stops right after the terminator. */
  lemma {:induction false} ScanJoined(data: seq<u8>, off: nat, s: seq<u8>)
    requires |s| % 2 == 0 && NoNulUnit(s)
    requires off + |s| + 2 <= |data| && data[off..off + |s| + 2] == s + [0, 0]
    ensures ScanString(data, off) == Scan(off + |s| + 2, true)
    decreases |s|
  {
    var w := data[off..off + |s| + 2];
    assert w[0] == data[off] && w[1] == data[off + 1];
    if |s| > 0 {
      var t := s[2..];
      assert w[2..] == data[off + 2..off + 2 + |t| + 2];
      assert (s + [0, 0])[2..] == t + [0, 0];
      ScanJoined(data, off + 2, t);
    }
  }

  /** The first pass counts every joined string and stops after the final empty one. */
  lemma {:induction false} CountJoin(data: seq<u8>, off: nat, ss: seq<seq<u8>>, count: nat)
    requires Joinable(ss)
    requires off + |Join(ss)| <= |data| && data[off..off + |Join(ss)|] == Join(ss)
    ensures CountStrings(data, off, count) == Count(count + |ss|, off + |Join(ss)|, false)
    decreases |ss|
  {
    if ss == [] {
      var w := data[off..off + |Join(ss)|];
      assert w[0] == data[off] && w[1] == data[off + 1];
      ScanJoined(data, off, []);
    } else {
      var s := ss[0];
      var next := off + |s| + 2;
      JoinStep(data, off, ss);
      ScanJoined(data, off, s);
      CountStep(data, off, count, next);
      CountJoin(data, next, ss[1..], count + 1);
    }
  }

  /** A string of more than its terminator is counted and the count goes on after it. */
  lemma CountStep(data: seq<u8>, off: nat, count: nat, next: nat)
    requires off + 2 < next <= |data| && ScanString(data, off) == Scan(next, true)
    ensures CountStrings(data, off, count) == CountStrings(data, next, count + 1)
  {
  }

  /** The second pass recovers every joined string with its terminator. */
  lemma {:induction false} CollectJoin(data: seq<u8>, off: nat, ss: seq<seq<u8>>)
    requires Joinable(ss)
    requires off + |Join(ss)| <= |data| && data[off..off + |Join(ss)|] == Join(ss)
    ensures CollectStrings(data, off, |ss|) == WithTerminators(ss)
    decreases |ss|
  {
    if ss != [] {
      var s := ss[0];
      var next := off + |s| + 2;
      JoinStep(data, off, ss);
      ScanJoined(data, off, s);
      CollectJoin(data, next, ss[1..]);
      assert ScanString(data, off).end == next;
      assert data[off..next] == s + [0, 0];
      assert CollectStrings(data, off, |ss|) == [data[off..next]] + CollectStrings(data, next, |ss| - 1);
      assert WithTerminators(ss) == [s + [0, 0]] + WithTerminators(ss[1..]);
    }
  }

  /** Peeling the first string off a joined list. */
  lemma JoinStep(data: seq<u8>, off: nat, ss: seq<seq<u8>>)
    requires ss != []
    requires off + |Join(ss)| <= |data| && data[off..off + |Join(ss)|] == Join(ss)
    ensures |Join(ss)| == |ss[0]| + 2 + |Join(ss[1..])|
    ensures var next := off + |ss[0]| + 2;
      && data[off..next] == ss[0] + [0, 0]
      && next + |Join(ss[1..])| <= |data|
      && data[next..next + |Join(ss[1..])|] == Join(ss[1..])
  {
    var s := ss[0];
    var j := Join(ss);
    var next := off + |s| + 2;
    assert j == (s + [0, 0]) + Join(ss[1..]);
    SliceOfSlice(data, off, off + |j|, 0, |s| + 2);
    SliceOfSlice(data, off, off + |j|, |s| + 2, |j|);
    assert j[..|s| + 2] == s + [0, 0];
    assert j[|s| + 2..] == Join(ss[1..]);
  }

  /** Reading joined strings gives them back, each with its terminator, uncorrupted. */
  lemma ParseJoin(ss: seq<seq<u8>>)
    requires Joinable(ss) && |Join(ss)| <= MEMORY_MAXIMUM_ALLOCATION_SIZE
    ensures ParseMultiString(Join(ss)) == Ok(Split(WithTerminators(ss), false))
  {
    var d := Join(ss);
    JoinEndsInNul(ss);
    assert d[0..|d|] == d;
    CountJoin(d, 0, ss, 0);
    CollectJoin(d, 0, ss);
  }

  lemma {:induction false} JoinEndsInNul(ss: seq<seq<u8>>)
    ensures |Join(ss)| >= 2 && Join(ss)[|Join(ss)| - 2] == 0 && Join(ss)[|Join(ss)| - 1] == 0
  {
    if ss != [] {
      JoinEndsInNul(ss[1..]);
    }
  }

  /** Data with no terminator at all holds no string and is corrupted. */
  lemma NoTerminatorNoStrings(data: seq<u8>)
    requires 2 <= |data| <= MEMORY_MAXIMUM_ALLOCATION_SIZE && NoNulUnit(data)
    ensures ParseMultiString(data) == Ok(Split([], true))
  {
    assert data[0..] == data;
    ScanWithoutNul(data, 0);
  }

  lemma {:induction false} ScanWithoutNul(data: seq<u8>, off: nat)
    requires off <= |data| && NoNulUnit(data[off..])
    ensures !ScanString(data, off).found
    decreases |data| - off
  {
    if |data| >= off + 2 {
      var w := data[off..];
      assert w[0] == data[off] && w[1] == data[off + 1];
      assert w[2..] == data[off + 2..];
      ScanWithoutNul(data, off + 2);
    }
  }

  /** "en-US" in UTF-16 little-endian, with its terminator: the 12-byte sample. */
  const SAMPLE_EN_US: seq<u8> := [0x65, 0x00, 0x6e, 0x00, 0x2d, 0x00, 0x55, 0x00, 0x53, 0x00, 0x00, 0x00]

  /** The sample holds one string, "en-US" with its terminator, and is not corrupted. */
  lemma SampleEnUs()
    ensures ParseMultiString(SAMPLE_EN_US) == Ok(Split([SAMPLE_EN_US], false))
  {
    var d := SAMPLE_EN_US;
    assert ScanString(d, 0) == Scan(12, true) by {
      assert ScanString(d, 10) == Scan(12, true);
      assert ScanString(d, 8) == ScanString(d, 10);
      assert ScanString(d, 6) == ScanString(d, 8);
      assert ScanString(d, 4) == ScanString(d, 6);
      assert ScanString(d, 2) == ScanString(d, 4);
    }
    assert ScanString(d, 12) == Scan(12, false);
    assert CountStrings(d, 0, 0) == Count(1, 12, false);
    assert d[0..12] == d;
    assert CollectStrings(d, 0, 1) == [d];
  }

  class MultiString {
    /** The copied data; None while nothing has been read. */
    var data: Option<seq<u8>>
    /** Each string with its terminator, in order. */
    var strings: seq<seq<u8>>
    var numberOfStrings: nat
    var itemFlags: u8

    ghost predicate Valid()
      reads this
    {
      |strings| == numberOfStrings
    }

    /** libregf_multi_string_initialize: empty. */
    constructor ()
      ensures Valid() && data.None? && strings == [] && itemFlags == 0
    {
      data := None;
      strings := [];
      numberOfStrings := 0;
      itemFlags := 0;
    }

    /**
     * libregf_internal_multi_string_read_data. A multi-string that already
     * holds data or strings is refused, as is data outside 2 to
     * MEMORY_MAXIMUM_ALLOCATION_SIZE bytes; both leave it untouched.
     */
    method ReadData(input: seq<u8>) returns (success: bool)
      requires Valid()
      modifies this
      ensures Valid()
      ensures old(data).Some? || old(strings) != [] ==> !success && unchanged(this)
      ensures old(data).None? && old(strings) == [] ==> match ParseMultiString(input)
        case Err => !success && unchanged(this)
        case Ok(split) =>
          && success && data == Some(input) && strings == split.strings
          && itemFlags == (if split.corrupted then MarkCorrupted(old(itemFlags)) else old(itemFlags))
    {
      if data.Some? || strings != [] {
        return false;
      }
      if |input| < 2 || |input| > MEMORY_MAXIMUM_ALLOCATION_SIZE {
        return false;
      }
      var count, dataOffset, missingEnd := CountPass(input);
      CountEndsAfterFirstUnit(input);
      CountedStringsAreTerminated(input, 0, 0);
      if missingEnd {
        itemFlags := MarkCorrupted(itemFlags);
      }
      if input[dataOffset - 2] != 0 || input[dataOffset - 1] != 0 {
        itemFlags := MarkCorrupted(itemFlags);
      }
      data := Some(input);
      if count > 0 {
        CollectPass(input, count);
      }
      numberOfStrings := count;
      assert ParseMultiString(input) == Ok(Split(strings, missingEnd || input[dataOffset - 2] != 0 || input[dataOffset - 1] != 0));
      return true;
    }

    /** The first pass: count the strings up to the first empty one, noting a missing terminator. */
    static method CountPass(input: seq<u8>) returns (count: nat, dataOffset: nat, missingEnd: bool)
      ensures Count(count, dataOffset, missingEnd) == CountStrings(input, 0, 0)
    {
      ghost var target := CountStrings(input, 0, 0);
      dataOffset, count, missingEnd := 0, 0, false;
      while dataOffset < |input|
        invariant dataOffset <= |input|
        invariant CountStrings(input, dataOffset, count) == target
        decreases |input| - dataOffset
      {
        var stringStart := dataOffset;
        var found;
        dataOffset, found := ScanStringAt(input, dataOffset);
        if !found {
          missingEnd := true;
          break;
        }
        if dataOffset - stringStart == 2 {
          break;
        }
        assert ScanString(input, stringStart).found;
        assert dataOffset > stringStart;
        count := count + 1;
      }
    }

    /** The second pass: record the first `count` strings, each with its terminator. */
    method CollectPass(input: seq<u8>, count: nat)
      requires count > 0 && strings == []
      modifies this`strings
      ensures strings == CollectStrings(input, 0, count)
    {
      var dataOffset := 0;
      var stringIndex := 0;
      while dataOffset < |input|
        invariant dataOffset <= |input| && stringIndex < count
        invariant strings + CollectStrings(input, dataOffset, count - stringIndex) == CollectStrings(input, 0, count)
        decreases count - stringIndex
      {
        var stringStart := dataOffset;
        var found;
        dataOffset, found := ScanStringAt(input, dataOffset);
        strings := strings + [input[stringStart..dataOffset]];
        stringIndex := stringIndex + 1;
        if stringIndex >= count {
          break;
        }
      }
    }

    /** The inner loop of both passes, as the C writes it twice. */
    static method ScanStringAt(input: seq<u8>, off: nat) returns (end: nat, found: bool)
      requires off <= |input|
      ensures Scan(end, found) == ScanString(input, off)
    {
      end := off;
      found := false;
      var stringSize := 0;
      while end <= |input| - 2
        invariant off <= end <= |input| && stringSize == end - off
        invariant ScanString(input, end) == ScanString(input, off)
        decreases |input| - end
      {
        stringSize := stringSize + 2;
        if input[end] == 0 && input[end + 1] == 0 {
          end := end + 2;
          found := true;
          return;
        }
        end := end + 2;
      }
    }

    /** libregf_multi_string_get_number_of_strings */
    function GetNumberOfStrings(): nat
      reads this
    {
      numberOfStrings
    }

    /**
     * The index check of the string getters: an index below 0 or at or above
     * the number of strings is an error. The UTF-8 and UTF-16 conversions of
     * the selected string are not part of this model.
     */
    method GetString(stringIndex: int) returns (r: Result<seq<u8>>)
      requires Valid()
      ensures r.Ok? <==> 0 <= stringIndex < numberOfStrings
      ensures r.Ok? ==> r.value == strings[stringIndex]
    {
      if stringIndex < 0 || stringIndex >= numberOfStrings {
        return Err;
      }
      return Ok(strings[stringIndex]);
    }
  }
}
