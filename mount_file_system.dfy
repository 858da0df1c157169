/**
 * The name codec of the regfmount file system (mount_file_system.c), in
 * its POSIX configuration: registry key and value names become file names
 * by escaping, and mount paths and file names become key paths and value
 * names by unescaping.
 *
 * A name is a sequence of Unicode characters. The libuna conversions
 * between those characters and the UTF-8 (or UTF-16) system strings are
 * taken to be exact, so one character stands for the code units that
 * encode it; the bounds of the buffers, which the source counts in code
 * units, are counted in characters here.
 */
module MountFileSystem {
  import opened Common

  /** The escape character of the POSIX build, '\'. */
  const ESCAPE: nat := 0x5c
  /** The registry key path separator, also '\'. */
  const KEY_SEPARATOR: nat := 0x5c
  /** The file system path separator, '/'. */
  const PATH_SEPARATOR: nat := 0x2f
  const LOWER_X: nat := 0x78

  /** The file name of the default value, which has no name. */
  const DEFAULT_VALUE_NAME: seq<nat> := [0x28, 0x64, 0x65, 0x66, 0x61, 0x75, 0x6c, 0x74, 0x29]

  /** A character that the file name of a name carries escaped as \x##. */
  predicate IsEscapedByValue(c: nat) {
    c <= 0x1f || c == PATH_SEPARATOR || c == 0x7f
  }

  /** The value of a hexadecimal digit the POSIX build accepts: 0-9 and a-f. */
  function HexDigitValue(c: nat): (r: Option<nat>)
    ensures r.Some? ==> r.value < 16
  {
    if 0x30 <= c <= 0x39 then Some(c - 0x30)
    else if 0x61 <= c <= 0x66 then Some(c - 0x61 + 10)
    else None
  }

  /** The lower-case hexadecimal digit the encoder writes for `d`. */
  function LowerHexDigit(d: nat): nat
    requires d < 16
  {
    if d <= 9 then 0x30 + d else 0x61 + d - 10
  }

  lemma HexDigitRoundTrip(d: nat)
    requires d < 16
    ensures HexDigitValue(LowerHexDigit(d)) == Some(d)
  {
  }

  /** A value that an escape \x## may stand for: not 0, and a control character, '/' or DEL. */
  predicate AcceptedEscapeValue(v: nat) {
    !(v == 0 || (v > 0x1f && v != PATH_SEPARATOR && v != 0x7f))
  }

  /** `prefix` before a successful result. */
  function Then(prefix: seq<nat>, r: Result<seq<nat>>): Result<seq<nat>> {
    match r
    case Err => Err
    case Ok(t) => Ok(prefix + t)
  }

  lemma ThenThen(a: seq<nat>, b: seq<nat>, r: Result<seq<nat>>)
    ensures Then(a, Then(b, r)) == Then(a + b, r)
  {
    if r.Ok? {
      assert a + (b + r.value) == (a + b) + r.value;
    }
  }

  /**
   * The unescaping loop of mount_file_system_get_key_path_from_path
   * (`slashIsSeparator`, where an unescaped '/' becomes '\') and of
   * mount_file_system_get_value_name_from_filename: "\\" is '\', "\x##" is
   * the character with that value when it is accepted, and an escape
   * followed by anything else, or cut short, is an error.
   */
  function Unescape(s: seq<nat>, slashIsSeparator: bool): (r: Result<seq<nat>>)
    ensures r.Ok? ==> |s| <= 4 * |r.value|
    decreases |s|
  {
    if s == [] then Ok([])
    else if s[0] == ESCAPE then
      if |s| < 2 then Err
      else if s[1] == ESCAPE then Then([ESCAPE], Unescape(s[2..], slashIsSeparator))
      else if s[1] != LOWER_X then Err
      else if |s| < 4 then Err
      else
        var hi, lo := HexDigitValue(s[2]), HexDigitValue(s[3]);
        if hi.None? || lo.None? then Err
        else
          var v := 16 * hi.value + lo.value;
          if !AcceptedEscapeValue(v) then Err
          else Then([v], Unescape(s[4..], slashIsSeparator))
    else if slashIsSeparator && s[0] == PATH_SEPARATOR then Then([KEY_SEPARATOR], Unescape(s[1..], slashIsSeparator))
    else Then([s[0]], Unescape(s[1..], slashIsSeparator))
  }

  /** Unescaping never lengthens: the buffer of path length + 1 always holds the result and its NUL. */
  lemma {:induction false} UnescapeShortens(s: seq<nat>, slashIsSeparator: bool)
    requires Unescape(s, slashIsSeparator).Ok?
    ensures |Unescape(s, slashIsSeparator).value| <= |s|
    decreases |s|
  {
    if s != [] {
      if s[0] == ESCAPE {
        if s[1] == ESCAPE {
          UnescapeShortens(s[2..], slashIsSeparator);
        } else {
          UnescapeShortens(s[4..], slashIsSeparator);
        }
      } else {
        UnescapeShortens(s[1..], slashIsSeparator);
      }
    }
  }

  /** An escape followed by a character other than the escape or 'x' is an error. */
  lemma BadEscapeIsError(s: seq<nat>, slashIsSeparator: bool)
    requires |s| >= 2 && s[0] == ESCAPE && s[1] != ESCAPE && s[1] != LOWER_X
    ensures Unescape(s, slashIsSeparator) == Err
  {
  }

  /**
   * mount_file_system_get_key_path_from_path: the path must be non-empty,
   * at most SSIZE_MAX - 1 long and absolute.
   */
  function KeyPathOf(path: seq<nat>): (r: Result<seq<nat>>)
    ensures |path| == 0 || |path| > SSIZE_MAX - 1 || path[0] != PATH_SEPARATOR ==> r.Err?
    ensures r.Ok? ==> 0 < |r.value| <= |path| && r.value[0] == KEY_SEPARATOR
  {
    if |path| == 0 || |path| > SSIZE_MAX - 1 || path[0] != PATH_SEPARATOR then Err
    else
      var u := Unescape(path, true);
      if u.Ok? then UnescapeShortens(path, true); u else u
  }

  /** mount_file_system_get_value_name_from_filename: the file name must be non-empty and at most SSIZE_MAX - 1 long. */
  function ValueNameOf(filename: seq<nat>): Result<seq<nat>> {
    if |filename| == 0 || |filename| > SSIZE_MAX - 1 then Err
    else Unescape(filename, false)
  }

  /** The characters before the first NUL: what system_string_length measures. */
  function UpToNul(s: seq<nat>): (r: seq<nat>)
    ensures |r| <= |s| && r == s[..|r|] && 0 !in r
    ensures |r| < |s| ==> s[|r|] == 0
  {
    if s == [] || s[0] == 0 then [] else [s[0]] + UpToNul(s[1..])
  }

  /**
   * The value name mount_file_system_get_value_by_filename looks up: None,
   * the default value, for the file name "(default)"; otherwise the
   * unescaped name up to its first NUL.
   */
  function ValueQueryOf(filename: seq<nat>): (r: Result<Option<seq<nat>>>)
    ensures filename == DEFAULT_VALUE_NAME <==> r == Ok(None)
    ensures |filename| == 0 ==> r.Err?
    ensures r.Ok? && r.value.Some? ==> 0 !in r.value.value && |r.value.value| <= |filename|
  {
    if filename == DEFAULT_VALUE_NAME then Ok(None)
    else match ValueNameOf(filename)
      case Err => Err
      case Ok(name) => UnescapeShortens(filename, false); Ok(Some(UpToNul(name)))
  }

  /** The file name characters for one name character. */
  function EscapeChar(c: nat): (r: seq<nat>)
    ensures 1 <= |r| <= 4
  {
    if IsEscapedByValue(c) then [ESCAPE, LOWER_X, LowerHexDigit(c / 16 % 16), LowerHexDigit(c % 16)]
    else if c == ESCAPE then [ESCAPE, ESCAPE]
    else [c]
  }

  /**
   * The escaping loop of mount_file_system_get_filename_from_name: each
   * character up to the first NUL is escaped.
   */
  function FilenameOf(name: seq<nat>): (r: seq<nat>)
    ensures |r| <= 4 * |name|
  {
    if name == [] || name[0] == 0 then [] else EscapeChar(name[0]) + FilenameOf(name[1..])
  }

  /** mount_file_system_get_filename_from_name, with its size checks. */
  function FilenameFromName(name: seq<nat>): (r: Result<seq<nat>>)
    ensures |name| > SSIZE_MAX - 1 || 4 * |name| + 1 > SSIZE_MAX ==> r.Err?
    ensures r.Ok? ==> |r.value| <= 4 * |name| && Unescape(r.value, false) == Ok(UpToNul(name))
  {
    if |name| > SSIZE_MAX - 1 || 4 * |name| + 1 > SSIZE_MAX then Err
    else
      FilenameStopsAtNul(name);
      FilenameUnescapes(UpToNul(name), [], false);
      assert FilenameOf(name) + [] == FilenameOf(name);
      assert UpToNul(name) + [] == UpToNul(name);
      Ok(FilenameOf(name))
  }

  /** The escaping loop ends at the first NUL: only the name before it is escaped. */
  lemma {:induction false} FilenameStopsAtNul(name: seq<nat>)
    ensures FilenameOf(name) == FilenameOf(UpToNul(name))
    decreases |name|
  {
    if name != [] && name[0] != 0 {
      FilenameStopsAtNul(name[1..]);
      assert UpToNul(name)[1..] == UpToNul(name[1..]);
    }
  }

  /** mount_file_system_get_filename_from_value: the default value (no name) is "(default)". */
  function FilenameFromValueName(name: Option<seq<nat>>): Result<seq<nat>> {
    FilenameFromName(if name.None? then DEFAULT_VALUE_NAME else name.value)
  }

  /** mount_file_system_get_filename_from_key: a key without a name has no file name. */
  function FilenameFromKeyName(name: Option<seq<nat>>): (r: Result<seq<nat>>)
    ensures r.Ok? ==> name.Some? && r == FilenameFromName(name.value)
  {
    if name.None? then Err else FilenameFromName(name.value)
  }

  /** Escaping one character and unescaping it gives the character back, whatever follows. */
  lemma EscapeCharRoundTrip(c: nat, t: seq<nat>, slashIsSeparator: bool)
    requires c != 0
    ensures Unescape(EscapeChar(c) + t, slashIsSeparator) == Then([c], Unescape(t, slashIsSeparator))
  {
    var s := EscapeChar(c) + t;
    if IsEscapedByValue(c) {
      HexDigitRoundTrip(c / 16 % 16);
      HexDigitRoundTrip(c % 16);
      assert c < 0x80;
      assert 16 * (c / 16 % 16) + c % 16 == c;
      assert s[4..] == t;
    } else if c == ESCAPE {
      assert s[2..] == t;
    } else {
      assert s[1..] == t;
    }
  }

  /**
   * The escaping and unescaping tables are inverse: the file name of a
   * NUL-free name, followed by anything, unescapes to the name followed by
   * what that unescapes to.
   */
  lemma {:induction false} FilenameUnescapes(name: seq<nat>, t: seq<nat>, slashIsSeparator: bool)
    requires 0 !in name
    ensures Unescape(FilenameOf(name) + t, slashIsSeparator) == Then(name, Unescape(t, slashIsSeparator))
    decreases |name|
  {
    if name != [] {
      assert name[0] in name;
      assert FilenameOf(name) == EscapeChar(name[0]) + FilenameOf(name[1..]);
      assert FilenameOf(name) + t == EscapeChar(name[0]) + (FilenameOf(name[1..]) + t);
      EscapeCharRoundTrip(name[0], FilenameOf(name[1..]) + t, slashIsSeparator);
      FilenameUnescapes(name[1..], t, slashIsSeparator);
      ThenThen([name[0]], name[1..], Unescape(t, slashIsSeparator));
      assert [name[0]] + name[1..] == name;
    } else {
      assert FilenameOf(name) + t == t;
      if Unescape(t, slashIsSeparator).Ok? {
        assert name + Unescape(t, slashIsSeparator).value == Unescape(t, slashIsSeparator).value;
      }
    }
  }

  /** Decoding the file name of a non-empty NUL-free value name finds that value. */
  lemma ValueFilenameRoundTrip(name: seq<nat>)
    requires 0 !in name && name != [] && name != DEFAULT_VALUE_NAME && 4 * |name| + 1 <= SSIZE_MAX
    ensures FilenameFromValueName(Some(name)).Ok?
    ensures ValueQueryOf(FilenameFromValueName(Some(name)).value) == Ok(Some(name))
  {
    var f := FilenameOf(name);
    UpToNulOfNulFree(name);
    assert f != DEFAULT_VALUE_NAME by {
      if f == DEFAULT_VALUE_NAME {
        assert 0 !in DEFAULT_VALUE_NAME && ESCAPE !in DEFAULT_VALUE_NAME;
        NoEscapeKeepsName(name, DEFAULT_VALUE_NAME);
      }
    }
    assert FilenameFromValueName(Some(name)) == Ok(f);
  }

  /**
   * The default value's file name leads back to the default value; so does
   * the file name of a value that is itself named "(default)".
   */
  lemma DefaultValueFilename()
    ensures FilenameFromValueName(None) == Ok(DEFAULT_VALUE_NAME)
    ensures FilenameFromValueName(Some(DEFAULT_VALUE_NAME)) == Ok(DEFAULT_VALUE_NAME)
    ensures ValueQueryOf(DEFAULT_VALUE_NAME) == Ok(None)
  {
    assert FilenameOf(DEFAULT_VALUE_NAME) == DEFAULT_VALUE_NAME by {
      NoEscapeFilename(DEFAULT_VALUE_NAME);
    }
  }

  /** A name without characters that need escaping is its own file name. */
  lemma {:induction false} NoEscapeFilename(name: seq<nat>)
    requires forall i :: 0 <= i < |name| ==> name[i] != 0 && name[i] != ESCAPE && !IsEscapedByValue(name[i])
    ensures FilenameOf(name) == name
    decreases |name|
  {
    if name != [] {
      NoEscapeFilename(name[1..]);
      assert [name[0]] + name[1..] == name;
    }
  }

  /** A file name without escapes or NULs comes only from itself. */
  lemma {:induction false} NoEscapeKeepsName(name: seq<nat>, f: seq<nat>)
    requires 0 !in name && FilenameOf(name) == f && ESCAPE !in f
    ensures name == f
    decreases |name|
  {
    if name != [] {
      var e := EscapeChar(name[0]);
      assert f[..|e|] == e;
      assert e[0] in f;
      assert f[|e|..] == FilenameOf(name[1..]);
      NoEscapeKeepsName(name[1..], f[|e|..]);
      assert [name[0]] + name[1..] == name;
    }
  }

  lemma {:induction false} UpToNulOfNulFree(s: seq<nat>)
    requires 0 !in s
    ensures UpToNul(s) == s
    decreases |s|
  {
    if s != [] {
      UpToNulOfNulFree(s[1..]);
      assert [s[0]] + s[1..] == s;
    }
  }

  /** The mount path of a key path: "/" and the file name of each name. */
  function MountPathOf(names: seq<seq<nat>>): seq<nat> {
    if names == [] then [] else [PATH_SEPARATOR] + FilenameOf(names[0]) + MountPathOf(names[1..])
  }

  /** The key path the registry uses: "\" before each name. */
  function RegistryPathOf(names: seq<seq<nat>>): seq<nat> {
    if names == [] then [] else [KEY_SEPARATOR] + names[0] + RegistryPathOf(names[1..])
  }

  lemma {:induction false} MountPathUnescapes(names: seq<seq<nat>>)
    requires forall i :: 0 <= i < |names| ==> 0 !in names[i]
    ensures Unescape(MountPathOf(names), true) == Ok(RegistryPathOf(names))
    decreases |names|
  {
    if names != [] {
      var rest := MountPathOf(names[1..]);
      var s := MountPathOf(names);
      assert s == [PATH_SEPARATOR] + (FilenameOf(names[0]) + rest);
      assert s[1..] == FilenameOf(names[0]) + rest;
      MountPathUnescapes(names[1..]);
      FilenameUnescapes(names[0], rest, true);
      ThenThen([KEY_SEPARATOR], names[0], Unescape(rest, true));
    }
  }

  /**
   * A mount path built from NUL-free key names leads to the key path of
   * those names: '/' separators become '\' and the escapes are undone.
   */
  lemma MountPathRoundTrip(names: seq<seq<nat>>)
    requires names != [] && |MountPathOf(names)| <= SSIZE_MAX - 1
    requires forall i :: 0 <= i < |names| ==> 0 !in names[i]
    ensures KeyPathOf(MountPathOf(names)) == Ok(RegistryPathOf(names))
  {
    MountPathUnescapes(names);
  }

  /**
   * The shared unescaping loop: a buffer of |s| + 1 characters holding the
   * unescaped string and its terminating NUL. Every write is in bounds,
   * which the source checks before each write.
   */
  method UnescapeInto(s: seq<nat>, slashIsSeparator: bool) returns (r: Result<array<nat>>)
    ensures r.Ok? <==> Unescape(s, slashIsSeparator).Ok?
    ensures r.Ok? ==> var u := Unescape(s, slashIsSeparator).value;
      && r.value.Length == |s| + 1 && |u| < r.value.Length
      && r.value[..|u|] == u && r.value[|u|] == 0
  {
    var buffer := new nat[|s| + 1];
    var i := 0;
    var k := 0;
    assert s[0..] == s && buffer[..0] == [];
    if Unescape(s, slashIsSeparator).Ok? {
      assert [] + Unescape(s, slashIsSeparator).value == Unescape(s, slashIsSeparator).value;
    }
    while i < |s|
      invariant k <= i <= |s|
      invariant Unescape(s, slashIsSeparator) == Then(buffer[..k], Unescape(s[i..], slashIsSeparator))
      decreases |s| - i
    {
      var step := ReadCharacter(s, i, slashIsSeparator);
      if step.None? {
        return Err;
      }
      var (width, v) := step.value;
      ghost var before := buffer[..k];
      buffer[k] := v;
      assert buffer[..k + 1] == before + [v];
      ThenThen(before, [v], Unescape(s[i + width..], slashIsSeparator));
      i, k := i + width, k + 1;
    }
    assert buffer[..k] + [] == buffer[..k];
    buffer[k] := 0;
    assert buffer[..k + 1][..k] == buffer[..k];
    return Ok(buffer);
  }

  /**
   * One step of the unescaping loop: the width of the character or escape
   * at `i` and the value it stands for, or None where Unescape fails.
   */
  method ReadCharacter(s: seq<nat>, i: nat, slashIsSeparator: bool) returns (r: Option<(nat, nat)>)
    requires i < |s|
    ensures r.None? ==> Unescape(s[i..], slashIsSeparator).Err?
    ensures r.Some? ==> var (width, v) := r.value;
      && 1 <= width && i + width <= |s|
      && Unescape(s[i..], slashIsSeparator) == Then([v], Unescape(s[i + width..], slashIsSeparator))
  {
    var c := s[i];
    var width: nat;
    var v: nat;
    if c == ESCAPE {
      if i + 2 > |s| {
        return None;
      }
      var next := s[i + 1];
      if next != ESCAPE && next != LOWER_X {
        return None;
      }
      if next == ESCAPE {
        width, v := 2, ESCAPE;
      } else {
        if i + 4 > |s| {
          return None;
        }
        var hi := HexDigitValue(s[i + 2]);
        if hi.None? {
          return None;
        }
        var lo := HexDigitValue(s[i + 3]);
        if lo.None? {
          return None;
        }
        v := 16 * hi.value + lo.value;
        if !AcceptedEscapeValue(v) {
          return None;
        }
        width := 4;
      }
    } else if slashIsSeparator && c == PATH_SEPARATOR {
      width, v := 1, KEY_SEPARATOR;
    } else {
      width, v := 1, c;
    }
    assert s[i..][width..] == s[i + width..];
    return Some((width, v));
  }

  /** mount_file_system_get_key_path_from_path */
  method GetKeyPathFromPath(path: seq<nat>) returns (r: Result<array<nat>>)
    ensures r.Ok? <==> KeyPathOf(path).Ok?
    ensures r.Ok? ==> var p := KeyPathOf(path).value;
      r.value.Length == |path| + 1 && |p| < r.value.Length && r.value[..|p|] == p && r.value[|p|] == 0
  {
    if |path| == 0 || |path| > SSIZE_MAX - 1 || path[0] != PATH_SEPARATOR {
      return Err;
    }
    r := UnescapeInto(path, true);
  }

  /** mount_file_system_get_value_name_from_filename */
  method GetValueNameFromFilename(filename: seq<nat>) returns (r: Result<array<nat>>)
    ensures r.Ok? <==> ValueNameOf(filename).Ok?
    ensures r.Ok? ==> var n := ValueNameOf(filename).value;
      r.value.Length == |filename| + 1 && |n| < r.value.Length && r.value[..|n|] == n && r.value[|n|] == 0
  {
    if |filename| == 0 || |filename| > SSIZE_MAX - 1 {
      return Err;
    }
    r := UnescapeInto(filename, false);
  }

  /**
   * mount_file_system_get_filename_from_name: a buffer of 4 * |name| + 1
   * characters holding the file name and its terminating NUL.
   */
  method GetFilenameFromName(name: seq<nat>) returns (r: Result<array<nat>>)
    ensures r.Ok? <==> FilenameFromName(name).Ok?
    ensures r.Ok? ==> var f := FilenameOf(name);
      r.value.Length == 4 * |name| + 1 && |f| < r.value.Length && r.value[..|f|] == f && r.value[|f|] == 0
  {
    if |name| > SSIZE_MAX - 1 || 4 * |name| + 1 > SSIZE_MAX {
      return Err;
    }
    var buffer := new nat[4 * |name| + 1];
    var i := 0;
    var k: nat := 0;
    assert name[0..] == name && buffer[..0] == [];
    while i < |name|
      invariant i <= |name| && k <= 4 * i && buffer.Length == 4 * |name| + 1
      invariant buffer[..k] + FilenameOf(name[i..]) == FilenameOf(name)
      decreases |name| - i
    {
      var c := name[i];
      if c == 0 {
        assert name[i..][0] == 0;
        break;
      }
      FilenameStep(name, i);
      ghost var before := buffer[..k];
      ghost var e := EscapeChar(c);
      k := WriteEscaped(buffer, k, c);
      ConcatAssoc(before, e, FilenameOf(name[i + 1..]));
      i := i + 1;
    }
    assert FilenameOf(name[i..]) == [];
    assert buffer[..k] + [] == buffer[..k];
    buffer[k] := 0;
    assert buffer[..k + 1][..k] == buffer[..k];
    return Ok(buffer);
  }

  /** One character of the escaping loop, written at `k`; the next free index is returned. */
  method WriteEscaped(buffer: array<nat>, k: nat, c: nat) returns (next: nat)
    requires k + |EscapeChar(c)| <= buffer.Length
    modifies buffer
    ensures next == k + |EscapeChar(c)|
    ensures buffer[..next] == old(buffer[..k]) + EscapeChar(c)
  {
    if IsEscapedByValue(c) {
      buffer[k] := ESCAPE;
      buffer[k + 1] := LOWER_X;
      buffer[k + 2] := LowerHexDigit(c / 16 % 16);
      buffer[k + 3] := LowerHexDigit(c % 16);
      next := k + 4;
    } else if c == ESCAPE {
      buffer[k] := ESCAPE;
      buffer[k + 1] := ESCAPE;
      next := k + 2;
    } else {
      buffer[k] := c;
      next := k + 1;
    }
  }

  lemma ConcatAssoc(a: seq<nat>, b: seq<nat>, c: seq<nat>)
    ensures (a + b) + c == a + (b + c)
  {
  }

  /** One step of the escaping loop. */
  lemma FilenameStep(name: seq<nat>, i: nat)
    requires i < |name| && name[i] != 0
    ensures FilenameOf(name[i..]) == EscapeChar(name[i]) + FilenameOf(name[i + 1..])
  {
    assert name[i..][0] == name[i] && name[i..][1..] == name[i + 1..];
  }
}
