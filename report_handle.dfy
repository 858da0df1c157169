/**
 * The decoding steps of regfreport (report_handle.c): the product key
 * held in a DigitalProductId value, the check that a value of an
 * MRUListEx key is named by a decimal index, and the end of the UTF-16
 * string that starts a string-and-shell-item value.
 */
module ReportHandle {
  import opened Common
  import MFS = MountFileSystem
  import MFE = MountFileEntry

  // ---------------------------------------------------------------------
  // The product key of a DigitalProductId value
  // ---------------------------------------------------------------------

  /** The size of a DigitalProductId value the product key is decoded from. */
  const DIGITAL_PRODUCT_ID_SIZE: nat := 0xa4
  /** The offset of the 15-byte encoded product key in it. */
  const PRODUCT_KEY_OFFSET: nat := 0x34
  const PRODUCT_KEY_BYTES: nat := 15
  /** The number of characters of the product key, without its NUL. */
  const PRODUCT_KEY_LENGTH: nat := 29

  /** The substitution table: the 24 characters of a product key, by digit value. */
  const KEY_DIGITS: seq<char> := "BCDFGHJKMPQRTVWXY2346789"

  /** The digit value of a product key character; 24 for any other character. */
  function DigitOf(c: char): (d: nat)
    ensures d <= 24
  {
    match c
    case 'B' => 0 case 'C' => 1 case 'D' => 2 case 'F' => 3
    case 'G' => 4 case 'H' => 5 case 'J' => 6 case 'K' => 7
    case 'M' => 8 case 'P' => 9 case 'Q' => 10 case 'R' => 11
    case 'T' => 12 case 'V' => 13 case 'W' => 14 case 'X' => 15
    case 'Y' => 16 case '2' => 17 case '3' => 18 case '4' => 19
    case '6' => 20 case '7' => 21 case '8' => 22 case '9' => 23
    case _ => 24
  }

  /** The table is one-to-one: every entry is read back as its index, and none is '-'. */
  lemma DigitOfTable(d: nat)
    requires d < 24
    ensures DigitOf(KEY_DIGITS[d]) == d && KEY_DIGITS[d] != '-'
  {
  }

  /** The value of little-endian bytes. */
  function LeValue(s: seq<u8>): nat {
    if s == [] then 0 else s[0] + 256 * LeValue(s[1..])
  }

  function Pow24(k: nat): (p: nat)
    ensures p > 0
  {
    if k == 0 then 1 else 24 * Pow24(k - 1)
  }

  /** Whether the product key character at index i is a '-'. */
  predicate IsDashIndex(i: int) {
    i % 6 == 5
  }

  /**
   * The characters at indexes 0 to i of the product key, when `n` is the
   * number left once the characters after index i have been taken: a '-'
   * at every sixth index, otherwise the table character of n mod 24, with
   * n divided by 24 for the characters before it.
   */
  function KeyChars(n: nat, i: int): (r: seq<char>)
    requires i >= -1
    ensures |r| == i + 1
    decreases i + 1
  {
    if i < 0 then []
    else if IsDashIndex(i) then KeyChars(n, i - 1) + ['-']
    else KeyChars(n / 24, i - 1) + [KEY_DIGITS[n % 24]]
  }

  /** The 29-character product key of the 15-byte number n. */
  function ProductKeyOf(n: nat): (r: seq<char>)
    ensures |r| == PRODUCT_KEY_LENGTH
  {
    KeyChars(n, PRODUCT_KEY_LENGTH - 1)
  }

  /**
   * The product key of a DigitalProductId value: only a value of exactly
   * 0xa4 bytes carries one, in the 15 bytes at offset 0x34.
   */
  function ProductKey(data: seq<u8>): (r: Option<seq<char>>)
    ensures r.Some? <==> |data| == DIGITAL_PRODUCT_ID_SIZE
    ensures r.Some? ==> |r.value| == PRODUCT_KEY_LENGTH
    ensures r.Some? ==> forall j :: 0 <= j < PRODUCT_KEY_LENGTH ==> (r.value[j] == '-' <==> IsDashIndex(j))
  {
    if |data| != DIGITAL_PRODUCT_ID_SIZE then None
    else
      var n := LeValue(data[PRODUCT_KEY_OFFSET..PRODUCT_KEY_OFFSET + PRODUCT_KEY_BYTES]);
      KeyCharsLayout(n, PRODUCT_KEY_LENGTH - 1);
      Some(ProductKeyOf(n))
  }

  /** A '-' at every index i with i mod 6 = 5 and a table character everywhere else. */
  lemma {:induction false} KeyCharsLayout(n: nat, i: int)
    requires i >= -1
    ensures forall j :: 0 <= j <= i ==> (KeyChars(n, i)[j] == '-' <==> IsDashIndex(j))
    ensures forall j :: 0 <= j <= i && !IsDashIndex(j) ==> KeyChars(n, i)[j] in KEY_DIGITS
    decreases i + 1
  {
    if i >= 0 {
      if IsDashIndex(i) {
        KeyCharsLayout(n, i - 1);
      } else {
        KeyCharsLayout(n / 24, i - 1);
        DigitOfTable(n % 24);
      }
    }
  }

  /** The number of table characters among indexes 0 to i. */
  function DigitCount(i: int): nat
    requires i >= -1
    decreases i + 1
  {
    if i < 0 then 0 else if IsDashIndex(i) then DigitCount(i - 1) else DigitCount(i - 1) + 1
  }

  /** The number a product key spells, most significant character first, '-' skipped. */
  function KeyValue(s: seq<char>): nat {
    if s == [] then 0
    else if s[|s| - 1] == '-' then KeyValue(s[..|s| - 1])
    else KeyValue(s[..|s| - 1]) * 24 + DigitOf(s[|s| - 1])
  }

  /** Division with remainder is unique. */
  lemma DivModUnique(n: int, d: int, k: int, r: int)
    requires d > 0 && 0 <= r < d && n == k * d + r
    ensures n / d == k && n % d == r
  {
    var q, m := n / d, n % d;
    assert (k - q) * d == m - r;
    if k - q >= 1 {
      MulAtLeast(k - q, d);
    } else if k - q <= -1 {
      MulAtLeast(q - k, d);
    }
  }

  lemma MulAtLeast(a: int, d: int)
    requires a >= 1 && d > 0
    ensures a * d >= d
  {
  }

  /** Taking one base-24 digit off the bottom and putting it back keeps n modulo 24 p. */
  lemma ModStep(n: nat, p: nat)
    requires p > 0
    ensures (n / 24 % p) * 24 + n % 24 == n % (24 * p)
  {
    var q, r := n / 24, n % 24;
    var a, b := q / p, q % p;
    assert n == (24 * p) * a + (24 * b + r);
    DivModUnique(n, 24 * p, a, 24 * b + r);
  }

  /** Reading a key back gives n modulo 24 to the power of its number of table characters. */
  lemma {:induction false} KeyCharsValue(n: nat, i: int)
    requires i >= -1
    ensures KeyValue(KeyChars(n, i)) == n % Pow24(DigitCount(i))
    decreases i + 1
  {
    if i >= 0 {
      var s := KeyChars(n, i);
      if IsDashIndex(i) {
        assert s[..|s| - 1] == KeyChars(n, i - 1);
        KeyCharsValue(n, i - 1);
      } else {
        assert s[..|s| - 1] == KeyChars(n / 24, i - 1);
        KeyCharsValue(n / 24, i - 1);
        DigitOfTable(n % 24);
        ModStep(n, Pow24(DigitCount(i - 1)));
      }
    }
  }

  /**
   * The product key is a 29-character string of five groups of five table
   * characters joined by '-'.
   */
  lemma ProductKeyLayout(n: nat)
    ensures forall j :: 0 <= j < PRODUCT_KEY_LENGTH ==> (ProductKeyOf(n)[j] == '-' <==> IsDashIndex(j))
    ensures forall j :: 0 <= j < PRODUCT_KEY_LENGTH && !IsDashIndex(j) ==> ProductKeyOf(n)[j] in KEY_DIGITS
  {
    KeyCharsLayout(n, PRODUCT_KEY_LENGTH - 1);
  }

  /** The product key spells the 15-byte number modulo 24 to the power 25. */
  lemma ProductKeyRoundTrip(n: nat)
    ensures KeyValue(ProductKeyOf(n)) == n % Pow24(25)
  {
    KeyCharsValue(n, PRODUCT_KEY_LENGTH - 1);
    DigitCountOf(PRODUCT_KEY_LENGTH - 1);
  }

  /** Every sixth index is a '-', so indexes 0 to i hold i + 1 - (i + 1) / 6 table characters. */
  lemma {:induction false} DigitCountOf(i: int)
    requires i >= -1
    ensures DigitCount(i) == i + 1 - (i + 1) / 6
    decreases i + 1
  {
    if i >= 0 {
      DigitCountOf(i - 1);
    }
  }

  /**
   * The inner loop: divide the little-endian number in `value` by 24 in
   * place, from the most significant byte down. Each partial dividend is
   * below 24 * 256, so it fits the 16-bit variable and every quotient byte
   * fits 8 bits.
   */
  method DivideBy24(value: array<u8>) returns (remainder: nat)
    modifies value
    ensures remainder < 24
    ensures LeValue(old(value[..])) == 24 * LeValue(value[..]) + remainder
  {
    ghost var original := value[..];
    remainder := 0;
    var byteIndex := value.Length - 1;
    assert original[byteIndex + 1..] == [];
    while byteIndex >= 0
      invariant -1 <= byteIndex < value.Length && remainder < 24
      invariant value[..byteIndex + 1] == original[..byteIndex + 1]
      invariant LeValue(original[byteIndex + 1..]) == 24 * LeValue(value[byteIndex + 1..]) + remainder
      decreases byteIndex + 1
    {
      var value16 := remainder * 256 + value[byteIndex];
      ghost var rest := value[byteIndex + 1..];
      LeValueAt(original, byteIndex);
      value[byteIndex] := value16 / 24;
      LeValueAt(value[..], byteIndex);
      assert value[byteIndex + 1..] == rest;
      DivideByteStep(original[byteIndex], LeValue(original[byteIndex + 1..]), LeValue(rest), remainder);
      remainder := value16 % 24;
      byteIndex := byteIndex - 1;
    }
    assert byteIndex + 1 == 0;
    assert original[0..] == original && value[0..] == value[..];
  }

  lemma LeValueAt(s: seq<u8>, i: nat)
    requires i < |s|
    ensures LeValue(s[i..]) == s[i] + 256 * LeValue(s[i + 1..])
  {
    assert s[i..][1..] == s[i + 1..];
  }

  /** Dividing one more byte: the partial dividend carries the remainder of the bytes above it. */
  lemma DivideByteStep(b: u8, above: nat, quotientAbove: nat, remainder: nat)
    requires remainder < 24 && above == 24 * quotientAbove + remainder
    ensures (remainder * 256 + b) / 24 < 256
    ensures b + 256 * above == 24 * ((remainder * 256 + b) / 24 + 256 * quotientAbove) + (remainder * 256 + b) % 24
  {
  }

  /** One step of the key loop: dividing by 24 leaves n / 24 and gives n mod 24. */
  lemma DivideStep(n: nat, m: nat, r: nat)
    requires r < 24 && n == 24 * m + r
    ensures m == n / 24 && r == n % 24
  {
    DivModUnique(n, 24, m, r);
  }

  /**
   * report_handle_analyze_digital_product_id_value, past the value lookup:
   * for data of 0xa4 bytes, the product key string of 30 characters, the
   * key and its NUL, filled from index 28 down.
   */
  method DecodeProductKey(data: seq<u8>) returns (key: Option<array<char>>)
    ensures key.None? <==> ProductKey(data).None?
    ensures key.Some? ==> (key.value.Length == PRODUCT_KEY_LENGTH + 1
      && key.value[..PRODUCT_KEY_LENGTH] == ProductKey(data).value && key.value[PRODUCT_KEY_LENGTH] == '\0')
  {
    if |data| != DIGITAL_PRODUCT_ID_SIZE {
      return None;
    }
    var value := new u8[PRODUCT_KEY_BYTES](i requires 0 <= i < PRODUCT_KEY_BYTES => data[PRODUCT_KEY_OFFSET + i]);
    assert value[..] == data[PRODUCT_KEY_OFFSET..PRODUCT_KEY_OFFSET + PRODUCT_KEY_BYTES];
    ghost var n := LeValue(value[..]);
    var productKey := new char[PRODUCT_KEY_LENGTH + 1];
    var stringIndex := PRODUCT_KEY_LENGTH - 1;
    assert productKey[stringIndex + 1..PRODUCT_KEY_LENGTH] == [];
    while stringIndex >= 0
      invariant -1 <= stringIndex < PRODUCT_KEY_LENGTH
      invariant ProductKeyOf(n) == KeyChars(LeValue(value[..]), stringIndex) + productKey[stringIndex + 1..PRODUCT_KEY_LENGTH]
      decreases stringIndex + 1
    {
      ghost var before := productKey[stringIndex + 1..PRODUCT_KEY_LENGTH];
      var c := NextKeyChar(value, stringIndex);
      productKey[stringIndex] := c;
      assert productKey[stringIndex..PRODUCT_KEY_LENGTH] == [c] + before;
      stringIndex := stringIndex - 1;
    }
    ghost var chars := productKey[..PRODUCT_KEY_LENGTH];
    assert chars == ProductKeyOf(n);
    productKey[PRODUCT_KEY_LENGTH] := '\0';
    assert productKey[..PRODUCT_KEY_LENGTH] == chars;
    assert ProductKey(data) == Some(chars);
    return Some(productKey);
  }

  /**
   * The character at `stringIndex`: a dash at every sixth index, otherwise
   * the table character of the remainder of dividing the number by 24.
   */
  method NextKeyChar(value: array<u8>, stringIndex: nat) returns (c: char)
    modifies value
    ensures KeyChars(old(LeValue(value[..])), stringIndex) == KeyChars(LeValue(value[..]), stringIndex - 1) + [c]
  {
    ghost var m := LeValue(value[..]);
    if IsDashIndex(stringIndex) {
      c := '-';
    } else {
      var remainder := DivideBy24(value);
      DivideStep(m, LeValue(value[..]), remainder);
      c := KEY_DIGITS[remainder];
    }
  }

  // ---------------------------------------------------------------------
  // MRUListEx value names
  // ---------------------------------------------------------------------

  /** The size of the name buffer: the 10 characters of 4294967295 and a NUL. */
  const MRU_NAME_BUFFER_SIZE: nat := 11

  predicate IsDecimalDigit(c: nat) {
    0x30 <= c <= 0x39
  }

  predicate AllDigits(s: seq<nat>) {
    forall i :: 0 <= i < |s| ==> IsDecimalDigit(s[i])
  }

  /**
   * The MRUListEx name check as written: only a name of size 2, one
   * character and its NUL, is read into the buffer and checked; its
   * characters before the first NUL must be decimal digits.
   */
  predicate IsMruNameAsWritten(name: seq<nat>): (r: bool)
    ensures r <==> |name| == 1 && (name[0] == 0 || IsDecimalDigit(name[0]))
  {
    |name| + 1 == 2 && AllDigits(MFS.UpToNul(name))
  }

  /**
   * The check the 11-character buffer is made for: a name of size 2 to 11,
   * 1 to 10 characters, whose characters before the first NUL are decimal
   * digits.
   */
  predicate IsMruName(name: seq<nat>) {
    2 <= |name| + 1 <= MRU_NAME_BUFFER_SIZE && AllDigits(MFS.UpToNul(name))
  }

  /** The decimal string of k. */
  function DecimalOf(k: nat): (s: seq<nat>)
    ensures s != [] && AllDigits(s) && 0 !in s
  {
    if k < 10 then [0x30 + k] else DecimalOf(k / 10) + [0x30 + k % 10]
  }

  function Pow10(m: nat): (p: nat)
    ensures p > 0
  {
    if m == 0 then 1 else 10 * Pow10(m - 1)
  }

  /** A number below 10 to the power m, m >= 1, has at most m decimal digits. */
  lemma {:induction false} DecimalLength(k: nat, m: nat)
    requires m >= 1 && k < Pow10(m)
    ensures |DecimalOf(k)| <= m
  {
    if k >= 10 {
      if m > 1 {
        assert k / 10 < Pow10(m - 1);
        DecimalLength(k / 10, m - 1);
      }
    }
  }

  /**
   * Every index of an MRU list up to 2^32 - 1 names a value the check is
   * made for; as written, only the indexes 0 to 9 do.
   */
  lemma MruIndexNames(k: nat)
    requires k < 0x1_0000_0000
    ensures IsMruName(DecimalOf(k))
    ensures IsMruNameAsWritten(DecimalOf(k)) <==> k < 10
  {
    assert Pow10(10) == 10000000000;
    DecimalLength(k, 10);
    MFS.UpToNulOfNulFree(DecimalOf(k));
    if k >= 10 {
      assert |DecimalOf(k)| >= 2;
    }
  }

  /** The value named "10", the eleventh entry of an MRU list, is skipped as written. */
  lemma MruTenSkipped()
    ensures !IsMruNameAsWritten([0x31, 0x30]) && IsMruName([0x31, 0x30])
  {
    MruIndexNames(10);
    assert DecimalOf(10) == [0x31, 0x30];
  }

  /**
   * The digit loop over the name buffer: up to 11 characters, stopping at
   * the first NUL, and failing on the first character that is not a
   * decimal digit.
   */
  method CheckDigits(name: array<nat>) returns (ok: bool)
    requires name.Length == MRU_NAME_BUFFER_SIZE
    ensures ok <==> AllDigits(MFS.UpToNul(name[..]))
  {
    ok := true;
    var nameIndex := 0;
    while nameIndex < MRU_NAME_BUFFER_SIZE
      invariant nameIndex <= MRU_NAME_BUFFER_SIZE
      invariant 0 !in name[..nameIndex] && AllDigits(name[..nameIndex])
      decreases MRU_NAME_BUFFER_SIZE - nameIndex
    {
      if name[nameIndex] == 0 {
        break;
      }
      if !IsDecimalDigit(name[nameIndex]) {
        assert name[..nameIndex + 1] == name[..nameIndex] + [name[nameIndex]];
        UpToNulReaches(name[..], nameIndex);
        return false;
      }
      assert name[..nameIndex + 1] == name[..nameIndex] + [name[nameIndex]];
      nameIndex := nameIndex + 1;
    }
    MFE.UpToNulOfStop(name[..], nameIndex);
  }

  /**
   * The check on one value of an MRUListEx key, with the name size the
   * buffer is made for: a name of size 2 to 11 is copied with its NUL
   * into the 11-character buffer and its characters checked.
   */
  method IsMruValueName(valueName: seq<nat>) returns (ok: bool)
    ensures ok == IsMruName(valueName)
  {
    var nameSize := |valueName| + 1;
    if nameSize < 2 || nameSize > MRU_NAME_BUFFER_SIZE {
      return false;
    }
    var name := new nat[MRU_NAME_BUFFER_SIZE](i requires 0 <= i < MRU_NAME_BUFFER_SIZE => if i < |valueName| then valueName[i] else 0);
    assert name[..] == valueName + [0] + MFE.Zeros(MRU_NAME_BUFFER_SIZE - nameSize);
    ok := CheckDigits(name);
    UpToNulOfPadded(valueName, [0] + MFE.Zeros(MRU_NAME_BUFFER_SIZE - nameSize));
    assert name[..] == valueName + ([0] + MFE.Zeros(MRU_NAME_BUFFER_SIZE - nameSize));
  }

  /** A string with no NUL among its first i + 1 characters reads as a C string through index i. */
  lemma {:induction false} UpToNulReaches(s: seq<nat>, i: nat)
    requires i < |s| && 0 !in s[..i + 1]
    ensures |MFS.UpToNul(s)| > i && MFS.UpToNul(s)[i] == s[i]
  {
    assert s[..i + 1][0] == s[0];
    if i > 0 {
      assert s[1..][..i] == s[..i + 1][1..];
      UpToNulReaches(s[1..], i - 1);
    }
  }

  /** A string followed by a NUL and anything reads as that string's C string. */
  lemma UpToNulOfPadded(s: seq<nat>, t: seq<nat>)
    requires t != [] && t[0] == 0
    ensures MFS.UpToNul(s + t) == MFS.UpToNul(s)
  {
    var u := MFS.UpToNul(s);
    if |u| < |s| {
      assert s + t == u + (s[|u|..] + t);
      assert (s[|u|..] + t)[0] == s[|u|];
      MFE.UpToNulStops(u, s[|u|..] + t);
    } else {
      assert s == u;
      MFE.UpToNulStops(u, t);
    }
  }

  // ---------------------------------------------------------------------
  // The string of a string-and-shell-item value
  // ---------------------------------------------------------------------

  /**
   * The scan for the UTF-16 terminator: from `offset`, in steps of 2, the
   * offset of the first 0x0000 pair while more than 2 bytes remain, or the
   * offset where 2 or fewer bytes remain.
   */
  function ScanPairs(data: seq<u8>, offset: nat): (r: nat)
    ensures r >= offset && (r - offset) % 2 == 0 && (r == offset || r < |data|)
    ensures r + 2 >= |data| || (data[r] == 0 && data[r + 1] == 0)
    decreases |data| - offset
  {
    if offset + 2 < |data| then
      if data[offset] == 0 && data[offset + 1] == 0 then offset else ScanPairs(data, offset + 2)
    else offset
  }

  /** The end of the string as written: 2 bytes past where the scan stops. */
  function StringEndAsWritten(data: seq<u8>): (end: nat)
    ensures end >= 2 && end % 2 == 0
    ensures end <= |data| + 1 || |data| == 0
  {
    ScanPairs(data, 0) + 2
  }

  /** The end of the string within the data: 2 bytes past where the scan stops, at most the data size. */
  function StringEnd(data: seq<u8>): (end: nat)
    ensures end <= |data|
  {
    MFE.Min(ScanPairs(data, 0) + 2, |data|)
  }

  /**
   * As written the end passes the data only when the data holds fewer
   * than 2 bytes or an odd number of them; otherwise it is the end within
   * the data.
   */
  lemma StringEndAsWrittenOverrun(data: seq<u8>)
    ensures StringEndAsWritten(data) > |data| ==> |data| < 2 || |data| % 2 == 1
    ensures |data| >= 2 && |data| % 2 == 0 ==> StringEndAsWritten(data) == StringEnd(data)
  {
  }

  /** Three bytes without a terminator: the string is taken to end at offset 4. */
  lemma StringEndPastOddData()
    ensures StringEndAsWritten([0x41, 0x00, 0x42]) == 4 && StringEnd([0x41, 0x00, 0x42]) == 3
  {
    var data: seq<u8> := [0x41, 0x00, 0x42];
    assert ScanPairs(data, 2) == 2;
  }

  /**
   * The string ends after its first 0x0000 pair at an even offset, when
   * that pair starts more than 2 bytes before the end, and holds no such
   * pair before it.
   */
  lemma StringEndIsTerminator(data: seq<u8>, k: nat)
    requires k % 2 == 0 && k + 2 < |data| && data[k] == 0 && data[k + 1] == 0
    requires forall j :: 0 <= j < k && j % 2 == 0 ==> !(data[j] == 0 && data[j + 1] == 0)
    ensures StringEnd(data) == k + 2
  {
    ScanReachesTerminator(data, 0, k);
  }

  lemma {:induction false} ScanReachesTerminator(data: seq<u8>, offset: nat, k: nat)
    requires offset <= k && (k - offset) % 2 == 0 && k + 2 < |data| && data[k] == 0 && data[k + 1] == 0
    requires forall j :: offset <= j < k && (j - offset) % 2 == 0 ==> !(data[j] == 0 && data[j + 1] == 0)
    ensures ScanPairs(data, offset) == k
    decreases k - offset
  {
    if offset < k {
      ScanReachesTerminator(data, offset + 2, k);
    }
  }

  /**
   * The scan of report_handle_analyze_string_and_shell_item_value, with
   * the end kept within the data: the size of the UTF-16 string,
   * terminator included, that precedes the shell item.
   */
  method FindStringEnd(data: seq<u8>) returns (offset: nat)
    ensures offset == StringEnd(data)
  {
    offset := 0;
    while offset + 2 < |data|
      invariant ScanPairs(data, offset) == ScanPairs(data, 0)
      decreases |data| - offset
    {
      if data[offset] == 0 && data[offset + 1] == 0 {
        break;
      }
      offset := offset + 2;
    }
    offset := offset + 2;
    if offset > |data| {
      offset := |data|;
    }
  }
}
