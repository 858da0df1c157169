/**
 * Fixed-width integers, little-endian field access and the result shapes
 * shared by every decoder of the REGF format.
 *
 * libregf functions return 1 on success, 0 for "not found" or "signature
 * mismatch" and -1 on error; `Outcome` is that three-way result and
 * `Result` the two-way one.
 */
module Common {

  type u8 = x: int | 0 <= x < 0x100
  type u16 = x: int | 0 <= x < 0x1_0000
  type u32 = x: int | 0 <= x < 0x1_0000_0000
  type u64 = x: int | 0 <= x < 0x1_0000_0000_0000_0000

  const UINT16_MAX: int := 0xffff
  const UINT32_MAX: int := 0xffff_ffff
  const SSIZE_MAX: int := 0x7fff_ffff_ffff_ffff
  /** The libyal allocation ceiling, 128 MiB. */
  const MEMORY_MAXIMUM_ALLOCATION_SIZE: int := 128 * 1024 * 1024

  /** Sticky flag an item sets when it meets, and skips, corrupt data. */
  const ITEM_FLAG_IS_CORRUPTED: u8 := 0x01

  /** flags | LIBREGF_ITEM_FLAG_IS_CORRUPTED */
  function MarkCorrupted(flags: u8): (r: u8)
    ensures HasFlag(r, ITEM_FLAG_IS_CORRUPTED)
    ensures HasFlag(flags, ITEM_FLAG_IS_CORRUPTED) ==> r == flags
  {
    if flags % 2 == 1 then flags else flags + 1
  }

  /** The hive's format version, from the file header. */
  datatype FormatVersion = FormatVersion(major: u32, minor: u32)

  /**
   * In format 1.1 and earlier the records inside a cell are preceded by the
   * 4-byte cell size, so they start at offset 4.
   */
  function RecordStart(version: FormatVersion): (r: nat)
    ensures r == 0 || r == 4
  {
    if version.major == 1 && version.minor <= 1 then 4 else 0
  }

  /** Whether the flag bit `bit` (a power of two) is set in `flags`. */
  predicate HasFlag(flags: nat, bit: nat)
    requires bit > 0
  {
    (flags / bit) % 2 == 1
  }

  datatype Option<T> = None | Some(value: T)

  datatype Result<T> = Ok(value: T) | Err

  datatype Outcome<T> = Found(value: T) | NotFound | Error

  /** The 1 / 0 / -1 return value of a reader that fills in an object. */
  datatype Status = Success | Absent | Failure

  /** Truncation to an unsigned 32-bit value, as C's uint32_t arithmetic does. */
  function Wrap32(x: int): (r: u32)
    ensures 0 <= x < 0x1_0000_0000 ==> r == x
    ensures (r - x) % 0x1_0000_0000 == 0
  {
    x % 0x1_0000_0000
  }

  function Wrap64(x: int): (r: u64)
    ensures 0 <= x < 0x1_0000_0000_0000_0000 ==> r == x
    ensures (r - x) % 0x1_0000_0000_0000_0000 == 0
  {
    x % 0x1_0000_0000_0000_0000
  }

  function Pow2(n: nat): (r: nat)
    ensures r > 0
  {
    if n == 0 then 1 else 2 * Pow2(n - 1)
  }

  lemma {:induction false} Pow2Add(m: nat, n: nat)
    ensures Pow2(m + n) == Pow2(m) * Pow2(n)
  {
    if m > 0 {
      Pow2Add(m - 1, n);
    }
  }

  lemma Pow2Of32()
    ensures Pow2(32) == 0x1_0000_0000
  {
    assert Pow2(4) == 16;
    Pow2Add(4, 4);
    Pow2Add(8, 8);
    Pow2Add(16, 16);
  }

  /** Bitwise exclusive or of the low `n` bits of `a` and `b`. */
  function XorBits(a: nat, b: nat, n: nat): nat
    decreases n, 1
  {
    if n == 0 then 0 else XorLowBit(a, b, n)
  }

  /** One step of XorBits: the XOR of the low bits, then the rest shifted up. */
  function XorLowBit(a: nat, b: nat, n: nat): nat
    requires n > 0
    decreases n, 0
  {
    (a % 2 + b % 2) % 2 + 2 * XorBits(a / 2, b / 2, n - 1)
  }

  lemma {:induction false} XorBitsBound(a: nat, b: nat, n: nat)
    ensures XorBits(a, b, n) < Pow2(n)
  {
    if n > 0 {
      XorBitsBound(a / 2, b / 2, n - 1);
    }
  }

  lemma {:induction false} XorBitsSelf(a: nat, n: nat)
    ensures XorBits(a, a, n) == 0
  {
    if n > 0 {
      XorBitsSelf(a / 2, n - 1);
    }
  }

  /** The `^` of two uint32_t values. */
  function Xor32(a: u32, b: u32): u32 {
    XorBitsBound(a, b, 32);
    Pow2Of32();
    XorBits(a, b, 32)
  }

  function U16At(d: seq<u8>, i: int): u16
    requires 0 <= i && i + 2 <= |d|
  {
    d[i] as int + 0x100 * d[i + 1] as int
  }

  function U32At(d: seq<u8>, i: int): u32
    requires 0 <= i && i + 4 <= |d|
  {
    d[i] as int + 0x100 * d[i + 1] as int + 0x1_0000 * d[i + 2] as int + 0x100_0000 * d[i + 3] as int
  }

  function U32BeAt(d: seq<u8>, i: int): u32
    requires 0 <= i && i + 4 <= |d|
  {
    d[i + 3] as int + 0x100 * d[i + 2] as int + 0x1_0000 * d[i + 1] as int + 0x100_0000 * d[i] as int
  }

  function U64At(d: seq<u8>, i: int): u64
    requires 0 <= i && i + 8 <= |d|
  {
    U32At(d, i) as int + 0x1_0000_0000 * U32At(d, i + 4) as int
  }

  /** Reading a field of a slice reads the same bytes of the whole. */
  lemma U16AtSlice(d: seq<u8>, lo: nat, hi: nat, k: nat)
    requires lo <= hi <= |d| && k + 2 <= hi - lo
    ensures U16At(d, lo + k) == U16At(d[lo..hi], k)
  {
  }

  lemma U32AtSlice(d: seq<u8>, lo: nat, hi: nat, k: nat)
    requires lo <= hi <= |d| && k + 4 <= hi - lo
    ensures U32At(d, lo + k) == U32At(d[lo..hi], k)
  {
  }

  lemma U64AtSlice(d: seq<u8>, lo: nat, hi: nat, k: nat)
    requires lo <= hi <= |d| && k + 8 <= hi - lo
    ensures U64At(d, lo + k) == U64At(d[lo..hi], k)
  {
    U32AtSlice(d, lo, hi, k);
    U32AtSlice(d, lo, hi, k + 4);
  }

  /** Little-endian encodings, the inverses of the readers above. */
  function Le16(x: u16): seq<u8> {
    [x % 0x100, x / 0x100]
  }

  function Le32(x: u32): seq<u8> {
    [x % 0x100, (x / 0x100) % 0x100, (x / 0x1_0000) % 0x100, x / 0x100_0000]
  }

  function Be32(x: u32): seq<u8> {
    [x / 0x100_0000, (x / 0x1_0000) % 0x100, (x / 0x100) % 0x100, x % 0x100]
  }

  function Le64(x: u64): seq<u8> {
    Le32(x % 0x1_0000_0000) + Le32(x / 0x1_0000_0000)
  }

  lemma Le16RoundTrip(x: u16, d: seq<u8>, i: nat)
    requires i + 2 <= |d| && d[i..i + 2] == Le16(x)
    ensures U16At(d, i) == x
  {
    assert d[i] == d[i..i + 2][0] && d[i + 1] == d[i..i + 2][1];
  }

  /** The four bytes of Le32 add back up to the value. */
  lemma Le32Sum(x: u32)
    ensures x % 0x100 + 0x100 * ((x / 0x100) % 0x100) + 0x1_0000 * ((x / 0x1_0000) % 0x100) + 0x100_0000 * (x / 0x100_0000) == x
  {
    var a := x / 0x100;
    var b := a / 0x100;
    assert x == x % 0x100 + 0x100 * a;
    assert a == a % 0x100 + 0x100 * b;
    assert b == x / 0x1_0000;
    assert b == b % 0x100 + 0x100 * (b / 0x100);
    assert b / 0x100 == x / 0x100_0000;
  }

  lemma Le32RoundTrip(x: u32, d: seq<u8>, i: nat)
    requires i + 4 <= |d| && d[i..i + 4] == Le32(x)
    ensures U32At(d, i) == x
  {
    Le32Sum(x);
    assert d[i] == d[i..i + 4][0] && d[i + 1] == d[i..i + 4][1];
    assert d[i + 2] == d[i..i + 4][2] && d[i + 3] == d[i..i + 4][3];
  }

  lemma Be32RoundTrip(x: u32, d: seq<u8>, i: nat)
    requires i + 4 <= |d| && d[i..i + 4] == Be32(x)
    ensures U32BeAt(d, i) == x
  {
    assert d[i] == d[i..i + 4][0] && d[i + 1] == d[i..i + 4][1];
    assert d[i + 2] == d[i..i + 4][2] && d[i + 3] == d[i..i + 4][3];
  }

  lemma Le64RoundTrip(x: u64, d: seq<u8>, i: nat)
    requires i + 8 <= |d| && d[i..i + 8] == Le64(x)
    ensures U64At(d, i) == x
  {
    assert d[i..i + 8][..4] == d[i..i + 4] && d[i..i + 8][4..] == d[i + 4..i + 8];
    Le32RoundTrip(x % 0x1_0000_0000, d, i);
    Le32RoundTrip(x / 0x1_0000_0000, d, i + 4);
  }

  /** True when the bytes of `sig` appear in `d` at index `at`. */
  predicate HasSignature(d: seq<u8>, at: nat, sig: seq<u8>) {
    at + |sig| <= |d| && d[at..at + |sig|] == sig
  }

  /** Where each part of a four-part concatenation lies. */
  lemma Concat4<T>(a: seq<T>, b: seq<T>, c: seq<T>, d: seq<T>)
    ensures var s := a + b + c + d;
      && s[..|a|] == a
      && s[|a|..|a| + |b|] == b
      && s[|a| + |b|..|a| + |b| + |c|] == c
      && s[|a| + |b| + |c|..] == d
  {
  }

  /** A slice of a slice is a slice of the whole. */
  lemma SliceOfSlice<T>(s: seq<T>, lo: nat, hi: nat, i: nat, j: nat)
    requires lo <= hi <= |s| && i <= j <= hi - lo
    ensures s[lo..hi][i..j] == s[lo + i..lo + j]
  {
    forall k | 0 <= k < j - i
      ensures s[lo..hi][i..j][k] == s[lo + i..lo + j][k]
    {
    }
  }
}
