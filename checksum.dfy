/**
 * The little-endian XOR-32 checksum of libregf_checksum.c: the input is cut
 * into 4-byte groups, each group read as a little-endian 32-bit word (a short
 * last group fills only the low bytes), and the words are XORed into the
 * initial value. Only the portable byte loop is modelled; the aligned fast
 * path is not.
 */
module Checksum {
  import opened Common

  /** BYTE_BOUND[k] is 256 to the power k: a value of k bytes lies below it. */
  const BYTE_BOUND: seq<nat> := [1, 0x100, 0x1_0000, 0x100_0000, 0x1_0000_0000]

  /** The little-endian value of a group of at most four bytes. */
  function Word(g: seq<u8>): (r: u32)
    requires |g| <= 4
    ensures r < BYTE_BOUND[|g|]
  {
    if |g| == 0 then 0 else g[0] + 0x100 * Word(g[1..])
  }

  /**
   * Combines the words of `b`, group by group from the front, into `acc`.
   * The checksum uses XOR; the grouping lemmas hold for any combination.
   */
  function FoldWords(b: seq<u8>, acc: u32, combine: (u32, u32) -> u32): u32
    decreases |b|
  {
    if |b| == 0 then acc
    else
      var n := if |b| >= 4 then 4 else |b|;
      FoldWords(b[n..], combine(acc, Word(b[..n])), combine)
  }

  /** The checksum of `buffer` starting from `initialValue`. */
  function LittleEndianXor32(buffer: seq<u8>, initialValue: u32): u32 {
    FoldWords(buffer, initialValue, Xor32)
  }

  /** The value of a group of one to four bytes, spelt out byte by byte. */
  lemma WordOfGroup(g: seq<u8>)
    requires 1 <= |g| <= 4
    ensures |g| == 1 ==> Word(g) == g[0]
    ensures |g| == 2 ==> Word(g) == g[0] as int + 0x100 * g[1] as int
    ensures |g| == 3 ==> Word(g) == g[0] as int + 0x100 * (g[1] as int + 0x100 * g[2] as int)
    ensures |g| == 4 ==> Word(g) == g[0] as int + 0x100 * (g[1] as int + 0x100 * (g[2] as int + 0x100 * g[3] as int))
  {
    var g1 := g[1..];
    if |g| >= 2 {
      var g2 := g1[1..];
      assert g1[0] == g[1];
      if |g| >= 3 {
        var g3 := g2[1..];
        assert g2[0] == g[2];
        if |g| == 4 {
          assert g3[0] == g[3] && g3[1..] == [];
        }
      }
    }
  }

  /** A full group is the little-endian 32-bit word b0 | b1 << 8 | b2 << 16 | b3 << 24. */
  lemma FullGroupIsLittleEndian(g: seq<u8>)
    requires |g| == 4
    ensures Word(g) == U32At(g, 0)
  {
    WordOfGroup(g);
  }

  /**
   * The portable loop of libregf_checksum_calculate_little_endian_xor32.
   * Each round assembles one word by adding a byte into the low end and
   * shifting left by 8 (the low byte is zero before every OR, so the OR is
   * an addition), consumes min(size, 4) bytes and XORs the word in.
   * A size above SSIZE_MAX is refused.
   */
  method CalculateLittleEndianXor32(buffer: seq<u8>, initialValue: u32) returns (r: Result<u32>)
    ensures |buffer| > SSIZE_MAX ==> r == Err
    ensures |buffer| <= SSIZE_MAX ==> r == Ok(LittleEndianXor32(buffer, initialValue))
  {
    if |buffer| > SSIZE_MAX {
      return Err;
    }
    var checksum: u32 := initialValue;
    var position := 0;
    var size := |buffer|;
    while size > 0
      invariant 0 <= position <= |buffer| && size == |buffer| - position
      invariant FoldWords(buffer[position..], checksum, Xor32) == LittleEndianXor32(buffer, initialValue)
    {
      var value, byteCount := AssembleWord(buffer, position);
      FoldStep(buffer, position, byteCount, checksum, Xor32);
      checksum := Xor32(checksum, value);
      position := position + byteCount;
      size := size - byteCount;
    }
    assert buffer[position..] == [];
    return Ok(checksum);
  }

  /**
   * The body of one round: the word of the next min(size, 4) bytes,
   * assembled from the highest byte down.
   */
  method AssembleWord(buffer: seq<u8>, position: nat) returns (value: u32, byteCount: nat)
    requires position < |buffer|
    ensures byteCount == if |buffer| - position >= 4 then 4 else |buffer| - position
    ensures value == Word(buffer[position..position + byteCount])
  {
    var size := |buffer| - position;
    var word: int := 0;
    byteCount := 1;
    if size >= 4 {
      word := word + buffer[position + 3];
      word := word * 0x100;
      byteCount := byteCount + 1;
    }
    if size >= 3 {
      word := word + buffer[position + 2];
      word := word * 0x100;
      byteCount := byteCount + 1;
    }
    if size >= 2 {
      word := word + buffer[position + 1];
      word := word * 0x100;
      byteCount := byteCount + 1;
    }
    word := word + buffer[position];
    WordOfGroup(buffer[position..position + byteCount]);
    value := word;
  }

  /** One round of the loop: the group at `position` is combined, the rest follows. */
  lemma FoldStep(buffer: seq<u8>, position: nat, byteCount: nat, acc: u32, combine: (u32, u32) -> u32)
    requires position < |buffer|
    requires byteCount == if |buffer| - position >= 4 then 4 else |buffer| - position
    ensures FoldWords(buffer[position..], acc, combine)
         == FoldWords(buffer[position + byteCount..], combine(acc, Word(buffer[position..position + byteCount])), combine)
  {
    assert buffer[position..][..byteCount] == buffer[position..position + byteCount];
    assert buffer[position..][byteCount..] == buffer[position + byteCount..];
  }

  /** Folding a 4-aligned prefix and then the rest is folding the whole. */
  lemma {:induction false} FoldAppend(a: seq<u8>, b: seq<u8>, acc: u32, combine: (u32, u32) -> u32)
    requires |a| % 4 == 0
    ensures FoldWords(a + b, acc, combine) == FoldWords(b, FoldWords(a, acc, combine), combine)
    decreases |a|
  {
    if |a| > 0 {
      var ab := a + b;
      assert ab[..4] == a[..4];
      assert ab[4..] == a[4..] + b;
      FoldAppend(a[4..], b, combine(acc, Word(a[..4])), combine);
    } else {
      assert a + b == b;
    }
  }

  /**
   * Appending the little-endian checksum of a 4-aligned buffer to it makes
   * the checksum of the whole zero: a stored checksum cancels itself.
   */
  lemma StoredChecksumCancels(a: seq<u8>)
    requires |a| % 4 == 0
    ensures LittleEndianXor32(a + Le32(LittleEndianXor32(a, 0)), 0) == 0
  {
    var c := LittleEndianXor32(a, 0);
    var t := Le32(c);
    FoldAppend(a, t, 0, Xor32);
    FoldOneWord(t, c, Xor32);
    Le32RoundTrip(c, t, 0);
    WordOfGroup(t);
    assert Word(t) == c;
    XorBitsSelf(c, 32);
  }

  /** A buffer of one group folds that group's word in. */
  lemma FoldOneWord(t: seq<u8>, acc: u32, combine: (u32, u32) -> u32)
    requires |t| == 4
    ensures FoldWords(t, acc, combine) == combine(acc, Word(t))
  {
    assert t[4..] == [] && t[..4] == t;
  }
}
