/**
 * Character decoding and the name hash shared by keys, values and path
 * lookups. The libuna decoders (a codepage byte stream, UTF-16
 * little-endian, UTF-8 and UTF-16 strings) and towupper are not part of this
 * model: a decoder is a parameter that, given a string and an index, yields
 * a character and the index after it, or fails; `upper` stands for towupper
 * followed by the cast to uint32_t.
 */
module Text {
  import opened Common

  datatype Step = Char(c: int, next: nat) | Invalid

  type Decoder<!U> = (seq<U>, nat) -> Step

  type Upper = int -> u32

  /**
   * One call of a libuna character decoder at index `i`. A decoder step that
   * does not advance within the string counts as a decoding failure.
   */
  function DecodeAt<U>(dec: Decoder<U>, s: seq<U>, i: nat): (r: Step)
    requires i < |s|
    ensures r.Char? ==> i < r.next <= |s|
  {
    var st := dec(s, i);
    if st.Char? && i < st.next <= |s| then st else Invalid
  }

  /** The characters of `s[i..]`, or None when some character fails to decode. */
  function DecodeAll<U>(dec: Decoder<U>, s: seq<U>, i: nat): Option<seq<int>>
    requires i <= |s|
    decreases |s| - i
  {
    if i == |s| then Some([])
    else match DecodeAt(dec, s, i)
      case Invalid => None
      case Char(c, next) =>
        match DecodeAll(dec, s, next)
        case None => None
        case Some(rest) => Some([c] + rest)
  }

  /** One step of the name hash: h * 37 + towupper(c), in uint32_t arithmetic. */
  function HashStep(h: u32, c: int, upper: Upper): u32 {
    Wrap32(h * 37 + upper(c))
  }

  /** The name hash of a sequence of characters, continuing from `h`. */
  function HashOfChars(chars: seq<int>, upper: Upper, h: u32): u32 {
    if chars == [] then h else HashOfChars(chars[1..], upper, HashStep(h, chars[0], upper))
  }

  /** The hash loop's outcome: whether every character decoded, and the hash reached. */
  datatype HashFold = HashFold(ok: bool, hash: u32)

  /**
   * The hash loop of the readers: decode a character, multiply by 37, add
   * its upper case; a decoding failure stops the loop with the hash so far.
   */
  function NameHash<U>(dec: Decoder<U>, upper: Upper, s: seq<U>, i: nat, h: u32): (r: HashFold)
    requires i <= |s|
    ensures r.ok <==> DecodeAll(dec, s, i).Some?
    decreases |s| - i
  {
    if i == |s| then HashFold(true, h)
    else match DecodeAt(dec, s, i)
      case Invalid => HashFold(false, h)
      case Char(c, next) => NameHash(dec, upper, s, next, HashStep(h, c, upper))
  }

  /**
   * The hash loop succeeds exactly when the whole string decodes, and then
   * its hash is the hash of the decoded characters.
   */
  lemma {:induction false} NameHashIsHashOfDecoded<U>(dec: Decoder<U>, upper: Upper, s: seq<U>, i: nat, h: u32)
    requires i <= |s|
    ensures NameHash(dec, upper, s, i, h).ok <==> DecodeAll(dec, s, i).Some?
    ensures DecodeAll(dec, s, i).Some? ==>
      NameHash(dec, upper, s, i, h).hash == HashOfChars(DecodeAll(dec, s, i).value, upper, h)
    decreases |s| - i
  {
    if i < |s| {
      match DecodeAt(dec, s, i)
      case Invalid =>
      case Char(c, next) =>
        NameHashIsHashOfDecoded(dec, upper, s, next, HashStep(h, c, upper));
        if DecodeAll(dec, s, next).Some? {
          var rest := DecodeAll(dec, s, next).value;
          assert ([c] + rest)[1..] == rest;
        }
    }
  }

  /** The characters after applying `upper`: what case-insensitive comparison sees. */
  function UpperAll(chars: seq<int>, upper: Upper): (r: seq<u32>)
    ensures |r| == |chars|
    ensures forall k :: 0 <= k < |chars| ==> r[k] == upper(chars[k])
  {
    if chars == [] then [] else [upper(chars[0])] + UpperAll(chars[1..], upper)
  }

  /**
   * Strings that agree case-insensitively have the same hash, so skipping a
   * full comparison when two non-zero hashes differ never misses a match.
   */
  lemma {:induction false} CaseInsensitiveEqualHashes(a: seq<int>, b: seq<int>, upper: Upper, h: u32)
    requires UpperAll(a, upper) == UpperAll(b, upper)
    ensures HashOfChars(a, upper, h) == HashOfChars(b, upper, h)
  {
    if a != [] {
      assert |b| == |a|;
      assert upper(a[0]) == UpperAll(a, upper)[0] == UpperAll(b, upper)[0] == upper(b[0]);
      assert UpperAll(a[1..], upper) == UpperAll(a, upper)[1..];
      assert UpperAll(b[1..], upper) == UpperAll(b, upper)[1..];
      CaseInsensitiveEqualHashes(a[1..], b[1..], upper, HashStep(h, a[0], upper));
    }
  }

  /**
   * The comparison loop of the name compare functions, from name index `ni`
   * and query index `qi`; `equal` is the outcome of the last character
   * comparison. The loop stops when the name is used up, when the query is
   * used up, or at the first pair of characters whose upper cases differ; it
   * matches only if the last comparison was equal and both strings were
   * consumed. Err when a character fails to decode.
   */
  function CompareFrom<N, Q>(nameDec: Decoder<N>, name: seq<N>, queryDec: Decoder<Q>, query: seq<Q>,
                             upper: Upper, ni: nat, qi: nat, equal: bool): Result<bool>
    requires ni <= |name| && qi <= |query|
    decreases |name| - ni
  {
    if ni == |name| || qi == |query| then Ok(equal && ni == |name| && qi == |query|)
    else match DecodeAt(nameDec, name, ni)
      case Invalid => Err
      case Char(nc, nnext) =>
        match DecodeAt(queryDec, query, qi)
        case Invalid => Err
        case Char(qc, qnext) =>
          if upper(nc) != upper(qc) then Ok(false)
          else CompareFrom(nameDec, name, queryDec, query, upper, nnext, qnext, true)
  }

  /** A full comparison, from the start of both strings. */
  function Compare<N, Q>(nameDec: Decoder<N>, name: seq<N>, queryDec: Decoder<Q>, query: seq<Q>, upper: Upper): (r: Result<bool>)
    ensures r == Err ==> DecodeAll(nameDec, name, 0).None? || DecodeAll(queryDec, query, 0).None?
    ensures r == Ok(true) ==> DecodeAll(nameDec, name, 0).Some? && DecodeAll(queryDec, query, 0).Some?
  {
    CompareFromMeaning(nameDec, name, queryDec, query, upper, 0, 0, false);
    CompareFrom(nameDec, name, queryDec, query, upper, 0, 0, false)
  }

  /** Decoding from index i gives no characters exactly when nothing is left. */
  lemma DecodeAllEmpty<U>(dec: Decoder<U>, s: seq<U>, i: nat)
    requires i <= |s|
    ensures DecodeAll(dec, s, i) == Some([]) <==> i == |s|
  {
  }

  /**
   * The comparison loop from (ni, qi) matches exactly when the rest of both
   * strings decodes, the decoded characters agree case-insensitively, and
   * either the last comparison was equal or characters remain; an error
   * means one of the two strings does not decode.
   */
  lemma {:induction false} CompareFromMeaning<N, Q>(nameDec: Decoder<N>, name: seq<N>, queryDec: Decoder<Q>,
                                                    query: seq<Q>, upper: Upper, ni: nat, qi: nat, equal: bool)
    requires ni <= |name| && qi <= |query|
    ensures var r := CompareFrom(nameDec, name, queryDec, query, upper, ni, qi, equal);
      var n := DecodeAll(nameDec, name, ni);
      var q := DecodeAll(queryDec, query, qi);
      && (r == Ok(true) <==>
           n.Some? && q.Some? && UpperAll(n.value, upper) == UpperAll(q.value, upper) && (equal || n.value != []))
      && (r == Err ==> n.None? || q.None?)
    decreases |name| - ni
  {
    var n := DecodeAll(nameDec, name, ni);
    var q := DecodeAll(queryDec, query, qi);
    DecodeAllEmpty(nameDec, name, ni);
    DecodeAllEmpty(queryDec, query, qi);
    if ni == |name| || qi == |query| {
      if n.Some? && q.Some? && UpperAll(n.value, upper) == UpperAll(q.value, upper) {
        assert |n.value| == |q.value|;
      }
    } else {
      match DecodeAt(nameDec, name, ni)
      case Invalid =>
      case Char(nc, nnext) =>
        match DecodeAt(queryDec, query, qi)
        case Invalid =>
        case Char(qc, qnext) =>
          if n.Some? && q.Some? {
            var nr := DecodeAll(nameDec, name, nnext).value;
            var qr := DecodeAll(queryDec, query, qnext).value;
            assert n.value == [nc] + nr && q.value == [qc] + qr;
            assert UpperAll(n.value, upper) == [upper(nc)] + UpperAll(nr, upper) by {
              assert n.value[1..] == nr;
            }
            assert UpperAll(q.value, upper) == [upper(qc)] + UpperAll(qr, upper) by {
              assert q.value[1..] == qr;
            }
            if upper(nc) != upper(qc) {
              assert UpperAll(n.value, upper)[0] != UpperAll(q.value, upper)[0];
            } else {
              CompareFromMeaning(nameDec, name, queryDec, query, upper, nnext, qnext, true);
              if UpperAll(nr, upper) == UpperAll(qr, upper) {
                assert UpperAll(n.value, upper) == UpperAll(q.value, upper);
              }
              if UpperAll(n.value, upper) == UpperAll(q.value, upper) {
                assert UpperAll(nr, upper) == UpperAll(n.value, upper)[1..];
              }
            }
          } else if upper(nc) == upper(qc) {
            CompareFromMeaning(nameDec, name, queryDec, query, upper, nnext, qnext, true);
          }
    }
  }

  /**
   * A name matches a query exactly when both decode, are non-empty and agree
   * character by character after upper-casing.
   */
  lemma CompareMeaning<N, Q>(nameDec: Decoder<N>, name: seq<N>, queryDec: Decoder<Q>, query: seq<Q>, upper: Upper)
    ensures var n := DecodeAll(nameDec, name, 0);
      var q := DecodeAll(queryDec, query, 0);
      Compare(nameDec, name, queryDec, query, upper) == Ok(true) <==>
        n.Some? && q.Some? && n.value != [] && UpperAll(n.value, upper) == UpperAll(q.value, upper)
  {
    CompareFromMeaning(nameDec, name, queryDec, query, upper, 0, 0, false);
  }

  /**
   * The hash gate of the compare functions is sound: when a name matches a
   * query, the hash loop gives both the same hash, so a full comparison is
   * only skipped for names that cannot match.
   */
  lemma MatchImpliesEqualHashes<N, Q>(nameDec: Decoder<N>, name: seq<N>, queryDec: Decoder<Q>, query: seq<Q>, upper: Upper)
    requires Compare(nameDec, name, queryDec, query, upper) == Ok(true)
    ensures NameHash(nameDec, upper, name, 0, 0).ok && NameHash(queryDec, upper, query, 0, 0).ok
    ensures NameHash(nameDec, upper, name, 0, 0).hash == NameHash(queryDec, upper, query, 0, 0).hash
  {
    CompareMeaning(nameDec, name, queryDec, query, upper);
    NameHashIsHashOfDecoded(nameDec, upper, name, 0, 0);
    NameHashIsHashOfDecoded(queryDec, upper, query, 0, 0);
    CaseInsensitiveEqualHashes(DecodeAll(nameDec, name, 0).value, DecodeAll(queryDec, query, 0).value, upper, 0);
  }
}
