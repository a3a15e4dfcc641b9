/** ASCII case folding, as Rust's `eq_ignore_ascii_case` and `to_ascii_lowercase` do it. */
module Ascii {

  function Lower(c: char): char {
    if 'A' <= c <= 'Z' then (c as int + 32) as char else c
  }

  function LowerAll(s: string): string {
    seq(|s|, i requires 0 <= i < |s| => Lower(s[i]))
  }

  predicate EqIgnoreCase(a: string, b: string) {
    LowerAll(a) == LowerAll(b)
  }
}

/**
Words of four field elements and their hex form
(crates/miden-multisig-client/src/keystore.rs, transaction/mod.rs `word_to_hex`):
64 hex digits, optionally after `0x`, that spell four little-endian 64-bit limbs,
each below the field modulus. The reader accepts either case, the writer emits
lower case; the two undo each other.
*/
module Words {
  import opened Wrappers
  import opened Ascii

  /** The modulus of the Miden base field, 2^64 - 2^32 + 1. */
  const MODULUS: nat := 0xFFFF_FFFF_0000_0001

  type Byte = x: int | 0 <= x < 256
  type Felt = x: int | 0 <= x < MODULUS
  type Word = w: seq<Felt> | |w| == 4 witness [0, 0, 0, 0]

  /** `Word::default()`. */
  const ZERO: Word := [0, 0, 0, 0]

  // ----- hex digits and bytes -----

  predicate IsHex(c: char) {
    '0' <= c <= '9' || 'a' <= c <= 'f' || 'A' <= c <= 'F'
  }

  function HexValue(c: char): (v: nat)
    requires IsHex(c)
    ensures v < 16
  {
    if c <= '9' then c as int - '0' as int
    else if c <= 'F' then c as int - 'A' as int + 10
    else c as int - 'a' as int + 10
  }

  function HexDigit(v: nat): (c: char)
    requires v < 16
    ensures IsHex(c) && HexValue(c) == v
  {
    if v < 10 then ('0' as int + v) as char else ('a' as int + v - 10) as char
  }

  predicate IsHexBytes(s: string) {
    |s| % 2 == 0 && forall i | 0 <= i < |s| :: IsHex(s[i])
  }

  /** `hex::decode` on a string it accepts. */
  function HexDecode(s: string): (bytes: seq<Byte>)
    requires IsHexBytes(s)
    ensures 2 * |bytes| == |s|
  {
    seq(|s| / 2, i requires 0 <= i < |s| / 2 => 16 * HexValue(s[2 * i]) + HexValue(s[2 * i + 1]))
  }

  function Nibble(bytes: seq<Byte>, i: nat): nat
    requires i < 2 * |bytes|
  {
    if i % 2 == 0 then bytes[i / 2] / 16 else bytes[i / 2] % 16
  }

  /** `hex::encode`. */
  function HexEncode(bytes: seq<Byte>): (s: string)
    ensures |s| == 2 * |bytes|
  {
    seq(2 * |bytes|, i requires 0 <= i < 2 * |bytes| => HexDigit(Nibble(bytes, i)))
  }

  lemma DecodeOfEncode(bytes: seq<Byte>)
    ensures IsHexBytes(HexEncode(bytes))
    ensures HexDecode(HexEncode(bytes)) == bytes
  {
    var s := HexEncode(bytes);
    forall i | 0 <= i < |bytes| ensures HexDecode(s)[i] == bytes[i] {
      assert s[2 * i] == HexDigit(Nibble(bytes, 2 * i));
      assert s[2 * i + 1] == HexDigit(Nibble(bytes, 2 * i + 1));
    }
  }

  lemma NibbleOfDecode(s: string, i: nat)
    requires IsHexBytes(s) && i < |s|
    ensures Nibble(HexDecode(s), i) == HexValue(s[i])
  {
    hide HexValue;
    var k := i / 2;
    assert HexDecode(s)[k] == 16 * HexValue(s[2 * k]) + HexValue(s[2 * k + 1]);
  }

  lemma LowerIsDigit(c: char)
    requires IsHex(c)
    ensures HexDigit(HexValue(c)) == Lower(c)
  {
  }

  lemma EncodeOfDecode(s: string)
    requires IsHexBytes(s)
    ensures HexEncode(HexDecode(s)) == LowerAll(s)
  {
    var bytes := HexDecode(s);
    forall i | 0 <= i < |s| ensures HexEncode(bytes)[i] == LowerAll(s)[i] {
      NibbleOfDecode(s, i);
      LowerIsDigit(s[i]);
    }
  }

  // ----- little-endian limbs -----

  /** `u64::from_le_bytes` on bytes of any number. */
  function FromLe(bytes: seq<Byte>): nat {
    if bytes == [] then 0 else bytes[0] + 256 * FromLe(bytes[1..])
  }

  /** `to_le_bytes` on `len` bytes. */
  function ToLe(n: nat, len: nat): (bytes: seq<Byte>)
    ensures |bytes| == len
  {
    if len == 0 then [] else [n % 256] + ToLe(n / 256, len - 1)
  }

  function Pow256(k: nat): nat {
    if k == 0 then 1 else 256 * Pow256(k - 1)
  }

  lemma {:induction false} FromLeOfToLe(n: nat, len: nat)
    requires n < Pow256(len)
    ensures FromLe(ToLe(n, len)) == n
  {
    if len > 0 {
      FromLeOfToLe(n / 256, len - 1);
      assert ToLe(n, len)[1..] == ToLe(n / 256, len - 1);
    }
  }

  lemma {:induction false} ToLeOfFromLe(bytes: seq<Byte>)
    ensures ToLe(FromLe(bytes), |bytes|) == bytes
  {
    if bytes != [] {
      ToLeOfFromLe(bytes[1..]);
      assert FromLe(bytes) / 256 == FromLe(bytes[1..]);
      assert bytes == [bytes[0]] + bytes[1..];
    }
  }

  lemma Pow256Of8()
    ensures Pow256(8) == 0x1_0000_0000_0000_0000
  {
    assert Pow256(4) == 0x1_0000_0000;
    assert Pow256(6) == 256 * (256 * Pow256(4));
    assert Pow256(8) == 256 * (256 * Pow256(6));
  }

  // ----- words -----

  datatype WordError = InvalidHex | WrongLength | NotAFieldElement

  /** `strip_hex_prefix`: only the lower-case prefix counts. */
  function StripPrefix(s: string): string {
    if "0x" <= s then s[2..] else s
  }

  /** `ensure_hex_prefix`. */
  function EnsurePrefix(s: string): string {
    if "0x" <= s then s else "0x" + s
  }

  function Limb(bytes: seq<Byte>, i: nat): nat
    requires |bytes| == 32 && i < 4
  {
    FromLe(bytes[8 * i..8 * i + 8])
  }

  /** What `word_from_hex` accepts: 64 hex digits, optionally after `0x`, whose
      four little-endian limbs are field elements. */
  predicate IsWordHex(s: string) {
    var digits := StripPrefix(s);
    && |digits| == 64
    && IsHexBytes(digits)
    && forall i | 0 <= i < 4 :: Limb(HexDecode(digits), i) < MODULUS
  }

  /** The word such a string spells, limb by limb. */
  function WordOf(s: string): Word
    requires IsWordHex(s)
  {
    var bytes := HexDecode(StripPrefix(s));
    [Limb(bytes, 0), Limb(bytes, 1), Limb(bytes, 2), Limb(bytes, 3)]
  }

  function ParseWord(s: string): Result<Word, WordError> {
    if !IsHexBytes(StripPrefix(s)) then Err(InvalidHex)
    else if |StripPrefix(s)| != 64 then Err(WrongLength)
    else if IsWordHex(s) then Ok(WordOf(s))
    else Err(NotAFieldElement)
  }

  /** `word_from_hex`: decode, check the length, fill the limbs chunk by chunk. */
  method WordFromHex(s: string) returns (r: Result<Word, WordError>)
    ensures r.Ok? <==> IsWordHex(s)
    ensures r.Ok? ==> r.value == WordOf(s)
    ensures r == ParseWord(s)
  {
    hide FromLe, HexDecode, IsHexBytes, StripPrefix;
    var trimmed := StripPrefix(s);
    if !IsHexBytes(trimmed) {
      return Err(InvalidHex);
    }
    var bytes := HexDecode(trimmed);
    if |bytes| != 32 {
      return Err(WrongLength);
    }
    var felts: seq<Felt> := [0, 0, 0, 0];
    for i := 0 to 4
      invariant |felts| == 4
      invariant forall k | 0 <= k < i :: Limb(bytes, k) < MODULUS && felts[k] == Limb(bytes, k)
    {
      var limb := FromLe(bytes[8 * i..8 * i + 8]);
      if limb >= MODULUS {
        assert Limb(bytes, i) >= MODULUS;
        return Err(NotAFieldElement);
      }
      felts := felts[i := limb];
    }
    assert felts == WordOf(s);
    return Ok(felts);
  }

  /** `word_to_bytes`: each element's canonical `u64`, little-endian. */
  function WordBytes(w: Word): (bytes: seq<Byte>)
    ensures |bytes| == 32
  {
    ToLe(w[0], 8) + ToLe(w[1], 8) + ToLe(w[2], 8) + ToLe(w[3], 8)
  }

  /** `word_to_hex`. */
  function WordHex(w: Word): string {
    "0x" + HexEncode(WordBytes(w))
  }

  lemma WordBytesLimb(w: Word, i: nat)
    requires i < 4
    ensures WordBytes(w)[8 * i..8 * i + 8] == ToLe(w[i], 8)
    ensures Limb(WordBytes(w), i) == w[i]
  {
    Pow256Of8();
    FromLeOfToLe(w[i], 8);
  }

  /** Reading what was written gives the word back. */
  lemma ParseOfWordHex(w: Word)
    ensures IsWordHex(WordHex(w)) && WordOf(WordHex(w)) == w
    ensures ParseWord(WordHex(w)) == Ok(w)
  {
    hide FromLe, ToLe, HexDecode, HexEncode;
    var bytes := WordBytes(w);
    DecodeOfEncode(bytes);
    assert StripPrefix(WordHex(w)) == HexEncode(bytes);
    forall i | 0 <= i < 4 ensures Limb(bytes, i) == w[i] {
      WordBytesLimb(w, i);
    }
  }

  /** Writing what was read gives the digits back, in lower case after `0x`. */
  lemma WordHexOfParse(s: string)
    requires IsWordHex(s)
    ensures WordHex(WordOf(s)) == "0x" + LowerAll(StripPrefix(s))
    ensures WordHex(WordOf(s)) == LowerAll(EnsurePrefix(s))
  {
    var digits := StripPrefix(s);
    WordBytesOfParse(s);
    EncodeOfDecode(digits);
    assert EnsurePrefix(s) == "0x" + digits;
    LowerPrefixed(digits);
  }

  lemma LowerPrefixed(digits: string)
    ensures LowerAll("0x" + digits) == "0x" + LowerAll(digits)
  {
  }

  lemma WordBytesOfParse(s: string)
    requires IsWordHex(s)
    ensures WordBytes(WordOf(s)) == HexDecode(StripPrefix(s))
  {
    hide FromLe, ToLe;
    var bytes := HexDecode(StripPrefix(s));
    var w := WordOf(s);
    forall i | 0 <= i < 4 ensures ToLe(w[i], 8) == bytes[8 * i..8 * i + 8] {
      ToLeOfFromLe(bytes[8 * i..8 * i + 8]);
    }
    assert bytes == bytes[0..8] + bytes[8..16] + bytes[16..24] + bytes[24..32];
  }

  lemma WordHexInjective(v: Word, w: Word)
    ensures WordHex(v) == WordHex(w) <==> v == w
  {
    ParseOfWordHex(v);
    ParseOfWordHex(w);
  }

  lemma LowerIsHex(c: char)
    ensures IsHex(Lower(c)) ==> IsHex(c)
  {
  }

  lemma FoldedDigits(digits: string, bytes: seq<Byte>)
    requires LowerAll(digits) == HexEncode(bytes)
    ensures IsHexBytes(digits) && HexDecode(digits) == bytes
  {
    DecodeOfEncode(bytes);
    hide HexDecode, HexEncode;
    assert |LowerAll(digits)| == |digits|;
    forall i | 0 <= i < |digits|
      ensures IsHex(digits[i])
    {
      assert IsHex(LowerAll(digits)[i]);
      LowerIsHex(digits[i]);
    }
    EncodeOfDecode(digits);
    DecodeOfEncode(HexDecode(digits));
  }

  /** A string equal to a word's hex up to case spells that word, except under the
      prefix `0X`, which the reader does not know. */
  lemma FoldedReads(s: string, w: Word)
    requires LowerAll(s) == WordHex(w)
    ensures if "0x" <= s then ParseWord(s) == Ok(w) && IsWordHex(s) else ParseWord(s) == Err(InvalidHex)
  {
    var bytes := WordBytes(w);
    FoldedPrefix(s, HexEncode(bytes));
    if "0x" <= s {
      FoldedDigits(s[2..], bytes);
      hide HexEncode, HexDecode, FromLe;
      forall i | 0 <= i < 4 ensures Limb(bytes, i) == w[i] {
        WordBytesLimb(w, i);
      }
      assert StripPrefix(s) == s[2..];
      assert IsWordHex(s);
      assert WordOf(s) == w;
    } else {
      assert !IsHex(s[1]);
    }
  }

  lemma FoldedPrefix(s: string, digits: string)
    requires LowerAll(s) == "0x" + digits
    ensures |s| >= 2 && LowerAll(s[2..]) == digits
    ensures "0x" <= s || s[1] == 'X'
  {
    var folded := "0x" + digits;
    assert |s| == |folded| && folded[0] == Lower(s[0]) && folded[1] == Lower(s[1]);
    assert forall i | 0 <= i < |digits| :: digits[i] == folded[i + 2] == Lower(s[i + 2]);
    assert s[0] == '0';
  }

  // ----- the commitment list of a signer update -----

  datatype ListError = BadWord(index: nat, error: WordError) | Duplicate(index: nat)

  predicate AllWords(hexes: seq<string>) {
    forall i | 0 <= i < |hexes| :: IsWordHex(hexes[i])
  }

  function WordsOf(hexes: seq<string>): seq<Word>
    requires AllWords(hexes)
  {
    seq(|hexes|, i requires 0 <= i < |hexes| => WordOf(hexes[i]))
  }

  predicate Distinct<T(==)>(s: seq<T>) {
    forall i, j | 0 <= i < j < |s| :: s[i] != s[j]
  }

  /** What `ProposalMetadata::signer_commitments` accepts: every string spells a
      word, and the words (not merely the strings) are pairwise distinct. */
  predicate IsCommitmentList(hexes: seq<string>) {
    AllWords(hexes) && Distinct(WordsOf(hexes))
  }

  /** Case-folded, prefixed strings identify words. */
  lemma KeysIdentifyWords(s: string, t: string)
    requires IsWordHex(s) && IsWordHex(t)
    ensures LowerAll(EnsurePrefix(s)) == LowerAll(EnsurePrefix(t)) <==> WordOf(s) == WordOf(t)
  {
    WordHexOfParse(s);
    WordHexOfParse(t);
    WordHexInjective(WordOf(s), WordOf(t));
  }

  /** `ProposalMetadata::signer_commitments`: the loop deduplicates on
      case-folded, prefixed strings. The error names the first string that
      spells no word or repeats an earlier one's word. */
  method SignerCommitments(hexes: seq<string>) returns (r: Result<seq<Word>, ListError>)
    ensures r.Ok? <==> IsCommitmentList(hexes)
    ensures r.Ok? ==> r.value == WordsOf(hexes)
    ensures r.Err? ==> r.error.index < |hexes| && IsCommitmentList(hexes[..r.error.index])
    ensures r.Err? && r.error.BadWord? ==> ParseWord(hexes[r.error.index]) == Err(r.error.error)
    ensures r.Err? && r.error.Duplicate? ==>
      IsWordHex(hexes[r.error.index]) && Repeats(hexes, r.error.index)
  {
    hide IsWordHex, WordOf, LowerAll, EnsurePrefix;
    var seen: set<string> := {};
    var commitments: seq<Word> := [];
    for i := 0 to |hexes|
      invariant Reads(hexes, i, commitments) && Distinct(commitments)
      invariant seen == set j | 0 <= j < i :: Key(hexes[j])
    {
      var commitment := WordFromHex(hexes[i]);
      if commitment.Err? {
        ReadsList(hexes, i, commitments);
        return Err(BadWord(i, commitment.error));
      }
      KeysFound(hexes, i, commitments);
      if Key(hexes[i]) in seen {
        ReadsList(hexes, i, commitments);
        return Err(Duplicate(i));
      }
      seen := seen + {Key(hexes[i])};
      commitments := commitments + [commitment.value];
    }
    ReadsList(hexes, |hexes|, commitments);
    return Ok(commitments);
  }

  /** What the loop deduplicates on. */
  function Key(s: string): string {
    LowerAll(EnsurePrefix(s))
  }

  /** Whether string `i` spells the word of an earlier one. */
  predicate Repeats(hexes: seq<string>, i: nat)
    requires i < |hexes| && IsWordHex(hexes[i])
  {
    exists j | 0 <= j < i :: IsWordHex(hexes[j]) && WordOf(hexes[j]) == WordOf(hexes[i])
  }

  ghost predicate Reads(hexes: seq<string>, n: nat, words: seq<Word>) {
    && n <= |hexes|
    && |words| == n
    && forall j | 0 <= j < n :: IsWordHex(hexes[j]) && words[j] == WordOf(hexes[j])
  }

  lemma ReadsList(hexes: seq<string>, n: nat, words: seq<Word>)
    requires Reads(hexes, n, words) && Distinct(words)
    ensures IsCommitmentList(hexes[..n]) && WordsOf(hexes[..n]) == words
    ensures n == |hexes| ==> hexes[..n] == hexes
    ensures n < |hexes| && IsWordHex(hexes[n]) && Repeats(hexes, n) ==> !IsCommitmentList(hexes)
  {
    assert AllWords(hexes[..n]);
    assert WordsOf(hexes[..n]) == words;
    if n < |hexes| && IsWordHex(hexes[n]) && Repeats(hexes, n) && AllWords(hexes) {
      var j :| 0 <= j < n && WordOf(hexes[j]) == WordOf(hexes[n]);
      assert WordsOf(hexes)[j] == WordsOf(hexes)[n];
    }
  }

  lemma KeysFound(hexes: seq<string>, i: nat, words: seq<Word>)
    requires Reads(hexes, i, words) && i < |hexes| && IsWordHex(hexes[i])
    ensures Repeats(hexes, i) <==> exists j | 0 <= j < i :: Key(hexes[j]) == Key(hexes[i])
    ensures forall j | 0 <= j < i :: Key(hexes[j]) == Key(hexes[i]) <==> words[j] == WordOf(hexes[i])
  {
    forall j | 0 <= j < i
      ensures Key(hexes[j]) == Key(hexes[i]) <==> WordOf(hexes[j]) == WordOf(hexes[i])
    {
      KeysIdentifyWords(hexes[j], hexes[i]);
    }
  }
}
