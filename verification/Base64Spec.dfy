/**
 Base64 as section 4 of RFC 4648 describes it: data and text are streams of bits, read eight or six
 at a time, most significant bit first. Nothing here follows the blocks of the C code.
 */
module Base64Spec {
  import opened Machine

  /** A C character or an octet of data. */
  type Byte = bv8

  const EQUALS: Byte := 61

  /** The table of section 4: A-Z, a-z, 0-9, '+', '/', and '=' for padding in the last place. */
  const ALPHABET: seq<Byte> :=
    [65, 66, 67, 68, 69, 70, 71, 72, 73, 74, 75, 76] +
    [77, 78, 79, 80, 81, 82, 83, 84, 85, 86, 87, 88] +
    [89, 90, 97, 98, 99, 100, 101, 102, 103, 104, 105, 106] +
    [107, 108, 109, 110, 111, 112, 113, 114, 115, 116, 117, 118] +
    [119, 120, 121, 122, 48, 49, 50, 51, 52, 53, 54, 55] +
    [56, 57, 43, 47, 61]

  /** The character for a six-bit value, by ranges. */
  function CharOf(v: Byte): (c: Byte)
    requires v < 64
  {
    if v < 26 then 65 + v
    else if v < 52 then 71 + v
    else if v < 62 then v - 4
    else if v == 62 then 43
    else 47
  }

  predicate InAlphabet(c: Byte) {
    65 <= c <= 90 || 97 <= c <= 122 || 48 <= c <= 57 || c == 43 || c == 47
  }

  /** The reverse table of the code, which is indexed by any character and is 0 outside the alphabet. */
  const REVERSE: seq<Byte> :=
    [0, 0, 0, 0, 0, 0, 0, 0, 0, 0, 0, 0, 0, 0, 0, 0] +
    [0, 0, 0, 0, 0, 0, 0, 0, 0, 0, 0, 0, 0, 0, 0, 0] +
    [0, 0, 0, 0, 0, 0, 0, 0, 0, 0, 0, 62, 0, 0, 0, 63] +
    [52, 53, 54, 55, 56, 57, 58, 59, 60, 61, 0, 0, 0, 0, 0, 0] +
    [0, 0, 1, 2, 3, 4, 5, 6, 7, 8, 9, 10, 11, 12, 13, 14] +
    [15, 16, 17, 18, 19, 20, 21, 22, 23, 24, 25, 0, 0, 0, 0, 0] +
    [0, 26, 27, 28, 29, 30, 31, 32, 33, 34, 35, 36, 37, 38, 39, 40] +
    [41, 42, 43, 44, 45, 46, 47, 48, 49, 50, 51, 0, 0, 0, 0, 0] +
    [0, 0, 0, 0, 0, 0, 0, 0, 0, 0, 0, 0, 0, 0, 0, 0] +
    [0, 0, 0, 0, 0, 0, 0, 0, 0, 0, 0, 0, 0, 0, 0, 0] +
    [0, 0, 0, 0, 0, 0, 0, 0, 0, 0, 0, 0, 0, 0, 0, 0] +
    [0, 0, 0, 0, 0, 0, 0, 0, 0, 0, 0, 0, 0, 0, 0, 0] +
    [0, 0, 0, 0, 0, 0, 0, 0, 0, 0, 0, 0, 0, 0, 0, 0] +
    [0, 0, 0, 0, 0, 0, 0, 0, 0, 0, 0, 0, 0, 0, 0, 0] +
    [0, 0, 0, 0, 0, 0, 0, 0, 0, 0, 0, 0, 0, 0, 0, 0] +
    [0, 0, 0, 0, 0, 0, 0, 0, 0, 0, 0, 0, 0, 0, 0, 0]

  /** The value of a character, by ranges; one outside the alphabet counts as 0. */
  function ValueOf(c: Byte): (v: Byte)
    ensures v < 64
  {
    if 65 <= c <= 90 then c - 65
    else if 97 <= c <= 122 then c - 71
    else if 48 <= c <= 57 then c + 4
    else if c == 43 then 62
    else if c == 47 then 63
    else 0
  }

  lemma ValueOfCharOf(v: Byte)
    requires v < 64
    ensures InAlphabet(CharOf(v)) && ValueOf(CharOf(v)) == v
  {
  }

  lemma CharOfValueOf(c: Byte)
    ensures InAlphabet(c) <==> CharOf(ValueOf(c)) == c
  {
  }

  /** The table, entry by entry, is the alphabet by ranges, and then '=', which is 61. */
  lemma TableIsCharOf(v: Byte)
    requires v < 64
    ensures ALPHABET[v as int] == CharOf(v)
    ensures |ALPHABET| == 65 && ALPHABET[64] == 61
  {
  }

  /** The reverse table, entry by entry, is the value by ranges. */
  lemma TableIsValueOf(c: Byte)
    ensures |REVERSE| == 256 && REVERSE[c as int] == ValueOf(c)
  {
  }

  lemma OutsideIsZero(c: Byte)
    requires !InAlphabet(c)
    ensures ValueOf(c) == 0
  {
  }

  // ---------- Bits ----------

  function Weight(k: nat): Byte
    requires k < 8
  {
    if k == 0 then 128 else if k == 1 then 64 else if k == 2 then 32 else if k == 3 then 16
    else if k == 4 then 8 else if k == 5 then 4 else if k == 6 then 2 else 1
  }

  /** Bit `k` of an octet, counting from the most significant. */
  predicate BitOf(b: Byte, k: nat)
    requires k < 8
  {
    b & Weight(k) != 0
  }

  function Octet(b0: bool, b1: bool, b2: bool, b3: bool, b4: bool, b5: bool, b6: bool, b7: bool): Byte {
    (if b0 then 128 else 0) | (if b1 then 64 else 0) | (if b2 then 32 else 0) | (if b3 then 16 else 0) |
    (if b4 then 8 else 0) | (if b5 then 4 else 0) | (if b6 then 2 else 0) | (if b7 then 1 else 0)
  }

  function Sextet(b0: bool, b1: bool, b2: bool, b3: bool, b4: bool, b5: bool): (v: Byte)
    ensures v < 64
  {
    Octet(false, false, b0, b1, b2, b3, b4, b5)
  }

  lemma OctetOfBits(b: Byte)
    ensures Octet(BitOf(b, 0), BitOf(b, 1), BitOf(b, 2), BitOf(b, 3),
                  BitOf(b, 4), BitOf(b, 5), BitOf(b, 6), BitOf(b, 7)) == b
  {
  }

  lemma SextetOfBits(v: Byte)
    requires v < 64
    ensures Sextet(BitOf(v, 2), BitOf(v, 3), BitOf(v, 4), BitOf(v, 5), BitOf(v, 6), BitOf(v, 7)) == v
  {
  }

  lemma BitsOfSextet(b0: bool, b1: bool, b2: bool, b3: bool, b4: bool, b5: bool)
    ensures var v := Sextet(b0, b1, b2, b3, b4, b5);
            && BitOf(v, 2) == b0 && BitOf(v, 3) == b1 && BitOf(v, 4) == b2
            && BitOf(v, 5) == b3 && BitOf(v, 6) == b4 && BitOf(v, 7) == b5
  {
  }

  // ---------- Encoding ----------

  /** Bit `k` of the data, which is followed by zero bits without end. */
  predicate DataBit(data: seq<Byte>, k: nat) {
    k / 8 < |data| && BitOf(data[k / 8], k % 8)
  }

  function DataSextet(data: seq<Byte>, i: nat): (v: Byte)
    ensures v < 64
  {
    Sextet(DataBit(data, 6 * i), DataBit(data, 6 * i + 1), DataBit(data, 6 * i + 2),
           DataBit(data, 6 * i + 3), DataBit(data, 6 * i + 4), DataBit(data, 6 * i + 5))
  }

  /** A group of six bits that begins inside the data is a character of the alphabet; the rest is padding. */
  function EncodedChar(data: seq<Byte>, i: nat): Byte {
    if 6 * i < 8 * |data| then CharOf(DataSextet(data, i)) else EQUALS
  }

  function EncodedLength(n: nat): nat {
    4 * ((n + 2) / 3)
  }

  function Encode(data: seq<Byte>): (text: seq<Byte>)
    ensures |text| == EncodedLength(|data|)
  {
    seq(EncodedLength(|data|), i requires 0 <= i => EncodedChar(data, i))
  }

  // ---------- Decoding ----------

  predicate TextBit(text: seq<Byte>, k: nat) {
    k / 6 < |text| && BitOf(ValueOf(text[k / 6]), 2 + k % 6)
  }

  function DecodedByte(text: seq<Byte>, i: nat): Byte {
    Octet(TextBit(text, 8 * i), TextBit(text, 8 * i + 1), TextBit(text, 8 * i + 2), TextBit(text, 8 * i + 3),
          TextBit(text, 8 * i + 4), TextBit(text, 8 * i + 5), TextBit(text, 8 * i + 6), TextBit(text, 8 * i + 7))
  }

  /** How many of the last two characters are '=', in whatever order. */
  function Padding(text: seq<Byte>): (p: nat)
    ensures p <= 2 && (text == [] ==> p == 0)
  {
    var n := |text|;
    if n > 3 then (if text[n - 1] == EQUALS then 1 else 0) + (if text[n - 2] == EQUALS then 1 else 0) else 0
  }

  function Decoded(text: seq<Byte>): (data: seq<Byte>)
    ensures |data| == 3 * |text| / 4 - Padding(text)
  {
    seq(3 * |text| / 4 - Padding(text), i requires 0 <= i => DecodedByte(text, i))
  }

  /** Text of a length that is not a multiple of four is refused; any other text has a meaning. */
  function Decode(text: seq<Byte>): Option<seq<Byte>> {
    if |text| % 4 != 0 then None else Some(Decoded(text))
  }

  /** Section 3.5 of RFC 4648: alphabet characters, then up to two '=', with the unused bits zero. */
  predicate Canonical(text: seq<Byte>) {
    var n, p := |text|, Padding(text);
    && n % 4 == 0
    && (forall i :: 0 <= i < n - p ==> InAlphabet(text[i]))
    && (forall i :: n - p <= i < n ==> text[i] == EQUALS)
    && (p == 1 ==> ValueOf(text[n - 2]) & 3 == 0)
    && (p == 2 ==> ValueOf(text[n - 3]) & 15 == 0)
  }
}
