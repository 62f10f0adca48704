/** What encoding and decoding are for: they are each other's inverse, and both respect concatenation. */
module Base64Laws {
  import opened Machine
  import opened Base64Spec
  import Base64

  // ---------- Decoding what was encoded ----------

  lemma BitsOfDataSextet(data: seq<Byte>, i: nat, t: nat)
    requires t < 6
    ensures BitOf(DataSextet(data, i), 2 + t) == DataBit(data, 6 * i + t)
  {
    hide DataBit;
    BitsOfSextet(DataBit(data, 6 * i), DataBit(data, 6 * i + 1), DataBit(data, 6 * i + 2),
                 DataBit(data, 6 * i + 3), DataBit(data, 6 * i + 4), DataBit(data, 6 * i + 5));
  }

  /** Each character of the text carries the six bits of data it stands for; '=' carries zeros. */
  lemma BitsOfEncodedChar(data: seq<Byte>, i: nat, t: nat)
    requires t < 6
    ensures BitOf(ValueOf(EncodedChar(data, i)), 2 + t) == DataBit(data, 6 * i + t)
  {
    if 6 * i < 8 * |data| {
      hide DataBit, BitOf, DataSextet;
      ValueOfCharOf(DataSextet(data, i));
      BitsOfDataSextet(data, i, t);
    } else {
      assert ValueOf(EQUALS) == 0;
      assert !BitOf(0, 2 + t);
    }
  }

  lemma BitsOfEncoding(data: seq<Byte>, k: nat)
    requires k / 6 < EncodedLength(|data|)
    ensures TextBit(Encode(data), k) == DataBit(data, k)
  {
    hide BitOf, DataBit, ValueOf, EncodedChar;
    BitsOfEncodedChar(data, k / 6, k % 6);
    assert 6 * (k / 6) + k % 6 == k;
  }

  lemma DataBitOfByte(data: seq<Byte>, k: nat)
    requires k / 8 < |data|
    ensures DataBit(data, k) == BitOf(data[k / 8], k % 8)
  {
  }

  lemma DecodedByteOfEncoding(data: seq<Byte>, i: nat)
    requires i < |data|
    ensures DecodedByte(Encode(data), i) == data[i]
  {
    hide TextBit, DataBit, BitOf, Encode, Octet;
    forall k: nat | 8 * i <= k < 8 * i + 8
      ensures TextBit(Encode(data), k) == BitOf(data[i], k - 8 * i)
    {
      BitsOfEncoding(data, k);
      DataBitOfByte(data, k);
    }
    OctetOfBits(data[i]);
  }

  lemma PaddingOfEncoding(data: seq<Byte>)
    ensures Padding(Encode(data)) == (3 - |data| % 3) % 3
    ensures 3 * |Encode(data)| / 4 - Padding(Encode(data)) == |data|
  {
    hide EncodedChar;
    var n := EncodedLength(|data|);
    if n > 0 {
      CharIsNotEquals(data, n - 1);
      CharIsNotEquals(data, n - 2);
    }
  }

  lemma CharIsNotEquals(data: seq<Byte>, i: nat)
    ensures EncodedChar(data, i) == EQUALS <==> 6 * i >= 8 * |data|
    ensures 6 * i < 8 * |data| ==> InAlphabet(EncodedChar(data, i))
  {
    if 6 * i < 8 * |data| {
      ValueOfCharOf(DataSextet(data, i));
    }
  }

  /** Exactly the last `(3 - n % 3) % 3` characters of an encoding are '=', which is 61. */
  lemma PaddingIsEquals(data: seq<Byte>, i: nat)
    requires i < |Encode(data)|
    ensures Encode(data)[i] == 61 <==> i >= |Encode(data)| - (3 - |data| % 3) % 3
  {
    PlaceOfUnusedBits(|data|);
    CharIsNotEquals(data, i);
    hide EncodedChar, EncodedLength;
  }

  /** The decoder cuts off one octet for each of the last two characters that is '='. */
  lemma DecodedSize(text: seq<Byte>)
    requires |text| % 4 == 0
    ensures var n := |text|;
            |Decode(text).value| == if n == 0 then 0 else
            3 * n / 4 - (if text[n - 1] == 61 then 1 else 0) - (if text[n - 2] == 61 then 1 else 0)
  {
  }

  /** Decoding gives back the data, for every string of bytes and all three ways of padding. */
  lemma DecodeEncode(data: seq<Byte>)
    ensures Decode(Encode(data)) == Some(data)
  {
    hide DecodedByte, Encode, Padding;
    PaddingOfEncoding(data);
    forall i | 0 <= i < |data|
      ensures DecodedByte(Encode(data), i) == data[i]
    {
      DecodedByteOfEncoding(data, i);
    }
    assert Decoded(Encode(data)) == data;
  }

  // ---------- Encoding what was decoded ----------

  lemma UnusedBitsAreZero(data: seq<Byte>, i: nat)
    ensures 6 * i + 4 == 8 * |data| ==> DataSextet(data, i) & 3 == 0
    ensures 6 * i + 2 == 8 * |data| ==> DataSextet(data, i) & 15 == 0
  {
    assert forall k: nat :: k >= 8 * |data| ==> !DataBit(data, k);
    hide DataBit;
  }

  lemma PlaceOfUnusedBits(m: nat)
    ensures var n, p := EncodedLength(m), (3 - m % 3) % 3;
            && n % 4 == 0 && p <= n
            && (forall i: nat :: 6 * i < 8 * m <==> i < n - p)
            && (p == 1 ==> n >= 2 && 6 * (n - 2) + 4 == 8 * m)
            && (p == 2 ==> n >= 3 && 6 * (n - 3) + 2 == 8 * m)
  {
    var q := m / 3;
    assert m == 3 * q + m % 3;
    assert EncodedLength(m) == 4 * q + if m % 3 == 0 then 0 else 4;
  }

  /** Every output of the encoder is canonical. */
  lemma EncodingIsCanonical(data: seq<Byte>)
    ensures Canonical(Encode(data))
  {
    hide EncodedChar, EncodedLength, DataSextet, Padding, InAlphabet, CharOf, ValueOf;
    var text := Encode(data);
    var n, p := |text|, Padding(text);
    PaddingOfEncoding(data);
    PlaceOfUnusedBits(|data|);
    forall i | 0 <= i < n
      ensures if i < n - p then InAlphabet(text[i]) else text[i] == EQUALS
    {
      CharIsNotEquals(data, i);
    }
    if p == 1 {
      ValueOfEncodedChar(data, n - 2);
      UnusedBitsAreZero(data, n - 2);
    } else if p == 2 {
      ValueOfEncodedChar(data, n - 3);
      UnusedBitsAreZero(data, n - 3);
    }
  }

  /** No character of an encoding is NUL, so the C string it is stored as has its full length. */
  lemma EncodingIsCString(data: seq<Byte>)
    ensures 0 !in Encode(data)
  {
    EncodingIsCanonical(data);
    hide Encode, Padding;
  }

  lemma ValueOfEncodedChar(data: seq<Byte>, i: nat)
    requires 6 * i < 8 * |data|
    ensures ValueOf(EncodedChar(data, i)) == DataSextet(data, i)
  {
    ValueOfCharOf(DataSextet(data, i));
  }

  lemma BitsOfDecodedByte(text: seq<Byte>, i: nat, t: nat)
    requires t < 8
    ensures BitOf(DecodedByte(text, i), t) == TextBit(text, 8 * i + t)
  {
    hide TextBit;
  }

  /** The bits of decoded canonical text are the bits of the text; what was cut off was all zero. */
  lemma BitsOfDecoding(text: seq<Byte>, k: nat)
    requires Canonical(text) && k < 6 * (|text| - Padding(text))
    ensures DataBit(Decoded(text), k) == TextBit(text, k)
  {
    hide TextBit, BitOf, DecodedByte;
    if k / 8 < |Decoded(text)| {
      BitsOfDecodedByte(text, k / 8, k % 8);
      assert 8 * (k / 8) + k % 8 == k;
    } else {
      CutBitsAreZero(text, k);
    }
  }

  lemma PlaceOfCutBit(n: nat, p: nat, k: nat)
    requires n % 4 == 0 && p <= 2 && 3 * n / 4 - p <= k / 8 && k < 6 * (n - p)
    ensures p == 1 || p == 2
    ensures k / 6 == n - p - 1 && k % 6 >= if p == 1 then 4 else 2
  {
    var m := n / 4;
    assert n == 4 * m && 3 * n / 4 == 3 * m;
  }

  lemma CutBitsAreZero(text: seq<Byte>, k: nat)
    requires Canonical(text) && |Decoded(text)| <= k / 8 && k < 6 * (|text| - Padding(text))
    ensures !TextBit(text, k)
  {
    PlaceOfCutBit(|text|, Padding(text), k);
    hide BitOf, ValueOf, InAlphabet, Padding, Decoded;
    LowBits(ValueOf(text[k / 6]), 2 + k % 6);
  }

  lemma LowBits(v: Byte, t: nat)
    requires t < 8
    ensures v & 3 == 0 && t >= 6 ==> !BitOf(v, t)
    ensures v & 15 == 0 && t >= 4 ==> !BitOf(v, t)
  {
  }

  lemma SextetOfDecoding(text: seq<Byte>, i: nat)
    requires Canonical(text) && i < |text| - Padding(text)
    ensures DataSextet(Decoded(text), i) == ValueOf(text[i])
  {
    hide DataBit, TextBit, BitOf, Decoded, Canonical, ValueOf, Octet, Sextet;
    forall k: nat | 6 * i <= k < 6 * i + 6
      ensures DataBit(Decoded(text), k) == BitOf(ValueOf(text[i]), 2 + k - 6 * i)
    {
      BitsOfDecoding(text, k);
      TextBitOfChar(text, i, k - 6 * i);
    }
    SextetOfBits(ValueOf(text[i]));
  }

  lemma TextBitOfChar(text: seq<Byte>, i: nat, t: nat)
    requires i < |text| && t < 6
    ensures TextBit(text, 6 * i + t) == BitOf(ValueOf(text[i]), 2 + t)
  {
    assert (6 * i + t) / 6 == i && (6 * i + t) % 6 == t;
  }

  /** The lengths fit: what is decoded from `n` characters encodes to `n`, with the same padding. */
  lemma LengthComesBack(n: nat, p: nat)
    requires n % 4 == 0 && p <= 2 && p <= n
    ensures 3 * n / 4 >= p && EncodedLength(3 * n / 4 - p) == n
    ensures forall i: nat :: 6 * i < 8 * (3 * n / 4 - p) <==> i < n - p
  {
    var m := n / 4;
    assert n == 4 * m && 3 * n / 4 == 3 * m;
  }

  lemma EncodeDecodeCanonical(text: seq<Byte>)
    requires Canonical(text)
    ensures Encode(Decoded(text)) == text
  {
    hide DataSextet, CharOf, ValueOf, InAlphabet;
    var data := Decoded(text);
    var n, p := |text|, Padding(text);
    LengthComesBack(n, p);
    hide Padding, EncodedLength;
    forall i | 0 <= i < n
      ensures EncodedChar(data, i) == text[i]
    {
      if i < n - p {
        SextetOfDecoding(text, i);
        CharOfValueOf(text[i]);
      }
    }
  }

  /** Encoding is a bijection onto the canonical texts: exactly those come back from a decode and encode. */
  lemma EncodeDecode(text: seq<Byte>)
    requires |text| % 4 == 0
    ensures Encode(Decode(text).value) == text <==> Canonical(text)
  {
    hide Canonical, Encode, Decoded;
    if Canonical(text) {
      EncodeDecodeCanonical(text);
    }
    EncodingIsCanonical(Decode(text).value);
  }

  /** Decoding and encoding again makes any text of a right length canonical, once and for all. */
  lemma NormalisationIsIdempotent(text: seq<Byte>)
    requires |text| % 4 == 0
    ensures var once := Encode(Decode(text).value);
            && Canonical(once)
            && Decode(once) == Decode(text)
            && Encode(Decode(once).value) == once
  {
    hide Canonical, Encode, Decoded;
    EncodingIsCanonical(Decode(text).value);
    DecodeEncode(Decode(text).value);
  }

  // ---------- Concatenation ----------

  lemma DataBitOfSuffix(a: seq<Byte>, b: seq<Byte>, k: nat)
    ensures DataBit(a + b, 8 * |a| + k) == DataBit(b, k)
  {
    assert (8 * |a| + k) / 8 == |a| + k / 8 && (8 * |a| + k) % 8 == k % 8;
  }

  lemma EncodedCharOfPrefix(a: seq<Byte>, b: seq<Byte>, i: nat)
    requires |a| % 3 == 0 && 6 * i < 8 * |a|
    ensures EncodedChar(a + b, i) == EncodedChar(a, i)
  {
    hide Sextet, CharOf, BitOf;
    forall k: nat | 6 * i <= k < 6 * i + 6
      ensures DataBit(a + b, k) == DataBit(a, k)
    {
    }
    hide DataBit;
  }

  lemma EncodedCharOfSuffix(a: seq<Byte>, b: seq<Byte>, m: nat, i: nat)
    requires |a| == 3 * m
    ensures EncodedChar(a + b, 4 * m + i) == EncodedChar(b, i)
  {
    hide DataBit, Sextet, CharOf;
    forall k: nat | 6 * i <= k < 6 * i + 6
      ensures DataBit(b, k) == DataBit(a + b, 24 * m + k)
    {
      DataBitOfSuffix(a, b, k);
    }
    assert 6 * (4 * m + i) == 24 * m + 6 * i;
  }

  lemma EncodeWholeBlocks(a: seq<Byte>, b: seq<Byte>)
    requires |a| % 3 == 0
    ensures Encode(a + b) == Encode(a) + Encode(b)
  {
    hide EncodedChar;
    var m := |a| / 3;
    forall i | 0 <= i < |Encode(a + b)|
      ensures Encode(a + b)[i] == (Encode(a) + Encode(b))[i]
    {
      if i < 4 * m {
        EncodedCharOfPrefix(a, b, i);
      } else {
        EncodedCharOfSuffix(a, b, m, i - 4 * m);
      }
    }
  }

  lemma PaddingPlace(n: nat, m: nat)
    requires n % 3 != 0 && m > 0 && EncodedLength(n + m) == EncodedLength(n) + EncodedLength(m)
    ensures 8 * n <= 6 * (EncodedLength(n) - 1) < 8 * (n + m)
  {
  }

  /** Padding that ends the first of two texts is not at that place in the text of the whole. */
  lemma PaddingSpoilsConcatenation(a: seq<Byte>, b: seq<Byte>)
    requires |a| % 3 != 0 && b != []
    ensures Encode(a + b) != Encode(a) + Encode(b)
  {
    if EncodedLength(|a + b|) == EncodedLength(|a|) + EncodedLength(|b|) {
      PaddingPlace(|a|, |b|);
      var i := EncodedLength(|a|) - 1;
      CharIsNotEquals(a, i);
      CharIsNotEquals(a + b, i);
      hide EncodedChar, EncodedLength;
      assert Encode(a + b)[i] != (Encode(a) + Encode(b))[i];
    } else {
      hide Encode;
    }
  }

  /** Encoding pieces separately works exactly when the first piece is whole blocks, or the second is empty. */
  lemma EncodeConcatenation(a: seq<Byte>, b: seq<Byte>)
    ensures Encode(a + b) == Encode(a) + Encode(b) <==> |a| % 3 == 0 || b == []
  {
    hide EncodedChar;
    if |a| % 3 == 0 {
      EncodeWholeBlocks(a, b);
    } else if b == [] {
      assert a + b == a;
      assert Encode(b) == [];
    } else {
      PaddingSpoilsConcatenation(a, b);
    }
  }

  lemma DecodedByteOfPrefix(s: seq<Byte>, t: seq<Byte>, i: nat)
    requires |s| % 4 == 0 && 8 * i + 8 <= 6 * |s|
    ensures DecodedByte(s + t, i) == DecodedByte(s, i)
  {
    forall k: nat | 8 * i <= k < 8 * i + 8
      ensures TextBit(s + t, k) == TextBit(s, k)
    {
    }
    hide TextBit, Octet;
  }

  lemma TextBitOfSuffix(s: seq<Byte>, t: seq<Byte>, k: nat)
    ensures TextBit(s + t, 6 * |s| + k) == TextBit(t, k)
  {
    assert (6 * |s| + k) / 6 == |s| + k / 6 && (6 * |s| + k) % 6 == k % 6;
  }

  lemma DecodedByteOfSuffix(s: seq<Byte>, t: seq<Byte>, m: nat, i: nat)
    requires |s| == 4 * m
    ensures DecodedByte(s + t, 3 * m + i) == DecodedByte(t, i)
  {
    hide TextBit, Octet;
    forall k: nat | 8 * i <= k < 8 * i + 8
      ensures TextBit(t, k) == TextBit(s + t, 24 * m + k)
    {
      TextBitOfSuffix(s, t, k);
    }
    assert 8 * (3 * m + i) == 24 * m + 8 * i;
  }

  lemma PaddingOfConcatenation(s: seq<Byte>, t: seq<Byte>)
    requires |s| % 4 == 0 && |t| % 4 == 0
    ensures Padding(s + t) == if t == [] then Padding(s) else Padding(t)
  {
    if t == [] {
      assert s + t == s;
    }
  }

  lemma DecodeUnpadded(s: seq<Byte>, t: seq<Byte>)
    requires |s| % 4 == 0 && |t| % 4 == 0 && Padding(s) == 0
    ensures Decoded(s + t) == Decoded(s) + Decoded(t)
  {
    hide DecodedByte, Padding;
    PaddingOfConcatenation(s, t);
    if t == [] {
      assert s + t == s;
      assert Decoded(t) == [];
    } else {
      var m := |s| / 4;
      forall i | 0 <= i < |Decoded(s + t)|
        ensures Decoded(s + t)[i] == (Decoded(s) + Decoded(t))[i]
      {
        if i < 3 * m {
          DecodedByteOfPrefix(s, t, i);
        } else {
          DecodedByteOfSuffix(s, t, m, i - 3 * m);
        }
      }
    }
  }

  lemma BytesOfBlocks(m: nat, n: nat)
    ensures 3 * (4 * m + 4 * n) / 4 == 3 * (4 * m) / 4 + 3 * (4 * n) / 4
  {
  }

  /** What the padding of the first piece cuts off is missing from the pieces, not from the whole. */
  lemma PaddingShortensPieces(s: seq<Byte>, t: seq<Byte>)
    requires |s| % 4 == 0 && |t| % 4 == 0 && t != []
    ensures |Decoded(s + t)| == |Decoded(s)| + |Decoded(t)| + Padding(s)
  {
    PaddingOfConcatenation(s, t);
    hide Padding, Decoded;
    BytesOfBlocks(|s| / 4, |t| / 4);
  }

  /** Decoding pieces separately works exactly when the first piece is unpadded, or the second is empty. */
  lemma DecodeConcatenation(s: seq<Byte>, t: seq<Byte>)
    requires |s| % 4 == 0 && |t| % 4 == 0
    ensures Decode(s + t).value == Decode(s).value + Decode(t).value <==> Padding(s) == 0 || t == []
  {
    hide Decoded, Padding;
    if t == [] {
      assert s + t == s;
      assert |Decoded(t)| == 0;
    } else if Padding(s) == 0 {
      DecodeUnpadded(s, t);
    } else {
      PaddingShortensPieces(s, t);
    }
  }

  // ---------- One block, and examples of section 10 of RFC 4648 ----------

  function LowSix(x: Byte): (v: Byte)
    ensures v < 64
  {
    x & 63
  }

  lemma BlockByShifts(a: Byte, b: Byte, c: Byte)
    ensures Base64.ToBlock(Base64.OrigOctets(a, b, c)) ==
            Base64.B64Block(LowSix(a >> 2), LowSix((a << 4) | (b >> 4)), LowSix((b << 2) | (c >> 6)), LowSix(c))
  {
  }

  lemma SextetsByShifts(data: seq<Byte>)
    ensures var a, b, c := Base64.At(data, 0), Base64.At(data, 1), Base64.At(data, 2);
            && DataSextet(data, 0) == LowSix(a >> 2)
            && DataSextet(data, 1) == LowSix((a << 4) | (b >> 4))
            && DataSextet(data, 2) == LowSix((b << 2) | (c >> 6))
            && DataSextet(data, 3) == LowSix(c)
  {
    hide DataSextet, LowSix, Base64.ToBlock, Base64.At;
    Base64.BlockOfData(data, 0);
    BlockByShifts(Base64.At(data, 0), Base64.At(data, 1), Base64.At(data, 2));
  }

  lemma FourCharacters(data: seq<Byte>)
    requires 0 < |data| <= 3
    ensures Encode(data) ==
            [EncodedChar(data, 0), EncodedChar(data, 1), EncodedChar(data, 2), EncodedChar(data, 3)]
  {
    hide EncodedChar;
  }

  /** The text of one, two or three octets, with every bit and every '=', which is 61, written out. */
  lemma EncodeOneBlock(data: seq<Byte>)
    requires 0 < |data| <= 3
    ensures var a, b, c := Base64.At(data, 0), Base64.At(data, 1), Base64.At(data, 2);
            Encode(data) == [CharOf(LowSix(a >> 2)), CharOf(LowSix((a << 4) | (b >> 4))),
                             if |data| > 1 then CharOf(LowSix((b << 2) | (c >> 6))) else 61,
                             if |data| > 2 then CharOf(LowSix(c)) else 61]
  {
    hide Encode, DataSextet, EncodedChar, CharOf, LowSix, Base64.At;
    FourCharacters(data);
    SextetsByShifts(data);
    Base64.CharsOfBlock(data, 0);
  }

  lemma EncodingExamples()
    // "f" is "Zg==", "fo" is "Zm8=", "foo" is "Zm9v", and the octets 251 and 255 are "+/8=".
    ensures Encode([102]) == [90, 103, 61, 61]
    ensures Encode([102, 111]) == [90, 109, 56, 61]
    ensures Encode([102, 111, 111]) == [90, 109, 57, 118]
    ensures Encode([251, 255]) == [43, 47, 56, 61]
  {
    EncodeOneBlock([102]);
    EncodeOneBlock([102, 111]);
    EncodeOneBlock([102, 111, 111]);
    EncodeOneBlock([251, 255]);
    hide Encode;
  }
}
