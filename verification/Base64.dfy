/** The codec of mbase64.c: loops over blocks of three octets and four characters, in machine bytes. */
module Base64 {
  import opened Machine
  import opened Base64Spec

  datatype OrigOctets = OrigOctets(one: Byte, two: Byte, three: Byte)

  datatype B64Block = B64Block(one: Byte, two: Byte, three: Byte, four: Byte)

  const MASK: Byte := 0x3F

  /** The 24 bits of a block, cut into sixes. */
  function ToBlock(o: OrigOctets): B64Block {
    B64Block(
      Sextet(BitOf(o.one, 0), BitOf(o.one, 1), BitOf(o.one, 2), BitOf(o.one, 3), BitOf(o.one, 4), BitOf(o.one, 5)),
      Sextet(BitOf(o.one, 6), BitOf(o.one, 7), BitOf(o.two, 0), BitOf(o.two, 1), BitOf(o.two, 2), BitOf(o.two, 3)),
      Sextet(BitOf(o.two, 4), BitOf(o.two, 5), BitOf(o.two, 6), BitOf(o.two, 7), BitOf(o.three, 0), BitOf(o.three, 1)),
      Sextet(BitOf(o.three, 2), BitOf(o.three, 3), BitOf(o.three, 4), BitOf(o.three, 5),
             BitOf(o.three, 6), BitOf(o.three, 7)))
  }

  /** The low six bits of each of four values, joined and cut into eights. */
  function FromBlock(b: B64Block): OrigOctets {
    OrigOctets(
      Octet(BitOf(b.one, 2), BitOf(b.one, 3), BitOf(b.one, 4), BitOf(b.one, 5),
            BitOf(b.one, 6), BitOf(b.one, 7), BitOf(b.two, 2), BitOf(b.two, 3)),
      Octet(BitOf(b.two, 4), BitOf(b.two, 5), BitOf(b.two, 6), BitOf(b.two, 7),
            BitOf(b.three, 2), BitOf(b.three, 3), BitOf(b.three, 4), BitOf(b.three, 5)),
      Octet(BitOf(b.three, 6), BitOf(b.three, 7), BitOf(b.four, 2), BitOf(b.four, 3),
            BitOf(b.four, 4), BitOf(b.four, 5), BitOf(b.four, 6), BitOf(b.four, 7)))
  }

  lemma JoinFirst(x: Byte, y: Byte)
    requires x < 64 && y < 64
    ensures (x << 2) | (y >> 4) == Octet(BitOf(x, 2), BitOf(x, 3), BitOf(x, 4), BitOf(x, 5),
                                         BitOf(x, 6), BitOf(x, 7), BitOf(y, 2), BitOf(y, 3))
  {
  }

  lemma JoinSecond(x: Byte, y: Byte)
    requires x < 64 && y < 64
    ensures (x << 4) | (y >> 2) == Octet(BitOf(x, 4), BitOf(x, 5), BitOf(x, 6), BitOf(x, 7),
                                         BitOf(y, 2), BitOf(y, 3), BitOf(y, 4), BitOf(y, 5))
  {
  }

  lemma JoinThird(x: Byte, y: Byte)
    requires x < 64 && y < 64
    ensures (x << 6) | y == Octet(BitOf(x, 6), BitOf(x, 7), BitOf(y, 2), BitOf(y, 3),
                                  BitOf(y, 4), BitOf(y, 5), BitOf(y, 6), BitOf(y, 7))
  {
  }

  /** The shifts drop what leaves the byte, as the assignments to `unsigned char` do. */
  method ConvertFromB64(b64: B64Block) returns (orig: OrigOctets)
    requires b64.one < 64 && b64.two < 64 && b64.three < 64 && b64.four < 64
    ensures orig == FromBlock(b64)
  {
    var one := b64.one;
    one := one << 2;
    one := one | (b64.two >> 4);
    JoinFirst(b64.one, b64.two);
    var two := b64.two << 4;
    two := two | (b64.three >> 2);
    JoinSecond(b64.two, b64.three);
    var three := b64.three << 6;
    three := three | b64.four;
    JoinThird(b64.three, b64.four);
    orig := OrigOctets(one, two, three);
  }

  method ConvertToB64(orig: OrigOctets) returns (b64: B64Block)
    ensures b64 == ToBlock(orig)
  {
    var one := (orig.one >> 2) & MASK;
    var two := ((orig.one << 4) | (orig.two >> 4)) & MASK;
    var three := ((orig.two << 2) | (orig.three >> 6)) & MASK;
    var four := orig.three & MASK;
    b64 := B64Block(one, two, three, four);
  }

  function At(data: seq<Byte>, i: nat): Byte {
    if i < |data| then data[i] else 0
  }

  /** Bit `c` of the 24 in block `m` of the data. */
  predicate BitInDataBlock(data: seq<Byte>, m: nat, c: nat) {
    BitOf(At(data, 3 * m + c / 8), c % 8)
  }

  lemma DataBitInBlock(data: seq<Byte>, m: nat, c: nat)
    requires c < 24
    ensures DataBit(data, 24 * m + c) == BitInDataBlock(data, m, c)
  {
    assert (24 * m + c) / 8 == 3 * m + c / 8 && (24 * m + c) % 8 == c % 8;
    assert !BitOf(0, c % 8);
  }

  lemma SextetInBlock(data: seq<Byte>, m: nat, r: nat)
    requires r < 4
    ensures DataSextet(data, 4 * m + r) ==
            Sextet(BitInDataBlock(data, m, 6 * r), BitInDataBlock(data, m, 6 * r + 1),
                   BitInDataBlock(data, m, 6 * r + 2), BitInDataBlock(data, m, 6 * r + 3),
                   BitInDataBlock(data, m, 6 * r + 4), BitInDataBlock(data, m, 6 * r + 5))
  {
    hide DataBit, BitInDataBlock, Sextet, Octet;
    var c := 6 * r;
    assert 6 * (4 * m + r) == 24 * m + c;
    DataBitInBlock(data, m, c); DataBitInBlock(data, m, c + 1); DataBitInBlock(data, m, c + 2);
    DataBitInBlock(data, m, c + 3); DataBitInBlock(data, m, c + 4); DataBitInBlock(data, m, c + 5);
  }

  /** One encoded block is four consecutive six-bit groups of the zero-extended data. */
  lemma BlockOfData(data: seq<Byte>, m: nat)
    ensures ToBlock(OrigOctets(At(data, 3 * m), At(data, 3 * m + 1), At(data, 3 * m + 2))) ==
            B64Block(DataSextet(data, 4 * m), DataSextet(data, 4 * m + 1),
                     DataSextet(data, 4 * m + 2), DataSextet(data, 4 * m + 3))
  {
    hide DataSextet, BitOf, At, Sextet;
    SextetInBlock(data, m, 0);
    SextetInBlock(data, m, 1);
    SextetInBlock(data, m, 2);
    SextetInBlock(data, m, 3);
  }

  /** Bit `c` of the 24 in block `m` of the text. */
  predicate BitInTextBlock(text: seq<Byte>, m: nat, c: nat)
    requires 4 * m + 4 <= |text| && c < 24
  {
    BitOf(ValueOf(text[4 * m + c / 6]), 2 + c % 6)
  }

  lemma TextBitInBlock(text: seq<Byte>, m: nat, c: nat)
    requires 4 * m + 4 <= |text| && c < 24
    ensures TextBit(text, 24 * m + c) == BitInTextBlock(text, m, c)
  {
    assert (24 * m + c) / 6 == 4 * m + c / 6 && (24 * m + c) % 6 == c % 6;
  }

  lemma OctetInBlock(text: seq<Byte>, m: nat, r: nat)
    requires 4 * m + 4 <= |text| && r < 3
    ensures DecodedByte(text, 3 * m + r) ==
            Octet(BitInTextBlock(text, m, 8 * r), BitInTextBlock(text, m, 8 * r + 1),
                  BitInTextBlock(text, m, 8 * r + 2), BitInTextBlock(text, m, 8 * r + 3),
                  BitInTextBlock(text, m, 8 * r + 4), BitInTextBlock(text, m, 8 * r + 5),
                  BitInTextBlock(text, m, 8 * r + 6), BitInTextBlock(text, m, 8 * r + 7))
  {
    hide TextBit, BitInTextBlock, Octet;
    var c := 8 * r;
    assert 8 * (3 * m + r) == 24 * m + c;
    TextBitInBlock(text, m, c); TextBitInBlock(text, m, c + 1); TextBitInBlock(text, m, c + 2);
    TextBitInBlock(text, m, c + 3); TextBitInBlock(text, m, c + 4); TextBitInBlock(text, m, c + 5);
    TextBitInBlock(text, m, c + 6); TextBitInBlock(text, m, c + 7);
  }

  /** One decoded block is three consecutive octets of the text's bits. */
  lemma BlockOfText(text: seq<Byte>, m: nat)
    requires 4 * m + 4 <= |text|
    ensures FromBlock(B64Block(ValueOf(text[4 * m]), ValueOf(text[4 * m + 1]),
                               ValueOf(text[4 * m + 2]), ValueOf(text[4 * m + 3]))) ==
            OrigOctets(DecodedByte(text, 3 * m), DecodedByte(text, 3 * m + 1), DecodedByte(text, 3 * m + 2))
  {
    hide DecodedByte, BitOf, ValueOf, Octet;
    OctetInBlock(text, m, 0);
    OctetInBlock(text, m, 1);
    OctetInBlock(text, m, 2);
  }

  /** Which of the four characters of a block are '=', which is 61, depends on how much data is left. */
  lemma CharsOfBlock(data: seq<Byte>, m: nat)
    requires 3 * m < |data|
    ensures EncodedChar(data, 4 * m) == CharOf(DataSextet(data, 4 * m))
    ensures EncodedChar(data, 4 * m + 1) == CharOf(DataSextet(data, 4 * m + 1))
    ensures EncodedChar(data, 4 * m + 2) ==
            if |data| - 3 * m == 1 then 61 else CharOf(DataSextet(data, 4 * m + 2))
    ensures EncodedChar(data, 4 * m + 3) ==
            if |data| - 3 * m <= 2 then 61 else CharOf(DataSextet(data, 4 * m + 3))
  {
  }

  /** The characters of one block, the last `padding` of them overwritten with '=', which is 61. */
  method WriteBlock(output: array<Byte>, j: nat, b64: B64Block, padding: nat)
    requires j + 4 <= output.Length && padding <= 2
    requires b64.one < 64 && b64.two < 64 && b64.three < 64 && b64.four < 64
    modifies output
    ensures output[j] == CharOf(b64.one) && output[j + 1] == CharOf(b64.two)
    ensures output[j + 2] == if padding == 2 then 61 else CharOf(b64.three)
    ensures output[j + 3] == if padding >= 1 then 61 else CharOf(b64.four)
    ensures forall k :: 0 <= k < output.Length && !(j <= k < j + 4) ==> output[k] == old(output[k])
  {
    TableIsCharOf(b64.one);
    TableIsCharOf(b64.two);
    TableIsCharOf(b64.three);
    TableIsCharOf(b64.four);
    hide CharOf;
    output[j] := ALPHABET[b64.one as int];
    output[j + 1] := ALPHABET[b64.two as int];
    output[j + 2] := ALPHABET[b64.three as int];
    output[j + 3] := ALPHABET[b64.four as int];
    if padding == 1 {
      output[j + 3] := EQUALS;
    } else if padding == 2 {
      output[j + 2] := EQUALS;
      output[j + 3] := EQUALS;
    }
  }

  /** The encoder writes exactly the text of the specification, and a final NUL in the last byte allocated. */
  method EncodeData(data: seq<Byte>) returns (output: array<Byte>)
    requires EncodedLength(|data|) + 1 <= INT_MAX
    ensures fresh(output) && output.Length == EncodedLength(|data|) + 1
    ensures output[..] == Encode(data) + [0]
  {
    hide DataSextet, ToBlock, CharOf, EncodedChar;
    var outputBytes := 4 * ((|data| + 2) / 3);
    output := new Byte[outputBytes + 1];
    var i, j := 0, 0;
    ghost var m := 0;
    while i < |data|
      invariant i == 3 * m && j == 4 * m && i <= |data| + 2
      invariant j <= outputBytes
      invariant forall k :: 0 <= k < j ==> output[k] == EncodedChar(data, k)
      decreases |data| - i
    {
      var remaining := |data| - i;
      var padding := 0;
      var orig;
      if remaining >= 3 {
        orig := OrigOctets(data[i], data[i + 1], data[i + 2]);
      } else if remaining == 2 {
        orig := OrigOctets(data[i], data[i + 1], 0);
        padding := 1;
      } else {
        orig := OrigOctets(data[i], 0, 0);
        padding := 2;
      }
      var b64 := ConvertToB64(orig);
      BlockOfData(data, m);
      CharsOfBlock(data, m);
      WriteBlock(output, j, b64, padding);
      i := i + 3;
      j := j + 4;
      m := m + 1;
    }
    output[j] := 0;
  }

  /** The loop over the fields of one block: four characters looked up in the reverse table. */
  method ReadBlock(text: seq<Byte>, i: nat) returns (b64: B64Block)
    requires i + 4 <= |text|
    ensures b64 == B64Block(ValueOf(text[i]), ValueOf(text[i + 1]), ValueOf(text[i + 2]), ValueOf(text[i + 3]))
  {
    hide ValueOf;
    var fields := new Byte[4];
    for j := 0 to 4
      invariant forall l :: 0 <= l < j ==> fields[l] == ValueOf(text[i + l])
    {
      TableIsValueOf(text[i + j]);
      fields[j] := REVERSE[text[i + j] as int];
    }
    b64 := B64Block(fields[0], fields[1], fields[2], fields[3]);
  }

  /** The decoder never leaves its buffer, refuses exactly the wrong lengths, and decodes all other text. */
  method DecodeText(text: seq<Byte>) returns (output: array?<Byte>, outputSize: nat)
    requires |text| <= INT_MAX
    ensures output == null <==> |text| % 4 != 0
    ensures output != null ==>
              && fresh(output) && output.Length == 3 * |text| / 4
              && outputSize <= output.Length
              && Decode(text) == Some(output[..outputSize])
    ensures output == null ==> Decode(text) == None
  {
    hide FromBlock, DecodedByte, ValueOf;
    var inputSize := |text|;
    if inputSize % 4 != 0 {
      return null, 0;
    }
    var outputBytes := 3 * inputSize / 4;
    var buffer := new Byte[outputBytes];
    var i, k, padding := 0, 0, 0;
    if inputSize > 3 {
      if text[inputSize - 1] == EQUALS {
        padding := padding + 1;
      }
      if text[inputSize - 2] == EQUALS {
        padding := padding + 1;
      }
    }
    ghost var m := 0;
    while i < inputSize
      invariant i == 4 * m && k == 3 * m && i <= inputSize
      invariant forall l :: 0 <= l < k ==> buffer[l] == DecodedByte(text, l)
    {
      var b64 := ReadBlock(text, i);
      var orig := ConvertFromB64(b64);
      BlockOfText(text, m);
      buffer[k] := orig.one;
      buffer[k + 1] := orig.two;
      buffer[k + 2] := orig.three;
      i := i + 4;
      k := k + 3;
      m := m + 1;
    }
    outputSize := k;
    outputSize := outputSize - padding;
    output := buffer;
    assert 3 * |text| / 4 == 3 * m;
    assert output[..outputSize] == Decode(text).value;
  }
}
