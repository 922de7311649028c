/** The base32 codec of TOTP secrets (section 6 of RFC 4648). The loops keep their pending bits in a
    signed 32-bit accumulator that is never masked; the specification is on unbounded bit strings. */
module Base32 {
  import opened Bits
  import opened Bytes
  import opened Codec
  import opened Int32
  import Strings = Text
  import opened Wrappers

  datatype Error = InvalidSecret

  // ---------- specification ----------

  /** The literal that the codec indexes and searches. */
  lemma AlphabetLiteral(x: nat, c: char)
    requires x < 32
    ensures "ABCDEFGHIJKLMNOPQRSTUVWXYZ234567"[x] == CharOf(ThirtyTwo, x)
    ensures IndexOf(ThirtyTwo, c) == x ==> "ABCDEFGHIJKLMNOPQRSTUVWXYZ234567"[x] == c
  {
  }

  /** The bits of the input, padded with zeros to whole 5-bit symbols; no padding signs. */
  function Encoded(input: seq<byte>): (text: string)
    ensures InAlphabet(ThirtyTwo, text) && SymbolBits(ThirtyTwo, text) == Padded(ThirtyTwo, input)
  {
    Data(ThirtyTwo, input)
  }

  function StripPadding(text: string): (r: string)
    ensures r <= text && (r == [] || r[|r| - 1] != '=')
    ensures forall i :: |r| <= i < |text| ==> text[i] == '='
  {
    if text != [] && text[|text| - 1] == '=' then StripPadding(text[..|text| - 1]) else text
  }

  function Decoded(text: string): Result<seq<byte>, Error> {
    var t := Strings.Upper(StripPadding(text));
    if InAlphabet(ThirtyTwo, t) then Ok(DecodedBytes(ThirtyTwo, t)) else Err(InvalidSecret)
  }

  // ---------- lemmas about the specification ----------

  /** A text in the alphabet carries no padding and is already upper case. */
  lemma AlphabetIsCanonical(text: string)
    requires InAlphabet(ThirtyTwo, text)
    ensures Strings.Upper(StripPadding(text)) == text
  {
    if text != [] { assert IndexOf(ThirtyTwo, text[|text| - 1]) != -1; }
    forall i | 0 <= i < |text| ensures Strings.UpperChar(text[i]) == text[i] {
      assert IndexOf(ThirtyTwo, text[i]) != -1;
    }
  }

  /** Decoding inverts encoding, for every byte sequence. */
  lemma RoundTrip(input: seq<byte>)
    ensures Decoded(Encoded(input)) == Ok(input)
  {
    AlphabetIsCanonical(Encoded(input));
    DecodeInvertsEncode(ThirtyTwo, input);
  }

  lemma EncodedInjective(a: seq<byte>, b: seq<byte>)
    requires Encoded(a) == Encoded(b)
    ensures a == b
  {
    RoundTrip(a);
    RoundTrip(b);
  }

  /** Exactly which upper-case, unpadded texts are reproduced by decoding and encoding again: those
      that leave fewer than five bits over, all of them zero. */
  lemma ReencodesIff(text: string)
    requires InAlphabet(ThirtyTwo, text)
    ensures var n := 5 * |text| / 8;
      Encoded(DecodedBytes(ThirtyTwo, text)) == text <==>
      5 * |text| - 8 * n < 5 && SymbolBits(ThirtyTwo, text)[8 * n..] == Zeros(5 * |text| - 8 * n)
  {
    DataReencodesIff(ThirtyTwo, text);
  }

  // ---------- the loops ----------

  lemma SymbolBitsAppend(text: string, x: nat)
    requires InAlphabet(ThirtyTwo, text) && x < 32
    ensures InAlphabet(ThirtyTwo, text + [CharOf(ThirtyTwo, x)])
    ensures SymbolBits(ThirtyTwo, text + [CharOf(ThirtyTwo, x)]) == SymbolBits(ThirtyTwo, text) + BigEndian(x, 5)
  {
    IndexInvertsChar(ThirtyTwo, x, 'A');
    assert Symbols(ThirtyTwo, text + [CharOf(ThirtyTwo, x)]) == Symbols(ThirtyTwo, text) + [x];
    ConcatAppend(Symbols(ThirtyTwo, text), x, 5);
  }

  lemma SymbolBitsPrefix(text: string, i: nat)
    requires i < |text| && InAlphabet(ThirtyTwo, text[..i]) && InAlphabet(ThirtyTwo, text[..i + 1])
    ensures 0 <= IndexOf(ThirtyTwo, text[i])
    ensures SymbolBits(ThirtyTwo, text[..i + 1]) == SymbolBits(ThirtyTwo, text[..i]) + BigEndian(IndexOf(ThirtyTwo, text[i]), 5)
  {
    assert IndexOf(ThirtyTwo, text[..i + 1][i]) != -1;
    assert Symbols(ThirtyTwo, text[..i + 1]) == Symbols(ThirtyTwo, text[..i]) + [IndexOf(ThirtyTwo, text[i])];
    ConcatAppend(Symbols(ThirtyTwo, text[..i]), IndexOf(ThirtyTwo, text[i]), 5);
  }

  /** `all` has been read: `done` has been written and `bits` bits wait in the accumulator. */
  ghost predicate Pending(done: seq<bool>, value: int, bits: nat, all: seq<bool>) {
    done + BigEndian(ToUint32(value), bits) == all
  }

  lemma Push(done: seq<bool>, value: int, bits: nat, all: seq<bool>, v: nat, k: nat, p: nat)
    requires Pending(done, value, bits, all)
    requires p == Pow2(k) && (p == 32 || p == 256) && v < p && bits + k <= 32
    ensures k < 32 && Pending(done, Or(ShiftLeft(value, k), v), bits + k, all + BigEndian(v, k))
  {
    AppendBits(value, v, k, p, bits);
  }

  /** Taking the highest `k` pending bits off the accumulator. */
  lemma Pop(done: seq<bool>, value: int, bits: nat, all: seq<bool>, k: nat, p: nat)
    requires Pending(done, value, bits, all)
    requires p == Pow2(k) && p <= 256 && k <= bits < 32
    ensures var f := And(ShiftRightUnsigned(value, bits - k), p - 1);
      0 <= f < p && Pending(done + BigEndian(f, k), value, bits - k, all)
  {
    FieldBits(value, bits - k, k, p);
    Split(ToUint32(value), k, bits - k);
  }

  lemma UnshiftedMask(y: int)
    ensures And(ShiftRightUnsigned(y, 0), 31) == And(y, 31)
  {
    assert ShiftRightUnsigned(y, 0) == ToUint32(y);
    assert ToUint32(ToUint32(y)) == ToUint32(y);
  }

  lemma LastField(value: int, bits: nat)
    requires 0 < bits < 5
    ensures var f := And(ShiftLeft(value, 5 - bits), 31);
      0 <= f < 32 && BigEndian(f, 5) == BigEndian(ToUint32(value), bits) + Zeros(5 - bits)
  {
    var y := ShiftLeft(value, 5 - bits);
    UnshiftedMask(y);
    assert 0 <= And(y, 31) < 32 && BigEndian(And(y, 31), 5) == BigEndian(ToUint32(y), 5) by {
      assert Pow2(5) == 32 by { Powers(); }
      FieldBits(y, 0, 5, 32);
    }
    ShiftAppendsZeros(value, 5 - bits, bits);
  }

  /** The last symbol: the pending bits and zeros. */
  lemma Flush(done: seq<bool>, value: int, bits: nat, all: seq<bool>)
    requires Pending(done, value, bits, all) && 0 < bits < 5
    ensures var f := And(ShiftLeft(value, 5 - bits), 31);
      0 <= f < 32 && done + BigEndian(f, 5) == all + Zeros(5 - bits)
  {
    LastField(value, bits);
  }

  // One iteration of each loop, as seen by its invariant.

  ghost predicate Encoding(output: string, value: int, bits: nat, input: seq<byte>) {
    InAlphabet(ThirtyTwo, output) && Pending(SymbolBits(ThirtyTwo, output), value, bits, ByteBits(input))
  }

  lemma ReadByte(output: string, value: int, bits: nat, input: seq<byte>, i: nat)
    requires bits < 5 && i < |input| && Encoding(output, value, bits, input[..i])
    ensures Encoding(output, Or(ShiftLeft(value, 8), input[i]), bits + 8, input[..i + 1])
  {
    assert Pow2(8) == 256 by { Powers(); }
    Push(SymbolBits(ThirtyTwo, output), value, bits, ByteBits(input[..i]), input[i], 8, 256);
    ByteBitsPrefix(input, i);
  }

  lemma WriteSymbol(output: string, value: int, bits: nat, input: seq<byte>)
    requires 5 <= bits < 13 && Encoding(output, value, bits, input)
    ensures var x := And(ShiftRightUnsigned(value, bits - 5), 31);
      0 <= x < 32 && Encoding(output + [CharOf(ThirtyTwo, x)], value, bits - 5, input)
  {
    assert Pow2(5) == 32 by { Powers(); }
    Pop(SymbolBits(ThirtyTwo, output), value, bits, ByteBits(input), 5, 32);
    SymbolBitsAppend(output, And(ShiftRightUnsigned(value, bits - 5), 31));
  }

  lemma FinishEncoding(output: string, value: int, bits: nat, input: seq<byte>)
    requires bits < 5 && Encoding(output, value, bits, input)
    ensures bits == 0 ==> output == Encoded(input)
    ensures bits > 0 ==> var x := And(ShiftLeft(value, 5 - bits), 31);
      0 <= x < 32 && output + [CharOf(ThirtyTwo, x)] == Encoded(input)
  {
    if bits == 0 {
      assert |output| == SymbolCount(ThirtyTwo, |input|);
      DataIsUnique(ThirtyTwo, input, output);
    } else {
      var x := And(ShiftLeft(value, 5 - bits), 31);
      Flush(SymbolBits(ThirtyTwo, output), value, bits, ByteBits(input));
      SymbolBitsAppend(output, x);
      assert |output| + 1 == SymbolCount(ThirtyTwo, |input|);
      DataIsUnique(ThirtyTwo, input, output + [CharOf(ThirtyTwo, x)]);
    }
  }

  method Encode(input: seq<byte>) returns (output: string)
    ensures output == Encoded(input)
  {
    var bits: nat, value := 0, 0;
    output := "";
    for i := 0 to |input|
      invariant bits < 5 && Encoding(output, value, bits, input[..i])
    {
      ReadByte(output, value, bits, input, i);
      value := Or(ShiftLeft(value, 8), input[i]);
      bits := bits + 8;
      while bits >= 5
        invariant bits < 13 && Encoding(output, value, bits, input[..i + 1])
      {
        WriteSymbol(output, value, bits, input[..i + 1]);
        var x := And(ShiftRightUnsigned(value, bits - 5), 31);
        output := output + [CharOf(ThirtyTwo, x)];
        bits := bits - 5;
      }
    }
    assert input[..|input|] == input;
    FinishEncoding(output, value, bits, input);
    if bits > 0 {
      var x := And(ShiftLeft(value, 5 - bits), 31);
      output := output + [CharOf(ThirtyTwo, x)];
    }
  }

  ghost predicate Decoding(bytes: seq<byte>, value: int, bits: nat, text: string) {
    InAlphabet(ThirtyTwo, text) && Pending(ByteBits(bytes), value, bits, SymbolBits(ThirtyTwo, text))
  }

  lemma ReadSymbol(bytes: seq<byte>, value: int, bits: nat, text: string, i: nat)
    requires bits < 8 && i < |text| && Decoding(bytes, value, bits, text[..i]) && IndexOf(ThirtyTwo, text[i]) != -1
    ensures Decoding(bytes, Or(ShiftLeft(value, 5), IndexOf(ThirtyTwo, text[i])), bits + 5, text[..i + 1])
  {
    assert Pow2(5) == 32 by { Powers(); }
    assert InAlphabet(ThirtyTwo, text[..i + 1]) by {
      assert forall j :: 0 <= j < i ==> text[..i + 1][j] == text[..i][j];
    }
    Push(ByteBits(bytes), value, bits, SymbolBits(ThirtyTwo, text[..i]), IndexOf(ThirtyTwo, text[i]), 5, 32);
    SymbolBitsPrefix(text, i);
  }

  lemma WriteByte(bytes: seq<byte>, value: int, bits: nat, text: string)
    requires 8 <= bits < 13 && Decoding(bytes, value, bits, text)
    ensures var x := And(ShiftRightUnsigned(value, bits - 8), 255);
      0 <= x < 256 && Decoding(bytes + [x], value, bits - 8, text)
  {
    assert Pow2(8) == 256 by { Powers(); }
    Pop(ByteBits(bytes), value, bits, SymbolBits(ThirtyTwo, text), 8, 256);
    ByteBitsAppend(bytes, And(ShiftRightUnsigned(value, bits - 8), 255));
  }

  lemma FinishDecoding(bytes: seq<byte>, value: int, bits: nat, text: string)
    requires bits < 8 && Decoding(bytes, value, bits, text[..|text|])
    ensures InAlphabet(ThirtyTwo, text) && bytes == DecodedBytes(ThirtyTwo, text)
  {
    assert text[..|text|] == text;
    var all := DecodedBytes(ThirtyTwo, text);
    assert |bytes| == |all|;
    assert ByteBits(bytes) == SymbolBits(ThirtyTwo, text)[..8 * |bytes|];
    ByteBitsInjective(bytes, all);
  }

  method Decode(input: string) returns (r: Result<seq<byte>, Error>)
    ensures r == Decoded(input)
  {
    r := DecodeSymbols(Strings.Upper(StripPadding(input)));
  }

  /** Shift a symbol into the accumulator. */
  method PushSymbol(ghost bytes: seq<byte>, value: int, ghost bits: nat, index: int, ghost text: string, ghost i: nat)
    returns (v: int)
    requires bits < 8 && i < |text| && Decoding(bytes, value, bits, text[..i]) && IndexOf(ThirtyTwo, text[i]) == index != -1
    ensures Decoding(bytes, v, bits + 5, text[..i + 1])
  {
    ReadSymbol(bytes, value, bits, text, i);
    v := Or(ShiftLeft(value, 5), index);
  }

  /** Move a byte from the accumulator to the output when eight bits are pending. */
  method PopByte(bytes: seq<byte>, value: int, bits: nat, ghost text: string) returns (bytes': seq<byte>, bits': nat)
    requires bits < 13 && Decoding(bytes, value, bits, text)
    ensures bits' < 8 && Decoding(bytes', value, bits', text)
  {
    if bits < 8 {
      return bytes, bits;
    }
    WriteByte(bytes, value, bits, text);
    var x := And(ShiftRightUnsigned(value, bits - 8), 255);
    return bytes + [x], bits - 8;
  }

  method DecodeSymbols(text: string) returns (r: Result<seq<byte>, Error>)
    ensures r == if InAlphabet(ThirtyTwo, text) then Ok(DecodedBytes(ThirtyTwo, text)) else Err(InvalidSecret)
  {
    var bits: nat, value := 0, 0;
    var bytes: seq<byte> := [];
    for i := 0 to |text|
      invariant bits < 8 && Decoding(bytes, value, bits, text[..i])
    {
      var index := IndexOf(ThirtyTwo, text[i]);
      if index == -1 {
        assert text[i] in text;
        return Err(InvalidSecret);
      }
      value := PushSymbol(bytes, value, bits, index, text, i);
      bytes, bits := PopByte(bytes, value, bits + 5, text[..i + 1]);
    }
    FinishDecoding(bytes, value, bits, text);
    r := Ok(bytes);
  }
}
