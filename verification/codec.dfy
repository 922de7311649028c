/** The base encodings of RFC 4648 without padding signs: base32 (section 6) and base64 (section 4). */
module Codec {
  import opened Bits
  import opened Bytes

  datatype Base = ThirtyTwo | SixtyFour

  /** Bits of a symbol. */
  function Width(b: Base): nat {
    match b
    case ThirtyTwo => 5
    case SixtyFour => 6
  }

  function Radix(b: Base): nat {
    match b
    case ThirtyTwo => 32
    case SixtyFour => 64
  }

  /** Bits of `n` symbols. */
  function BitCount(b: Base, n: nat): nat {
    match b
    case ThirtyTwo => 5 * n
    case SixtyFour => 6 * n
  }

  /** A-Z, 2-7 or A-Z, a-z, 0-9, +, /. */
  function CharOf(b: Base, x: nat): char
    requires x < Radix(b)
  {
    if x < 26 then 'A' + x as char
    else if b.ThirtyTwo? then '2' + (x - 26) as char
    else if x < 52 then 'a' + (x - 26) as char
    else if x < 62 then '0' + (x - 52) as char
    else if x == 62 then '+' else '/'
  }

  /** Position in the alphabet, or -1. */
  function IndexOf(b: Base, c: char): (i: int)
    ensures -1 <= i < Radix(b)
  {
    if 'A' <= c <= 'Z' then (c - 'A') as int
    else if b.ThirtyTwo? then (if '2' <= c <= '7' then (c - '2') as int + 26 else -1)
    else if 'a' <= c <= 'z' then (c - 'a') as int + 26
    else if '0' <= c <= '9' then (c - '0') as int + 52
    else if c == '+' then 62
    else if c == '/' then 63
    else -1
  }

  lemma IndexInvertsChar(b: Base, x: nat, c: char)
    requires x < Radix(b)
    ensures IndexOf(b, CharOf(b, x)) == x
    ensures IndexOf(b, c) == x ==> CharOf(b, x) == c
  {
  }

  predicate InAlphabet(b: Base, text: string) {
    forall c :: c in text ==> IndexOf(b, c) != -1
  }

  function Symbols(b: Base, text: string): (xs: seq<nat>)
    requires InAlphabet(b, text)
    ensures |xs| == |text|
    ensures forall i :: 0 <= i < |xs| ==> xs[i] < Radix(b)
  {
    seq(|text|, i requires 0 <= i < |text| => IndexOf(b, text[i]))
  }

  function Text(b: Base, xs: seq<nat>): (text: string)
    requires forall i :: 0 <= i < |xs| ==> xs[i] < Radix(b)
    ensures |text| == |xs| && InAlphabet(b, text)
  {
    seq(|xs|, i requires 0 <= i < |xs| => CharOf(b, xs[i]))
  }

  function SymbolBits(b: Base, text: string): (bits: seq<bool>)
    requires InAlphabet(b, text)
    ensures |bits| == BitCount(b, |text|)
  {
    SizeIsProduct(|text|, Width(b));
    Concat(Symbols(b, text), Width(b))
  }

  /** The number of symbols for `n` bytes, rounded up. */
  function SymbolCount(b: Base, n: nat): (m: nat)
    ensures 8 * n <= BitCount(b, m) < 8 * n + Width(b)
  {
    match b
    case ThirtyTwo => (8 * n + 4) / 5
    case SixtyFour => (8 * n + 5) / 6
  }

  /** The bits of the input, padded with zeros to whole symbols. */
  function Padded(b: Base, input: seq<byte>): (bits: seq<bool>)
    ensures |bits| == BitCount(b, SymbolCount(b, |input|))
  {
    ByteBits(input) + Zeros(BitCount(b, SymbolCount(b, |input|)) - 8 * |input|)
  }

  /** The symbols of the encoding. */
  function Data(b: Base, input: seq<byte>): (text: string)
    ensures |text| == SymbolCount(b, |input|)
    ensures InAlphabet(b, text) && SymbolBits(b, text) == Padded(b, input)
  {
    var n := SymbolCount(b, |input|);
    SizeIsProduct(n, Width(b));
    var xs := Groups(Padded(b, input), Width(b), n);
    SymbolsAreSmall(b, Padded(b, input), n);
    SymbolsOfText(b, xs);
    ConcatOfGroups(Padded(b, input), Width(b), n);
    Text(b, xs)
  }

  /** The whole bytes among the bits of the symbols; left-over bits are dropped. */
  function DecodedBytes(b: Base, text: string): (bytes: seq<byte>)
    requires InAlphabet(b, text)
    ensures |bytes| == BitCount(b, |text|) / 8
    ensures ByteBits(bytes) == SymbolBits(b, text)[..8 * |bytes|]
  {
    var n := BitCount(b, |text|) / 8;
    SizeIsProduct(n, 8);
    var bits := SymbolBits(b, text)[..8 * n];
    var bytes := Groups(bits, 8, n);
    ConcatOfGroups(bits, 8, n);
    assert forall i :: 0 <= i < n ==> bytes[i] < 256 by {
      GroupsFit(bits, 8, n);
      assert Pow2(4) == 16;
    }
    bytes
  }

  // ---------- symbols and texts ----------

  lemma RadixIsPower(b: Base)
    ensures Pow2(Width(b)) == Radix(b)
  {
    assert Pow2(3) == 8;
  }

  lemma SymbolsAreSmall(b: Base, bits: seq<bool>, n: nat)
    requires |bits| == Size(n, Width(b))
    ensures forall i :: 0 <= i < n ==> Groups(bits, Width(b), n)[i] < Radix(b)
  {
    GroupsFit(bits, Width(b), n);
    RadixIsPower(b);
  }

  lemma SymbolsOfText(b: Base, xs: seq<nat>)
    requires forall i :: 0 <= i < |xs| ==> xs[i] < Radix(b)
    ensures Symbols(b, Text(b, xs)) == xs
  {
    forall i | 0 <= i < |xs| ensures Symbols(b, Text(b, xs))[i] == xs[i] {
      IndexInvertsChar(b, xs[i], 'A');
    }
  }

  lemma TextOfSymbols(b: Base, text: string)
    requires InAlphabet(b, text)
    ensures Text(b, Symbols(b, text)) == text
  {
    forall i | 0 <= i < |text| ensures Text(b, Symbols(b, text))[i] == text[i] {
      IndexInvertsChar(b, IndexOf(b, text[i]), text[i]);
    }
  }

  lemma SymbolBitsInjective(b: Base, s: string, t: string)
    requires InAlphabet(b, s) && InAlphabet(b, t) && |s| == |t| && SymbolBits(b, s) == SymbolBits(b, t)
    ensures s == t
  {
    RadixIsPower(b);
    assert Symbols(b, s) == Groups(SymbolBits(b, s), Width(b), |s|) by { GroupsOfConcat(Symbols(b, s), Width(b)); }
    assert Symbols(b, t) == Groups(SymbolBits(b, t), Width(b), |t|) by { GroupsOfConcat(Symbols(b, t), Width(b)); }
    TextOfSymbols(b, s);
    TextOfSymbols(b, t);
  }

  // ---------- encoding and decoding ----------

  /** Decoding inverts encoding, for every byte sequence. */
  lemma DecodeInvertsEncode(b: Base, input: seq<byte>)
    ensures DecodedBytes(b, Data(b, input)) == input
  {
    var bytes := DecodedBytes(b, Data(b, input));
    assert |bytes| == |input|;
    assert ByteBits(bytes) == Padded(b, input)[..8 * |input|] == ByteBits(input);
    ByteBitsInjective(bytes, input);
  }

  /** A text of the right length is the encoding exactly when it spells the padded bits. */
  lemma DataIsUnique(b: Base, input: seq<byte>, text: string)
    requires InAlphabet(b, text) && |text| == SymbolCount(b, |input|)
    ensures text == Data(b, input) <==> SymbolBits(b, text) == Padded(b, input)
  {
    if SymbolBits(b, text) == Padded(b, input) {
      SymbolBitsInjective(b, text, Data(b, input));
    }
  }

  /** Exactly which texts are reproduced by decoding and encoding again: those that leave less than a
      symbol over, all of it zero. */
  lemma DataReencodesIff(b: Base, text: string)
    requires InAlphabet(b, text)
    ensures var left := BitCount(b, |text|) % 8; var n := BitCount(b, |text|) / 8;
      Data(b, DecodedBytes(b, text)) == text <==> left < Width(b) && SymbolBits(b, text)[8 * n..] == Zeros(left)
  {
    var bytes := DecodedBytes(b, text);
    if BitCount(b, |text|) % 8 < Width(b) {
      assert |text| == SymbolCount(b, |bytes|);
      DataIsUnique(b, bytes, text);
      TailOf(SymbolBits(b, text), ByteBits(bytes), Zeros(BitCount(b, |text|) % 8));
    }
  }
}
