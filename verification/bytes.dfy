/** Byte sequences as bit strings. */
module Bytes {
  import opened Bits

  type byte = x: nat | x < 256

  function ByteBits(bytes: seq<byte>): (b: seq<bool>)
    ensures |b| == 8 * |bytes|
  {
    SizeIsProduct(|bytes|, 8);
    Concat(bytes, 8)
  }

  lemma ByteBitsInjective(s: seq<byte>, t: seq<byte>)
    requires |s| == |t| && ByteBits(s) == ByteBits(t)
    ensures s == t
  {
    assert Pow2(8) == 256 by { assert Pow2(4) == 16; }
    assert s == Groups(ByteBits(s), 8, |s|) by { GroupsOfConcat(s, 8); }
    assert t == Groups(ByteBits(t), 8, |t|) by { GroupsOfConcat(t, 8); }
  }

  lemma ByteBitsAppend(bytes: seq<byte>, x: byte)
    ensures ByteBits(bytes + [x]) == ByteBits(bytes) + BigEndian(x, 8)
  {
    ConcatAppend(bytes, x, 8);
  }

  lemma ByteBitsPrefix(bytes: seq<byte>, i: nat)
    requires i < |bytes|
    ensures ByteBits(bytes[..i + 1]) == ByteBits(bytes[..i]) + BigEndian(bytes[i], 8)
  {
    assert bytes[..i + 1] == bytes[..i] + [bytes[i]];
    ByteBitsAppend(bytes[..i], bytes[i]);
  }
}
