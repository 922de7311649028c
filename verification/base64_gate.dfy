/** The strict base64 gate of image uploads (sections 3.5 and 4 of RFC 4648). */
module Base64Gate {
  import opened Bits
  import opened Bytes
  import opened Codec
  import opened Wrappers

  const MAX_DECODED_IMAGE_BYTES := 5 * 1024 * 1024

  datatype Mime = Jpeg | Png | Webp

  datatype Image = Image(bytes: seq<byte>, mime: Mime)

  datatype UploadError = UnsupportedImageType | MalformedBase64 | InvalidSize | ContentTypeMismatch

  // ---------- padding ----------

  function Pads(n: nat): (s: string)
    ensures |s| == n && forall i :: 0 <= i < n ==> s[i] == '='
  {
    seq(n, _ => '=')
  }

  /** Data characters, then `=` up to a multiple of four. */
  function Encoded(input: seq<byte>): string {
    var data := Data(SixtyFour, input);
    data + Pads(PadCount(|data|))
  }

  function PadCount(n: nat): (p: nat)
    ensures (n + p) % 4 == 0 && p < 4
    ensures n % 4 != 1 ==> p <= 2
  {
    (4 - n % 4) % 4
  }

  // ---------- the gate ----------

  /** Position of the first `=`, or the length of the text. */
  function DataEnd(value: string): (n: nat)
    ensures n <= |value|
    ensures forall i :: 0 <= i < n ==> value[i] != '='
    ensures n < |value| ==> value[n] == '='
  {
    if value == [] || value[0] == '=' then 0 else 1 + DataEnd(value[1..])
  }

  /** `n` base64 characters followed by at most two `=`. */
  predicate StrictAt(value: string, n: nat) {
    && n <= |value| <= n + 2
    && (forall i :: 0 <= i < n ==> IndexOf(SixtyFour, value[i]) != -1)
    && (forall i :: n <= i < |value| ==> value[i] == '=')
  }

  ghost predicate StrictCharacters(value: string) {
    exists n: nat :: StrictAt(value, n)
  }

  /** The data of a strict text can only end at its first `=`. */
  lemma StrictSplit(value: string)
    ensures StrictCharacters(value) <==> StrictAt(value, DataEnd(value))
    ensures forall n: nat :: StrictAt(value, n) ==> n == DataEnd(value)
  {
    var d := DataEnd(value);
    forall n: nat | StrictAt(value, n) ensures n == d {
      assert n < |value| ==> value[n] == '=';
      assert d < |value| ==> IndexOf(SixtyFour, value[d]) == -1;
    }
  }

  method HasOnlyStrictBase64Characters(value: string) returns (r: bool)
    ensures r <==> StrictCharacters(value)
  {
    StrictSplit(value);
    var dataEnd := DataEnd(value);
    var paddingLength := |value| - dataEnd;
    if paddingLength > 2 {
      return false;
    }
    for index := dataEnd to |value|
      invariant forall i :: dataEnd <= i < index ==> value[i] == '='
    {
      if value[index] != '=' {
        return false;
      }
    }
    for index := 0 to dataEnd
      invariant forall i :: 0 <= i < index ==> IndexOf(SixtyFour, value[i]) != -1
    {
      var code := value[index] as int;
      var isUpper := code >= 65 && code <= 90;
      var isLower := code >= 97 && code <= 122;
      var isDigit := code >= 48 && code <= 57;
      if !isUpper && !isLower && !isDigit && value[index] != '+' && value[index] != '/' {
        assert IndexOf(SixtyFour, value[index]) == -1;
        return false;
      }
    }
    return true;
  }

  function DecodedText(value: string): (bytes: seq<byte>)
    requires StrictAt(value, DataEnd(value))
  {
    DecodedBytes(SixtyFour, value[..DataEnd(value)])
  }

  /** The bytes that the base64 and size checks let through, or the error they raise. */
  function Gate(value: string): Result<seq<byte>, UploadError> {
    if value == "" || |value| % 4 != 0 || !StrictAt(value, DataEnd(value)) then Err(MalformedBase64)
    else
      var bytes := DecodedText(value);
      if |bytes| == 0 || |bytes| > MAX_DECODED_IMAGE_BYTES || Encoded(bytes) != value then Err(InvalidSize)
      else Ok(bytes)
  }

  /** Appending one or two `=` to base64 characters keeps them apart. */
  lemma PadsAreStrict(data: string, p: nat)
    requires InAlphabet(SixtyFour, data) && p <= 2
    ensures var s := data + Pads(p);
      DataEnd(s) == |data| && StrictAt(s, |data|) && s[..|data|] == data
  {
    var s := data + Pads(p);
    assert s[..|data|] == data;
    forall i | 0 <= i < |data| ensures IndexOf(SixtyFour, s[i]) != -1 {
      assert s[i] == data[i];
    }
    assert StrictAt(s, |data|);
    StrictSplit(s);
  }

  lemma EncodedIsStrict(input: seq<byte>)
    ensures var s := Encoded(input);
      StrictAt(s, DataEnd(s)) && s[..DataEnd(s)] == Data(SixtyFour, input)
    ensures |Encoded(input)| % 4 == 0 && (input != [] ==> Encoded(input) != "")
  {
    var data := Data(SixtyFour, input);
    var p := PadCount(|data|);
    assert p <= 2 by { SymbolCountMod4(|input|); }
    PadsAreStrict(data, p);
    assert Encoded(input) == data + Pads(p);
  }

  lemma SymbolCountMod4(n: nat)
    ensures SymbolCount(SixtyFour, n) % 4 != 1
  {
    var q, r := n / 3, n % 3;
    assert n == 3 * q + r;
    assert SymbolCount(SixtyFour, n) == 4 * q + (8 * r + 5) / 6;
  }

  lemma EncodedDecodes(value: string, bytes: seq<byte>)
    requires value == Encoded(bytes)
    ensures StrictAt(value, DataEnd(value)) && DecodedText(value) == bytes && |value| % 4 == 0
    ensures bytes != [] ==> value != ""
  {
    EncodedIsStrict(bytes);
    DecodeInvertsEncode(SixtyFour, bytes);
  }

  lemma GateOnStrict(value: string, bytes: seq<byte>, text: string)
    requires StrictAt(value, DataEnd(value)) && DecodedText(value) == bytes && |value| % 4 == 0 && value != ""
    requires text == Encoded(bytes)
    ensures Gate(value).Ok? <==> 1 <= |bytes| <= MAX_DECODED_IMAGE_BYTES && text == value
    ensures Gate(value).Ok? ==> Gate(value) == Ok(bytes)
  {
  }

  /** A text passes exactly when it is the encoding of a sequence of 1 to 5 MiB, and then that
      sequence is the result. */
  lemma GateAcceptsEncodings(value: string, bytes: seq<byte>)
    ensures Gate(value) == Ok(bytes) <==> 1 <= |bytes| <= 5_242_880 && value == Encoded(bytes)
  {
    if Gate(value) == Ok(bytes) {
      GateOnStrict(value, DecodedText(value), Encoded(DecodedText(value)));
    } else if value == Encoded(bytes) && bytes != [] {
      EncodedDecodes(value, bytes);
      GateOnStrict(value, bytes, value);
    }
  }

  lemma EncodedInjective(a: seq<byte>, b: seq<byte>)
    requires Encoded(a) == Encoded(b)
    ensures a == b
  {
    EncodedIsStrict(a);
    EncodedIsStrict(b);
    DecodeInvertsEncode(SixtyFour, a);
    DecodeInvertsEncode(SixtyFour, b);
  }

  lemma LeftOverBits(data: string, n: nat)
    requires InAlphabet(SixtyFour, data) && n == 6 * |data| / 8 && SymbolCount(SixtyFour, n) == |data|
    ensures Data(SixtyFour, DecodedBytes(SixtyFour, data)) == data <==>
      SymbolBits(SixtyFour, data)[8 * n..] == Zeros(6 * |data| - 8 * n)
  {
    DataReencodesIff(SixtyFour, data);
  }

  lemma SameData(value: string, data: string, bytes: seq<byte>)
    requires |value| % 4 == 0 && StrictAt(value, DataEnd(value)) && data == value[..DataEnd(value)]
    ensures Encoded(bytes) == value <==> Data(SixtyFour, bytes) == data
  {
    SamePads(value);
    if Encoded(bytes) == value { EncodedIsStrict(bytes); }
  }

  lemma StrictLeftOver(value: string, n: nat)
    requires |value| % 4 == 0 && StrictAt(value, n)
    ensures SymbolCount(SixtyFour, 6 * n / 8) == n
  {
    LeftOver(|value|, n);
  }

  /** The re-encoding check rejects exactly the texts whose left-over bits are not all zero. */
  lemma ReencodesIff(value: string)
    requires |value| % 4 == 0 && StrictAt(value, DataEnd(value))
    ensures var data := value[..DataEnd(value)];
      var n := 6 * |data| / 8;
      Encoded(DecodedText(value)) == value <==> SymbolBits(SixtyFour, data)[8 * n..] == Zeros(6 * |data| - 8 * n)
  {
    var data := value[..DataEnd(value)];
    StrictLeftOver(value, DataEnd(value));
    LeftOverBits(data, 6 * |data| / 8);
    SameData(value, data, DecodedText(value));
  }

  lemma StrictIsDataAndPads(value: string, n: nat, p: nat)
    requires StrictAt(value, n) && p == |value| - n
    ensures value == value[..n] + Pads(p)
  {
  }

  lemma PadCountIs(length: nat, n: nat)
    requires length % 4 == 0 && n <= length <= n + 2
    ensures PadCount(n) == length - n
  {
  }

  lemma SamePads(value: string)
    requires |value| % 4 == 0 && StrictAt(value, DataEnd(value))
    ensures var data := value[..DataEnd(value)];
      value == data + Pads(PadCount(|data|))
  {
    var n := DataEnd(value);
    PadCountIs(|value|, n);
    StrictIsDataAndPads(value, n, |value| - n);
  }

  lemma LeftOver(length: nat, m: nat)
    requires length % 4 == 0 && m <= length <= m + 2
    ensures SymbolCount(SixtyFour, 6 * m / 8) == m
  {
    var q := length / 4;
    assert length == 4 * q;
    match length - m {
      case 0 => assert 6 * m / 8 == 3 * q;
      case 1 => assert 6 * m / 8 == 3 * q - 1;
      case 2 => assert 6 * m / 8 == 3 * q - 2;
    }
  }

  // ---------- declared and detected content type ----------

  function SupportedType(contentType: string): Option<Mime> {
    match contentType
    case "image/jpeg" => Some(Jpeg)
    case "image/png" => Some(Png)
    case "image/webp" => Some(Webp)
    case _ => None
  }

  /** `toString('ascii')` of four bytes, which drops the highest bit of each, is the text of the codes. */
  predicate AsciiAt(b: seq<byte>, at: nat, codes: seq<int>) {
    at + |codes| <= |b| && forall i :: 0 <= i < |codes| ==> b[at + i] % 128 == codes[i]
  }

  function DetectImageMime(b: seq<byte>): Option<Mime> {
    if |b| >= 3 && b[..3] == [0xff, 0xd8, 0xff] then Some(Jpeg)
    else if |b| >= 8 && b[..8] == [0x89, 0x50, 0x4e, 0x47, 0x0d, 0x0a, 0x1a, 0x0a] then Some(Png)
    else if |b| >= 12 && AsciiAt(b, 0, [0x52, 0x49, 0x46, 0x46]) && AsciiAt(b, 8, [0x57, 0x45, 0x42, 0x50]) then Some(Webp)
    else None
  }

  method DecodeAndValidateBase64Image(imageBase64: string, contentType: string)
    returns (r: Result<Image, UploadError>)
    ensures forall b: seq<byte>, m :: r == Ok(Image(b, m)) <==>
      1 <= |b| <= MAX_DECODED_IMAGE_BYTES && imageBase64 == Encoded(b) && SupportedType(contentType) == Some(m)
      && DetectImageMime(b) == Some(m)
    ensures SupportedType(contentType) == None ==> r == Err(UnsupportedImageType)
    ensures SupportedType(contentType) != None ==>
      match Gate(imageBase64)
      case Err(e) => r == Err(e)
      case Ok(b) =>
        && (DetectImageMime(b) == None ==> r == Err(UnsupportedImageType))
        && (DetectImageMime(b) !in {None, SupportedType(contentType)} ==> r == Err(ContentTypeMismatch))
  {
    forall b: seq<byte> ensures Gate(imageBase64) == Ok(b) <==> 1 <= |b| <= MAX_DECODED_IMAGE_BYTES && imageBase64 == Encoded(b) {
      GateAcceptsEncodings(imageBase64, b);
    }
    StrictSplit(imageBase64);
    var declared := SupportedType(contentType);
    if declared == None {
      return Err(UnsupportedImageType);
    }
    var strict := HasOnlyStrictBase64Characters(imageBase64);
    if |imageBase64| == 0 || |imageBase64| % 4 != 0 || !strict {
      return Err(MalformedBase64);
    }
    var buffer := DecodedText(imageBase64);
    if |buffer| == 0 || |buffer| > MAX_DECODED_IMAGE_BYTES || Encoded(buffer) != imageBase64 {
      return Err(InvalidSize);
    }
    var detected := DetectImageMime(buffer);
    if detected == None {
      return Err(UnsupportedImageType);
    }
    if detected != declared {
      return Err(ContentTypeMismatch);
    }
    return Ok(Image(buffer, detected.value));
  }

  /** Which error the gate raises: MALFORMED for a text that is empty, no multiple of four characters long or
      has a character out of place, else INVALID_SIZE for one that encodes no sequence of 1 byte to 5 MiB. */
  lemma GateErrors(value: string)
    ensures Gate(value) == Err(MalformedBase64) <==> value == "" || |value| % 4 != 0 || !StrictCharacters(value)
    ensures Gate(value) == Err(InvalidSize) <==>
      value != "" && |value| % 4 == 0 && StrictCharacters(value) && !EncodesImage(value)
  {
    StrictSplit(value);
    if EncodesImage(value) {
      var b :| 1 <= |b| <= 5_242_880 && value == Encoded(b);
      GateAcceptsEncodings(value, b);
    }
    if Gate(value).Ok? { GateAcceptsEncodings(value, Gate(value).value); }
  }

  ghost predicate EncodesImage(value: string) {
    exists b: seq<byte> :: 1 <= |b| <= 5_242_880 && value == Encoded(b)
  }

  /** The alphabet of the decoder: the capital letters, the small ones, the digits and two signs. */
  lemma AlphabetLiteral(x: nat)
    requires x < 64
    ensures x < 26 ==> CharOf(SixtyFour, x) == "ABCDEFGHIJKLMNOPQRSTUVWXYZ"[x]
    ensures 26 <= x < 52 ==> CharOf(SixtyFour, x) == "abcdefghijklmnopqrstuvwxyz"[x - 26]
    ensures 52 <= x ==> CharOf(SixtyFour, x) == "0123456789+/"[x - 52]
  {
  }

  /** `b` has the characters of `s` at position `at`. */
  predicate Spells(b: seq<byte>, at: nat, s: string) {
    at + |s| <= |b| && forall i :: 0 <= i < |s| ==> b[at + i] == s[i] as int
  }

  /** The same, whatever the highest bit of each byte is. */
  predicate SpellsLow(b: seq<byte>, at: nat, s: string) {
    at + |s| <= |b| && forall i :: 0 <= i < |s| ==> b[at + i] == s[i] as int || b[at + i] == s[i] as int + 128
  }

  lemma PngMark(b: seq<byte>)
    ensures Spells(b, 1, "PNG\r\n") <==> |b| >= 6 && b[1..6] == [0x50, 0x4e, 0x47, 0x0d, 0x0a]
  {
    var s := "PNG\r\n";
    if Spells(b, 1, s) {
      assert b[1 + 0] == s[0] as int && b[1 + 1] == s[1] as int && b[1 + 2] == s[2] as int && b[1 + 3] == s[3] as int
             && b[1 + 4] == s[4] as int;
    }
  }

  lemma FourLow(b: seq<byte>, at: nat, s: string, codes: seq<int>)
    requires |s| == |codes| && forall i :: 0 <= i < |s| ==> codes[i] == s[i] as int && codes[i] < 128
    ensures SpellsLow(b, at, s) <==> AsciiAt(b, at, codes)
  {
    if AsciiAt(b, at, codes) {
      forall i | 0 <= i < |s| ensures b[at + i] == s[i] as int || b[at + i] == s[i] as int + 128 {
        assert b[at + i] % 128 == codes[i];
      }
    }
    if SpellsLow(b, at, s) {
      forall i | 0 <= i < |codes| ensures b[at + i] % 128 == codes[i] {
        assert b[at + i] == s[i] as int || b[at + i] == s[i] as int + 128;
      }
    }
  }

  /** The marks of the three formats: `PNG` after the byte 0x89, and `WEBP` in a `RIFF` container, where the
      highest bits do not count. */
  lemma ImageMarks(b: seq<byte>)
    ensures DetectImageMime(b) == Some(Jpeg) <==> |b| >= 3 && b[0] == 255 && b[1] == 216 && b[2] == 255
    ensures DetectImageMime(b) == Some(Png) <==> |b| >= 8 && b[0] == 137 && Spells(b, 1, "PNG\r\n") && b[6] == 26 && b[7] == 10
    ensures DetectImageMime(b) == Some(Webp) <==> SpellsLow(b, 0, "RIFF") && SpellsLow(b, 8, "WEBP")
  {
    PngMark(b);
    FourLow(b, 0, "RIFF", [0x52, 0x49, 0x46, 0x46]);
    FourLow(b, 8, "WEBP", [0x57, 0x45, 0x42, 0x50]);
    if |b| >= 8 {
      assert b[1..6] == [b[1], b[2], b[3], b[4], b[5]];
      assert b[..8] == [b[0], b[1], b[2], b[3], b[4], b[5], b[6], b[7]];
    }
    if AsciiAt(b, 0, [0x52, 0x49, 0x46, 0x46]) { assert b[0 + 0] % 128 == [0x52, 0x49, 0x46, 0x46][0]; }
  }
}
