/** One-time passwords: HOTP truncation (section 5.3 of RFC 4226) and the three-step acceptance
    window of TOTP (sections 4 and 5.2 of RFC 6238). HMAC-SHA-1 is a parameter. */
module Totp {
  import opened Arithmetic
  import opened Bits
  import opened Bytes
  import opened Int32
  import opened Text
  import opened Wrappers
  import Base32

  const TOTP_STEP_MS := 30_000
  const MAX_DATE_MS := 8_640_000_000_000_000

  type Sha1 = d: seq<byte> | |d| == 20 witness seq(20, _ => 0)
  type Hmac = (seq<byte>, seq<byte>) -> Sha1

  /** A moment that `Date.now()` can return, in milliseconds since 1970. */
  type Instant = t: nat | t <= MAX_DATE_MS

  function StepAt(now: Instant): nat {
    now / TOTP_STEP_MS
  }

  /** Steps of thirty seconds, whichever is rounded down first (section 4.1 of RFC 6238). */
  lemma StepIsThirtySeconds(now: Instant)
    ensures StepAt(now) == now / 1000 / 30
  {
    var seconds := now / 1000;
    DivModUnique(now, 30_000, seconds / 30, 1000 * (seconds % 30) + now % 1000);
  }

  /** The low `count` bytes of a number, the highest first. */
  function BigEndianBytes(n: nat, count: nat): (b: seq<byte>)
    ensures |b| == count && ByteBits(b) == BigEndian(n, Size(count, 8))
  {
    var bits := BigEndian(n, Size(count, 8));
    ConcatOfGroups(bits, 8, count);
    var b := Groups(bits, 8, count);
    assert forall i :: 0 <= i < count ==> b[i] < 256 by {
      GroupsFit(bits, 8, count);
      Powers();
    }
    b
  }

  /** `writeBigUInt64BE` */
  function CounterBytes(counter: nat): (b: seq<byte>)
    ensures |b| == 8 && ByteBits(b) == BigEndian(counter, 8 * |b|)
  {
    SizeIsProduct(8, 8);
    BigEndianBytes(counter, 8)
  }

  /** The 31-bit number that dynamic truncation reads at `o`, with the operators of the source. */
  function Binary(h: Sha1, o: nat): int
    requires o <= 16
  {
    Or(Or(Or(ShiftLeft(And(h[o], 0x7f), 24), ShiftLeft(And(h[o + 1], 0xff), 16)),
          ShiftLeft(And(h[o + 2], 0xff), 8)),
       And(h[o + 3], 0xff))
  }

  /** Masking a byte with `k` ones. */
  lemma ByteAnd(v: byte, k: nat, m: nat)
    requires m + 1 == Pow2(k) && m < 256
    ensures And(v, m) == v as nat % (m + 1)
  {
    MaskField(v, k, m);
  }

  lemma Masks()
    ensures Pow2(4) == 16 && Pow2(7) == 128 && Pow2(8) == 256
  {
    assert Pow2(4) == 16;
  }

  lemma ShiftSmall(v: nat, k: nat, p: nat)
    requires k < 32 && p == Pow2(k) && v * p < 0x8000_0000
    ensures ShiftLeft(v, k) == v * p
  {
    InRange(v * p);
  }

  lemma OrIsAddition(a: nat, b: nat, k: nat, p: nat)
    requires p == Pow2(k) && a % p == 0 && b < p && a + b < 0x8000_0000
    ensures Or(a, b) == a + b
  {
    InRange(a);
    InRange(b);
    assert OrBits(a, b) == a + b by { OrIsSum(a, b, k); }
    InRange(a + b);
  }

  lemma Multiples(a: nat, b: nat, c: nat)
    ensures a * 0x100_0000 % 0x100_0000 == 0
    ensures (a * 0x100_0000 + b * 0x1_0000) % 0x1_0000 == 0
    ensures (a * 0x100_0000 + b * 0x1_0000 + c * 0x100) % 0x100 == 0
  {
    DivModUnique(a * 0x100_0000, 0x100_0000, a, 0);
    DivModUnique(a * 0x100_0000 + b * 0x1_0000, 0x1_0000, a * 0x100 + b, 0);
    DivModUnique(a * 0x100_0000 + b * 0x1_0000 + c * 0x100, 0x100, a * 0x1_0000 + b * 0x100 + c, 0);
  }

  /** Four bytes, the highest first. */
  function FourBytes(a: nat, b: nat, c: nat, d: nat): nat {
    a * 0x100_0000 + b * 0x1_0000 + c * 0x100 + d
  }

  lemma ShiftsAndOrs(a: nat, b: nat, c: nat, d: nat)
    requires a < 128 && b < 256 && c < 256 && d < 256
    ensures Or(Or(Or(ShiftLeft(a, 24), ShiftLeft(b, 16)), ShiftLeft(c, 8)), d) == FourBytes(a, b, c, d)
  {
    assert Pow2(8) == 0x100 && Pow2(16) == 0x1_0000 && Pow2(24) == 0x100_0000 by { Powers(); }
    ShiftSmall(a, 24, 0x100_0000);
    ShiftSmall(b, 16, 0x1_0000);
    ShiftSmall(c, 8, 0x100);
    Multiples(a, b, c);
    OrIsAddition(a * 0x100_0000, b * 0x1_0000, 24, 0x100_0000);
    OrIsAddition(a * 0x100_0000 + b * 0x1_0000, c * 0x100, 16, 0x1_0000);
    OrIsAddition(a * 0x100_0000 + b * 0x1_0000 + c * 0x100, d, 8, 0x100);
  }

  /** Dynamic truncation is the big-endian reading of four bytes without the sign bit. */
  lemma BinaryIsBigEndian(h: Sha1, o: nat)
    requires o <= 16
    ensures Binary(h, o) == FourBytes(h[o] as nat % 128, h[o + 1], h[o + 2], h[o + 3])
  {
    assert And(h[o], 0x7f) == h[o] as nat % 128 by { Masks(); ByteAnd(h[o], 7, 127); }
    WholeByte(h[o + 1]);
    WholeByte(h[o + 2]);
    WholeByte(h[o + 3]);
    ShiftsAndOrs(h[o] as nat % 128, h[o + 1], h[o + 2], h[o + 3]);
  }

  lemma WholeByte(v: byte)
    ensures And(v, 0xff) == v
  {
    Masks();
    ByteAnd(v, 8, 255);
  }

  /** Section 5.3 of RFC 4226: the number behind the six digits. */
  function Truncated(h: Sha1): (n: nat)
    ensures n < 1_000_000
  {
    var o := h[19] as nat % 16;
    FourBytes(h[o] as nat % 128, h[o + 1], h[o + 2], h[o + 3]) % 1_000_000
  }

  /** The same number with the operators of the source. */
  function Truncate(h: Sha1): int
    ensures Truncate(h) == Truncated(h)
  {
    assert And(h[19], 0x0f) == h[19] as nat % 16 by { Masks(); ByteAnd(h[19], 4, 15); }
    var offset := And(h[19], 0x0f);
    BinaryIsBigEndian(h, offset);
    Binary(h, offset) % 1_000_000
  }

  /** `n.toString().padStart(6, '0')` */
  function SixDigits(n: nat): (code: string)
    requires n < 1_000_000
    ensures IsCode(code) && ParseDecimal(code) == n
  {
    assert Pow10(6) == 1_000_000 by { assert Pow10(3) == 1000; }
    DecimalLength(n, 6);
    PadStart(DecimalString(n), 6)
  }

  /** The code of a counter: six decimal digits with leading zeros. */
  function CodeAt(hmac: Hmac, key: seq<byte>, counter: nat): (code: string)
    ensures IsCode(code) && ParseDecimal(code) == Truncated(hmac(key, CounterBytes(counter)))
  {
    SixDigits(Truncate(hmac(key, CounterBytes(counter))))
  }

  /** A submitted code that names a number below 10^6 by its six digits. */
  predicate IsCode(text: string) {
    |text| == 6 && AllDigits(text)
  }

  /** Step `s` is one of the three that are tried at step `current`. */
  predicate InWindow(current: nat, s: nat) {
    current - 1 <= s <= current + 1
  }

  /** The submitted digits are those of step `s` (section 4.2 of RFC 6238). */
  predicate CodeFits(hmac: Hmac, key: seq<byte>, text: string, s: nat) {
    IsCode(text) && ParseDecimal(text) == Truncated(hmac(key, CounterBytes(s)))
  }

  lemma CodeFitsIff(hmac: Hmac, key: seq<byte>, text: string, s: nat)
    requires IsCode(text)
    ensures CodeFits(hmac, key, text, s) <==> CodeAt(hmac, key, s) == text
  {
    if ParseDecimal(text) == Truncated(hmac(key, CounterBytes(s))) {
      ParseDecimalInjective(text, CodeAt(hmac, key, s));
    }
  }

  /** The first of the steps current - 1, current and current + 1 that fits. */
  function EarliestInWindow(fits: nat -> bool, current: nat): (r: Option<nat>)
    ensures r.Some? ==> InWindow(current, r.value) && fits(r.value)
    ensures r.Some? ==> forall s: nat :: InWindow(current, s) && fits(s) ==> r.value <= s
    ensures r.None? ==> forall s: nat :: InWindow(current, s) ==> !fits(s)
  {
    if current > 0 && fits(current - 1) then Some(current - 1)
    else if fits(current) then Some(current)
    else if fits(current + 1) then Some(current + 1)
    else None
  }

  function Fits(hmac: Hmac, key: seq<byte>, text: string): nat -> bool {
    (s: nat) => CodeFits(hmac, key, text, s)
  }

  /** The earliest of the three steps around the clock whose code was submitted. */
  function MatchedStep(hmac: Hmac, key: seq<byte>, code: string, current: nat): Option<nat> {
    EarliestInWindow(Fits(hmac, key, Trim(code)), current)
  }

  lemma EarliestOfEqual(f: nat -> bool, g: nat -> bool, current: nat)
    requires forall s: nat :: f(s) == g(s)
    ensures EarliestInWindow(f, current) == EarliestInWindow(g, current)
  {
  }

  /** A malformed code matches nothing; a secret that does not decode raises an error. */
  method MatchTotpStep(hmac: Hmac, code: string, secret: string, now: Instant)
    returns (r: Result<Option<nat>, Base32.Error>)
    ensures match Base32.Decoded(secret)
      case Ok(key) => r == Ok(MatchedStep(hmac, key, code, StepAt(now)))
      case Err(e) => r == if IsCode(Trim(code)) then Err(e) else Ok(None)
  {
    var normalized := Trim(code);
    if !IsCode(normalized) {
      return Ok(None);
    }
    var decoded := Base32.Decode(secret);
    if decoded.Err? {
      return Err(decoded.error);
    }
    var key := decoded.value;
    var codeAt := (s: nat) => CodeAt(hmac, key, s);
    var step := MatchWindow(codeAt, normalized, StepAt(now));
    forall s: nat ensures Compares(codeAt, normalized)(s) == Fits(hmac, key, normalized)(s) {
      CodeFitsIff(hmac, key, normalized, s);
    }
    EarliestOfEqual(Compares(codeAt, normalized), Fits(hmac, key, normalized), StepAt(now));
    r := Ok(step);
  }

  function Compares(codeAt: nat -> string, normalized: string): nat -> bool {
    (s: nat) => codeAt(s) == normalized
  }

  method MatchWindow(codeAt: nat -> string, normalized: string, currentStep: nat) returns (r: Option<nat>)
    ensures r == EarliestInWindow(Compares(codeAt, normalized), currentStep)
  {
    for offset := -1 to 2
      invariant forall s: nat :: currentStep - 1 <= s < currentStep + offset ==> codeAt(s) != normalized
    {
      var candidateStep := currentStep + offset;
      if candidateStep >= 0 && codeAt(candidateStep) == normalized {
        return Some(candidateStep);
      }
    }
    return None;
  }
}
