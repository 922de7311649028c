/** The 32-bit integer operators of ECMAScript (sections 7.1.6, 13.9 and 13.12 of ECMA-262),
    on mathematical integers: `<<` and `|` wrap to a signed value, `>>>` to an unsigned one. */
module Int32 {
  import opened Arithmetic
  import opened Bits

  const MODULUS := 0x1_0000_0000

  function ToUint32(x: int): (u: nat)
    ensures u < MODULUS
  {
    x % MODULUS
  }

  function ToInt32(x: int): int {
    var u := ToUint32(x);
    if u >= 0x8000_0000 then u - MODULUS else u
  }

  function AndBits(a: nat, b: nat): nat {
    if a == 0 || b == 0 then 0
    else (if a % 2 == 1 && b % 2 == 1 then 1 else 0) + 2 * AndBits(a / 2, b / 2)
  }

  function OrBits(a: nat, b: nat): nat
    decreases a + b
  {
    if a == 0 && b == 0 then 0
    else (if a % 2 == 1 || b % 2 == 1 then 1 else 0) + 2 * OrBits(a / 2, b / 2)
  }

  function ShiftLeft(x: int, n: nat): int
    requires n < 32
  {
    ToInt32(x * Pow2(n))
  }

  function ShiftRightUnsigned(x: int, n: nat): nat
    requires n < 32
  {
    ToUint32(x) / Pow2(n)
  }

  function Or(x: int, y: int): int {
    ToInt32(OrBits(ToUint32(x), ToUint32(y)))
  }

  function And(x: int, y: int): int {
    ToInt32(AndBits(ToUint32(x), ToUint32(y)))
  }

  lemma AndStep(a: nat, p: nat)
    requires p > 0
    ensures AndBits(a, 2 * p - 1) == a % 2 + 2 * AndBits(a / 2, p - 1)
  {
    assert (2 * p - 1) / 2 == p - 1 && (2 * p - 1) % 2 == 1;
  }

  /** A mask of `k` ones keeps the residue modulo 2^k. */
  lemma {:induction false} MaskIsResidue(a: nat, k: nat, p: nat)
    requires p == Pow2(k)
    ensures AndBits(a, p - 1) == a % p
    decreases k
  {
    if k > 0 {
      var q := Pow2(k - 1);
      MaskIsResidue(a / 2, k - 1, q);
      MaskStep(a, q, p);
    }
  }

  lemma MaskStep(a: nat, q: nat, p: nat)
    requires q > 0 && p == 2 * q && AndBits(a / 2, q - 1) == a / 2 % q
    ensures AndBits(a, p - 1) == a % p
  {
    AndStep(a, q);
    HalveThenDivide(a, q);
  }

  /** `|` of a multiple of 2^k and a number below 2^k is their sum. */
  lemma {:induction false} OrIsSum(a: nat, b: nat, k: nat)
    requires a % Pow2(k) == 0 && b < Pow2(k)
    ensures OrBits(a, b) == a + b
  {
    if k == 0 {
      OrZero(a);
    } else if a > 0 || b > 0 {
      HalveThenDivide(a, Pow2(k - 1));
      OrIsSum(a / 2, b / 2, k - 1);
    }
  }

  lemma {:induction false} OrZero(a: nat)
    ensures OrBits(a, 0) == a
  {
    if a > 0 { OrZero(a / 2); }
  }

  lemma Powers()
    ensures Pow2(1) == 2 && Pow2(2) == 4 && Pow2(3) == 8 && Pow2(4) == 16 && Pow2(5) == 32
    ensures Pow2(8) == 256 && Pow2(16) == 0x1_0000 && Pow2(24) == 0x100_0000 && Pow2(32) == MODULUS
  {
    assert Pow2(3) == 8;
    assert Pow2(6) == 64;
    assert Pow2(9) == 512;
    assert Pow2(12) == 4096;
    assert Pow2(15) == 0x8000;
    assert Pow2(18) == 0x4_0000;
    assert Pow2(21) == 0x20_0000;
    assert Pow2(24) == 0x100_0000;
    assert Pow2(27) == 0x800_0000;
    assert Pow2(30) == 0x4000_0000;
  }

  lemma InRange(n: nat)
    requires n < MODULUS
    ensures ToUint32(n) == n && ToUint32(ToInt32(n)) == n
    ensures n < 0x8000_0000 ==> ToInt32(n) == n
  {
  }

  lemma MaskField(d: nat, k: nat, m: nat)
    requires d < MODULUS && m + 1 == Pow2(k) && m < 256
    ensures And(d, m) == d % Pow2(k)
  {
    var a := AndBits(d, m);
    assert a == d % Pow2(k) by { MaskIsResidue(d, k, m + 1); }
    InRange(d);
    InRange(m);
    InRange(a);
  }

  /** `(x >>> n) & (2^k - 1)`: the `k` bits of `x` that start `n` above the lowest. */
  lemma FieldBits(x: int, n: nat, k: nat, p: nat)
    requires n < 32 && p == Pow2(k) && p <= 256
    ensures var f := And(ShiftRightUnsigned(x, n), p - 1);
      0 <= f < p && BigEndian(f, k) == BigEndian(Drop(ToUint32(x), n), k)
  {
    var u := ToUint32(x);
    DropIsQuotient(u, n);
    var d := Drop(u, n);
    DropShrinks(u, n);
    MaskField(d, k, p - 1);
    LowBits(d, k, k);
  }

  lemma {:induction false} DropShrinks(u: nat, n: nat)
    ensures Drop(u, n) <= u
  {
    if n > 0 { DropShrinks(u / 2, n - 1); }
  }

  lemma ResidueOfMultiple(u: nat, v: nat, p: nat)
    requires (p == 32 || p == 256) && v < p
    ensures u * p % MODULUS % p == 0 && u * p % MODULUS + v == (p * u + v) % MODULUS
  {
    var q := u * p / MODULUS;
    var r := u * p - q * MODULUS;
    var t := u - q * (MODULUS / p);
    assert r == t * p;
    DivModUnique(p * u + v, MODULUS, q, r + v);
    DivModUnique(r, p, t, 0);
  }

  lemma OrIntoZeros(x: int, v: nat, k: nat)
    requires ToUint32(x) % Pow2(k) == 0 && v < Pow2(k) && ToUint32(x) + v < MODULUS
    ensures ToUint32(Or(x, v)) == ToUint32(x) + v
  {
    var s := ToUint32(x);
    var o := OrBits(s, v);
    assert o == s + v by { OrIsSum(s, v, k); }
    InRange(v);
    InRange(o);
  }

  lemma OrIntoLowBits(x: int, v: nat, k: nat, p: nat)
    requires p == Pow2(k) && k < 32 && (p == 32 || p == 256) && v < p
    ensures ToUint32(Or(ShiftLeft(x, k), v)) == (p * ToUint32(x) + v) % MODULUS
  {
    ShiftOfResidue(x, p);
    ResidueOfMultiple(ToUint32(x), v, p);
    OrIntoZeros(ShiftLeft(x, k), v, k);
  }

  /** `p * u + v` for p = 2^k and a `k`-bit `v` appends the bits of `v`, also after wrapping. */
  lemma AppendField(u: nat, v: nat, k: nat, p: nat, w: nat)
    requires p == Pow2(k) && v < p && w + k <= 32
    ensures BigEndian((p * u + v) % MODULUS, w + k) == BigEndian(u, w) + BigEndian(v, k)
  {
    var y := p * u + v;
    assert Pow2(32) == MODULUS by { Powers(); }
    LowBits(y, 32, w + k);
    Split(y, w, k);
    DropIsQuotient(y, k);
    DivModUnique(y, p, u, v);
    LowBits(y, k, k);
  }

  /** `(x << k) | v` appends the bits of `v`, whatever overflowed. */
  lemma AppendBits(x: int, v: nat, k: nat, p: nat, w: nat)
    requires p == Pow2(k) && (p == 32 || p == 256) && v < p && w + k <= 32
    ensures k < 32 && BigEndian(ToUint32(Or(ShiftLeft(x, k), v)), w + k) == BigEndian(ToUint32(x), w) + BigEndian(v, k)
  {
    assert Pow2(32) == MODULUS by { Powers(); }
    OrIntoLowBits(x, v, k, p);
    AppendField(ToUint32(x), v, k, p, w);
  }

  /** A left shift by `p` appends `p` zero bits. */
  lemma {:induction false} AppendZeros(n: nat, p: nat, w: nat)
    ensures BigEndian(n * Pow2(p), w + p) == BigEndian(n, w) + Zeros(p)
  {
    if p > 0 {
      AppendZeros(n, p - 1, w);
      var m := n * Pow2(p - 1);
      assert n * Pow2(p) == 2 * m;
      assert Zeros(p) == Zeros(p - 1) + [false];
    }
  }

  lemma ShiftAppendsZeros(x: int, p: nat, w: nat)
    requires w + p <= 32 && p < 32
    ensures BigEndian(ToUint32(ShiftLeft(x, p)), w + p) == BigEndian(ToUint32(x), w) + Zeros(p)
  {
    var u, q := ToUint32(x), Pow2(p);
    ShiftOfResidue(x, q);
    WrapKeepsLowBits(u * q, w + p);
    AppendZeros(u, p, w);
  }

  lemma WrapKeepsLowBits(y: nat, k: nat)
    requires k <= 32
    ensures BigEndian(y % MODULUS, k) == BigEndian(y, k)
  {
    assert Pow2(32) == MODULUS by { Powers(); }
    LowBits(y, 32, k);
  }

  lemma ShiftOfResidue(x: int, q: nat)
    ensures ToUint32(ToInt32(x * q)) == ToUint32(x) * q % MODULUS
  {
    var c, u := x / MODULUS, ToUint32(x);
    var y, d := u * q, c * q;
    assert x == c * MODULUS + u;
    assert x * q == d * MODULUS + y;
  }
}
