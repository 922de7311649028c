/** Big-endian bit strings and their grouping into fixed-width symbols: the
    common vocabulary of the base32 and base64 codecs (sections 4 and 6 of RFC 4648). */
module Bits {
  import opened Arithmetic

  function Pow2(n: nat): (p: nat)
    ensures p > 0
  {
    if n == 0 then 1 else 2 * Pow2(n - 1)
  }

  /** The `w` low-order bits of `n`, most significant first. */
  function BigEndian(n: nat, w: nat): (b: seq<bool>)
    ensures |b| == w
  {
    if w == 0 then [] else BigEndian(n / 2, w - 1) + [n % 2 == 1]
  }

  function Value(b: seq<bool>): (n: nat)
    ensures n < Pow2(|b|)
  {
    if b == [] then 0 else 2 * Value(b[..|b| - 1]) + (if b[|b| - 1] then 1 else 0)
  }

  /** The length in bits of `n` symbols of `w` bits. */
  function Size(n: nat, w: nat): nat {
    if n == 0 then 0 else Size(n - 1, w) + w
  }

  lemma {:induction false} SizeIsProduct(n: nat, w: nat)
    ensures Size(n, w) == n * w
  {
    if n > 0 { SizeIsProduct(n - 1, w); }
  }

  /** Concatenation of the `w`-bit forms of the symbols `xs`. */
  function Concat(xs: seq<nat>, w: nat): (b: seq<bool>)
    ensures |b| == Size(|xs|, w)
  {
    if xs == [] then [] else Concat(xs[..|xs| - 1], w) + BigEndian(xs[|xs| - 1], w)
  }

  predicate Fits(xs: seq<nat>, w: nat) {
    forall i :: 0 <= i < |xs| ==> xs[i] < Pow2(w)
  }

  /** Cuts a bit string into `n` consecutive `w`-bit symbols. */
  function Groups(b: seq<bool>, w: nat, n: nat): (xs: seq<nat>)
    requires |b| == Size(n, w)
    ensures |xs| == n
    decreases n
  {
    if n == 0 then []
    else
      var m := Size(n - 1, w);
      Groups(b[..m], w, n - 1) + [Value(b[m..])]
  }

  function Zeros(n: nat): (b: seq<bool>)
    ensures |b| == n && forall i :: 0 <= i < n ==> !b[i]
  {
    seq(n, _ => false)
  }

  /** Halving first and then dividing by d is dividing by 2d. */
  lemma HalveThenDivide(n: nat, d: nat)
    requires d > 0
    ensures n / 2 / d == n / (2 * d)
    ensures n % (2 * d) == n / 2 % d * 2 + n % 2
  {
    var q, r := n / 2 / d, n / 2 % d;
    assert n / 2 == q * d + r;
    assert n == q * (2 * d) + (2 * r + n % 2);
    DivModUnique(n, 2 * d, q, 2 * r + n % 2);
  }

  /** Dropping the `m` low-order bits, one at a time. */
  function Drop(n: nat, m: nat): nat {
    if m == 0 then n else Drop(n / 2, m - 1)
  }

  lemma {:induction false} DropIsQuotient(n: nat, m: nat)
    ensures Drop(n, m) == n / Pow2(m)
  {
    if m > 0 {
      DropIsQuotient(n / 2, m - 1);
      HalveThenDivide(n, Pow2(m - 1));
    }
  }

  lemma {:induction false} ValueOfBigEndian(n: nat, w: nat)
    requires n < Pow2(w)
    ensures Value(BigEndian(n, w)) == n
  {
    if w > 0 {
      ValueOfBigEndian(n / 2, w - 1);
      var b := BigEndian(n, w);
      assert b[..w - 1] == BigEndian(n / 2, w - 1);
    }
  }

  lemma {:induction false} BigEndianOfValue(b: seq<bool>)
    ensures BigEndian(Value(b), |b|) == b
  {
    if b != [] {
      BigEndianOfValue(b[..|b| - 1]);
    }
  }

  /** The top `j` of `j + m` bits are left when the `m` low-order bits are dropped. */
  lemma {:induction false} Split(n: nat, j: nat, m: nat)
    ensures BigEndian(n, j + m) == BigEndian(Drop(n, m), j) + BigEndian(n, m)
  {
    if m > 0 {
      Split(n / 2, j, m - 1);
    }
  }

  /** Only the residue modulo 2^k matters for the `w <= k` low-order bits. */
  lemma {:induction false} LowBits(n: nat, k: nat, w: nat)
    requires w <= k
    ensures BigEndian(n % Pow2(k), w) == BigEndian(n, w)
  {
    if w > 0 {
      HalveThenDivide(n, Pow2(k - 1));
      LowBits(n / 2, k - 1, w - 1);
      var r := n % Pow2(k);
      assert r / 2 == n / 2 % Pow2(k - 1) && r % 2 == n % 2;
    }
  }

  lemma {:induction false} GroupsFit(b: seq<bool>, w: nat, n: nat)
    requires |b| == Size(n, w)
    ensures Fits(Groups(b, w, n), w)
    decreases n
  {
    if n > 0 {
      GroupsFit(b[..Size(n - 1, w)], w, n - 1);
    }
  }

  lemma ConcatAppend(xs: seq<nat>, x: nat, w: nat)
    ensures Concat(xs + [x], w) == Concat(xs, w) + BigEndian(x, w)
  {
    assert (xs + [x])[..|xs|] == xs;
  }

  lemma GroupsAppend(b: seq<bool>, c: seq<bool>, w: nat, n: nat)
    requires |b| == Size(n, w) && |c| == w
    ensures Groups(b + c, w, n + 1) == Groups(b, w, n) + [Value(c)]
  {
    assert (b + c)[..|b|] == b && (b + c)[|b|..] == c;
  }

  lemma {:induction false} GroupsOfConcat(xs: seq<nat>, w: nat)
    requires Fits(xs, w)
    ensures Groups(Concat(xs, w), w, |xs|) == xs
  {
    if xs != [] {
      var front, last := xs[..|xs| - 1], xs[|xs| - 1];
      assert xs == front + [last];
      GroupsOfConcat(front, w);
      ValueOfBigEndian(last, w);
      ConcatAppend(front, last, w);
      GroupsAppend(Concat(front, w), BigEndian(last, w), w, |front|);
    }
  }

  lemma ConcatOfGroupsAppend(b: seq<bool>, c: seq<bool>, w: nat, n: nat)
    requires |b| == Size(n, w) && |c| == w && Concat(Groups(b, w, n), w) == b
    ensures Concat(Groups(b + c, w, n + 1), w) == b + c
  {
    GroupsAppend(b, c, w, n);
    BigEndianOfValue(c);
    ConcatAppend(Groups(b, w, n), Value(c), w);
  }

  lemma {:induction false} ConcatOfGroups(b: seq<bool>, w: nat, n: nat)
    requires |b| == Size(n, w)
    ensures Concat(Groups(b, w, n), w) == b
    decreases n
  {
    if n > 0 {
      var m := Size(n - 1, w);
      var front, last := b[..m], b[m..];
      ConcatOfGroups(front, w, n - 1);
      ConcatOfGroupsAppend(front, last, w, n - 1);
      assert front + last == b;
    } else {
      assert Groups(b, w, n) == [] && b == [];
    }
  }

  lemma TailOf(bits: seq<bool>, head: seq<bool>, zeros: seq<bool>)
    requires |head| + |zeros| == |bits| && bits[..|head|] == head
    ensures bits == head + zeros <==> bits[|head|..] == zeros
  {
    assert bits == head + bits[|head|..];
  }
}
