/**
 * Unsigned integers of arbitrary width as bit sequences, least significant bit first: `ap_uint<N>` is a sequence
 * of N bits and `x(hi, lo)` is `x[lo..hi + 1]`.
 */
module Bits {
  type Bits = seq<bool>

  function Zeros(n: nat): (z: Bits)
    ensures |z| == n && forall i :: 0 <= i < n ==> !z[i]
  {
    seq(n, _ => false)
  }

  function Ones(n: nat): (z: Bits)
    ensures |z| == n && forall i :: 0 <= i < n ==> z[i]
  {
    seq(n, _ => true)
  }

  function Pow2(n: nat): (p: nat)
    ensures p > 0
  {
    if n == 0 then 1 else 2 * Pow2(n - 1)
  }

  lemma {:induction false} Pow2Monotone(m: nat, n: nat)
    requires m <= n
    ensures Pow2(m) <= Pow2(n)
    decreases n
  {
    if m < n {
      Pow2Monotone(m, n - 1);
    }
  }

  /** The value of a bit sequence. */
  function ToNat(b: Bits): (v: nat)
    ensures v < Pow2(|b|)
  {
    if b == [] then 0 else (if b[0] then 1 else 0) + 2 * ToNat(b[1..])
  }

  /** Bit i of the value is the i-th of the sequence. */
  lemma {:induction false} BitOfValue(b: Bits, i: nat)
    requires i < |b|
    ensures ToNat(b) / Pow2(i) % 2 == if b[i] then 1 else 0
    decreases |b|
  {
    if i > 0 {
      BitOfValue(b[1..], i - 1);
      HalveFirst(ToNat(b), ToNat(b[1..]), Pow2(i - 1));
    }
  }

  lemma HalveFirst(v: nat, half: nat, p: nat)
    requires p > 0 && 2 * half <= v <= 2 * half + 1
    ensures v / (2 * p) == half / p
  {
    var q, r := half / p, half % p;
    assert half == q * p + r;
    assert v == q * (2 * p) + (v - 2 * half + 2 * r);
    QuotientIs(v, 2 * p, q, v - 2 * half + 2 * r);
  }

  lemma QuotientIs(v: nat, n: nat, q: nat, r: nat)
    requires v == q * n + r && r < n
    ensures v / n == q
  {
    var d := v / n - q;
    assert v == (v / n) * n + v % n;
    assert d * n == r - v % n;
    assert (d >= 1 ==> d * n >= n) && (d <= -1 ==> d * n + n <= 0);
  }

  function Xor(a: Bits, b: Bits): (c: Bits)
    requires |a| == |b|
    ensures |c| == |a| && forall i :: 0 <= i < |a| ==> c[i] == (a[i] != b[i])
  {
    seq(|a|, i requires 0 <= i < |a| => a[i] != b[i])
  }

  function Or(a: Bits, b: Bits): (c: Bits)
    requires |a| == |b|
    ensures |c| == |a| && forall i :: 0 <= i < |a| ==> c[i] == (a[i] || b[i])
  {
    seq(|a|, i requires 0 <= i < |a| => a[i] || b[i])
  }

  /** `x << n` and `x >> n` at the width of x. */
  function ShiftLeft(x: Bits, n: nat): (y: Bits)
    ensures |y| == |x|
  {
    if n <= |x| then Zeros(n) + x[..|x| - n] else Zeros(|x|)
  }

  function ShiftRight(x: Bits, n: nat): (y: Bits)
    ensures |y| == |x|
  {
    if n <= |x| then x[n..] + Zeros(n) else Zeros(|x|)
  }
}
