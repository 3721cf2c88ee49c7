/**
 * One's complement arithmetic of the Internet checksum (section 1 of RFC 1071) and the 17-bit
 * end-around-carry accumulator that every checksum stage of the pipeline uses.
 *
 * `Fold` is the value a one's complement adder reaches for an exact integer sum.  It is a homomorphism from
 * addition, so a stage may add in any grouping, in any number of lanes, and still reach the same sum.
 *
 * Functions of numbers bind their parameters anew (`var v := x;`): the verifier then does not try to compute with
 * them as with literals, which for sums of zeros never ends.
 */
module OnesComplement {
  type Octet = x: int | 0 <= x < 256

  /** Bits 7..4 and bits 3..0 of an octet. */
  function HighNibble(x: nat): nat {
    var v := x;
    v / 16
  }

  function LowNibble(x: nat): (n: nat)
    ensures n < 16
  {
    var v := x;
    v % 16
  }

  /** Bits 15..0 and bits 16..0 of a register. */
  function Low16(x: nat): (r: nat)
    ensures r <= 0xFFFF
  {
    var v := x;
    v % 0x10000
  }

  function Low17(x: nat): (r: nat)
    ensures r <= 0x1FFFF
  {
    var v := x;
    v % 0x20000
  }

  /** The sixteen-bit one's complement representative of an exact sum: zero only for zero. */
  function Fold(n: nat): (r: nat)
    ensures r <= 65535 && r <= n
  {
    var v := n;
    if v == 0 then 0 else (v - 1) % 65535 + 1
  }

  /** One's complement (bitwise inversion) of a sixteen-bit value. */
  function Invert16(x: nat): nat
    requires x <= 65535
  {
    65535 - x
  }

  /** One lane update of a 17-bit register: add, then `(s + (s >> 16)) & 0xFFFF`. */
  function Accumulate(sum: nat, term: nat): (r: nat)
    ensures r <= 65535
  {
    var a, b := sum, term;
    var s := Low17(a + b);
    Low16(s + s / 0x10000)
  }

  /** The carry-folding loop of RFC 1071, section 4.1, kept as an independent definition of the sum. */
  function FoldCarries(n: nat): nat
    decreases n
  {
    if n / 65536 == 0 then n else FoldCarries(n % 65536 + n / 65536)
  }

  lemma FoldRange(n: nat)
    ensures Fold(n) <= 65535
    ensures n <= 65535 ==> Fold(n) == n
    ensures Fold(n) == 0 <==> n == 0
    ensures Fold(n) == 65535 <==> n > 0 && n % 65535 == 0
  {
  }

  /** Adding a multiple of 65535 to a positive sum does not change its representative. */
  lemma FoldPeriod(n: nat, k: nat)
    requires n > 0
    ensures n + 65535 * k >= 0 && Fold(n + 65535 * k) == Fold(n)
  {
  }

  lemma FoldAdd(a: nat, b: nat)
    ensures Fold(Fold(a) + b) == Fold(a + b)
  {
    if a > 0 {
      var q := (a - 1) / 65535;
      assert a == Fold(a) + 65535 * q;
      FoldPeriod(Fold(a) + b, q);
    }
  }

  /** A 17-bit lane never overflows and performs exactly one end-around-carry addition. */
  lemma AccumulateIsFold(sum: nat, term: nat)
    requires sum <= 65535 && term <= 65535
    ensures sum + term < 0x20000
    ensures Accumulate(sum, term) == Fold(sum + term) <= 65535
  {
  }

  /** The carry-folding loop of the RFC and `Fold` agree on every sum. */
  lemma {:induction false} FoldCarriesIsFold(n: nat)
    ensures FoldCarries(n) == Fold(n)
    decreases n
  {
    if n / 65536 != 0 {
      var m := n % 65536 + n / 65536;
      FoldCarriesIsFold(m);
      assert n == m + 65535 * (n / 65536);
      FoldPeriod(m, n / 65536);
    }
  }

  /** A sixteen-bit word from its octets, most significant first. */
  function Pair(high: Octet, low: Octet): (v: nat)
    ensures v <= 65535
  {
    var h: int, l: int := high, low;
    256 * h + l
  }

  /** Exact sum of the big-endian sixteen-bit words of an octet string; an odd last octet is padded with zero. */
  function WordSum(b: seq<Octet>): nat
    decreases |b|
  {
    if |b| == 0 then 0
    else if |b| == 1 then Pair(b[0], 0)
    else Pair(b[0], b[1]) + WordSum(b[2..])
  }

  /** The same sum with each sixteen-bit word read little-endian. */
  function WordSumLittle(b: seq<Octet>): nat
    decreases |b|
  {
    if |b| == 0 then 0
    else if |b| == 1 then Pair(0, b[0])
    else Pair(b[1], b[0]) + WordSumLittle(b[2..])
  }

  /** The sum of RFC 1071: the one's complement sum of the sixteen-bit words. */
  function Rfc1071Sum(b: seq<Octet>): nat { Fold(WordSum(b)) }

  /** The checksum of RFC 1071: the complement of the sum. */
  function Rfc1071Checksum(b: seq<Octet>): nat {
    FoldRange(WordSum(b));
    Invert16(Rfc1071Sum(b))
  }

  /** An octet string verifies when its one's complement sum is all ones (section 1, step 3, of RFC 1071). */
  predicate Verifies(b: seq<Octet>) { Rfc1071Sum(b) == 65535 }

  lemma {:induction false} WordSumConcat(a: seq<Octet>, b: seq<Octet>)
    requires |a| % 2 == 0
    ensures WordSum(a + b) == WordSum(a) + WordSum(b)
    decreases |a|
  {
    if |a| == 0 {
      assert a + b == b;
    } else {
      assert (a + b)[2..] == a[2..] + b;
      WordSumConcat(a[2..], b);
    }
  }

  /** Folding yields zero only for all-zero data. */
  lemma {:induction false} SumZero(b: seq<Octet>)
    ensures Rfc1071Sum(b) == 0 <==> forall i :: 0 <= i < |b| ==> b[i] == 0
    decreases |b|
  {
    FoldRange(WordSum(b));
    if |b| >= 2 {
      SumZero(b[2..]);
      FoldRange(WordSum(b[2..]));
      assert forall i :: 2 <= i < |b| ==> b[i] == b[2..][i - 2];
    }
  }

  lemma SwapPair(high: Octet, low: Octet)
    ensures 256 * Pair(low, high) - Pair(high, low) == 65535 * (low as int)
    ensures 256 * Pair(high, low) - Pair(low, high) == 65535 * (high as int)
    ensures Pair(high, low) == 0 <==> Pair(low, high) == 0
  {
  }

  lemma AddMultiple(x: int, k: int)
    requires x % 65535 == 0
    ensures (x + 65535 * k) % 65535 == 0
  {
  }

  /** Byte-order independence, section 2(B) of RFC 1071: swapping the octets of every word multiplies by 256. */
  lemma {:induction false} SwapCongruence(b: seq<Octet>)
    ensures WordSum(b) == 0 <==> WordSumLittle(b) == 0
    ensures (256 * WordSumLittle(b) - WordSum(b)) % 65535 == 0
    ensures (256 * WordSum(b) - WordSumLittle(b)) % 65535 == 0
    decreases |b|
  {
    hide Pair;
    if |b| > 0 {
      var r, low: Octet := if |b| == 1 then [] else b[2..], if |b| == 1 then 0 else b[1];
      SwapCongruence(r);
      SwapPair(b[0], low);
      AddMultiple(256 * WordSumLittle(r) - WordSum(r), low);
      AddMultiple(256 * WordSum(r) - WordSumLittle(r), b[0]);
      assert WordSum(b) == Pair(b[0], low) + WordSum(r) && WordSumLittle(b) == Pair(low, b[0]) + WordSumLittle(r);
    }
  }

  /** Whether data verifies does not depend on the order in which the octets of a word are read. */
  lemma ByteOrderIndependence(b: seq<Octet>)
    ensures Verifies(b) <==> Fold(WordSumLittle(b)) == 65535
  {
    SwapCongruence(b);
    FoldRange(WordSum(b));
    FoldRange(WordSumLittle(b));
    DivisibleTransfer(WordSum(b), WordSumLittle(b));
    DivisibleTransfer(WordSumLittle(b), WordSum(b));
  }

  lemma DivisibleTransfer(x: nat, y: nat)
    requires (256 * x - y) % 65535 == 0
    ensures x % 65535 == 0 ==> y % 65535 == 0
  {
    if x % 65535 != 0 { return; }
    var q, r := x / 65535, (256 * x - y) / 65535;
    assert x == 65535 * q && 256 * x - y == 65535 * r;
    assert y == 65535 * (256 * q - r);
  }
}
