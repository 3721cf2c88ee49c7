/**
 * `uint32ToAscii`: the serial binary to BCD converter and the ten-character decimal form it yields.
 */
module Decimal {
  import opened OnesComplement
  import opened Bits

  /** The value of decimal digits, least significant first. */
  function DigitValue(d: seq<nat>): nat {
    if d == [] then 0 else d[0] + 10 * DigitValue(d[1..])
  }

  predicate IsDecimal(d: seq<nat>) { forall j :: 0 <= j < |d| ==> d[j] <= 9 }

  /** The last n decimal digits of x, least significant first. */
  function Digits(x: nat, n: nat): (d: seq<nat>)
    ensures |d| == n && IsDecimal(d)
  {
    if n == 0 then [] else [x % 10] + Digits(x / 10, n - 1)
  }

  /** Decimal digits are determined by their value. */
  lemma {:induction false} DigitsUnique(d: seq<nat>)
    requires IsDecimal(d)
    ensures d == Digits(DigitValue(d), |d|)
    decreases |d|
  {
    if d != [] {
      DigitsUnique(d[1..]);
      assert DigitValue(d) % 10 == d[0] && DigitValue(d) / 10 == DigitValue(d[1..]);
    }
  }

  /** The ten octets of the result, last character first: '0' plus the digit. */
  function Ascii(x: nat): (a: seq<Octet>)
    ensures |a| == 10
  {
    seq(10, i requires 0 <= i < 10 => AsciiOf(Digits(x, 10)[i]))
  }

  function AsciiOf(digit: nat): Octet
    requires digit <= 9
  {
    0x30 + digit
  }

  /** Reading a decimal text, last character first. */
  function ParseAscii(a: seq<Octet>): int {
    if a == [] then 0 else a[0] - 0x30 + 10 * ParseAscii(a[1..])
  }

  function Pow10(n: nat): nat { if n == 0 then 1 else 10 * Pow10(n - 1) }

  lemma {:induction false} ParseDigits(x: nat, n: nat, a: seq<Octet>)
    requires x < Pow10(n) && |a| == n && forall i :: 0 <= i < n ==> a[i] == AsciiOf(Digits(x, n)[i])
    ensures ParseAscii(a) == x
    decreases n
  {
    if n > 0 {
      assert Digits(x, n)[1..] == Digits(x / 10, n - 1);
      ParseDigits(x / 10, n - 1, a[1..]);
    }
  }

  /** Every 32-bit value comes back when its ten characters are read. */
  lemma ParseRoundTrip(x: nat)
    requires x < 0x1_0000_0000
    ensures ParseAscii(Ascii(x)) == x
    ensures forall i :: 0 <= i < 10 ==> 0x30 <= Ascii(x)[i] <= 0x39
  {
    assert Pow10(10) == 10_000_000_000 by {
      assert Pow10(5) == 100_000;
      assert Pow10(10) == 10 * (10 * (10 * (10 * (10 * Pow10(5)))));
    }
    ParseDigits(x, 10, Ascii(x));
  }

  // ---------------------------------------------------------------- one digit stage

  /** bcdDigitiser: the digit, its successor state and the carry for the next bit. */
  function NextOf(digit: nat): nat { if 5 <= digit <= 9 then digit - 5 else digit }

  function CarryOf(digit: nat): nat { if 5 <= digit <= 9 then 1 else 0 }

  /** All digits one bit later: each doubles its remainder and takes the carry of its neighbour. */
  function Shift(d: seq<nat>, carryIn: nat): (r: seq<nat>)
    ensures |r| == |d|
  {
    if d == [] then [] else [2 * NextOf(d[0]) + carryIn] + Shift(d[1..], CarryOf(d[0]))
  }

  /** The carry that leaves the most significant digit. */
  function CarryOut(d: seq<nat>, carryIn: nat): nat {
    if d == [] then carryIn else CarryOut(d[1..], CarryOf(d[0]))
  }

  /** Shifting doubles the value and adds the incoming bit, except for a carry out of the last digit. */
  lemma {:induction false} ShiftDoubles(d: seq<nat>, carryIn: nat)
    requires IsDecimal(d) && carryIn <= 1
    ensures IsDecimal(Shift(d, carryIn))
    ensures DigitValue(Shift(d, carryIn)) + Pow10(|d|) * CarryOut(d, carryIn) == 2 * DigitValue(d) + carryIn
    decreases |d|
  {
    if d != [] {
      var c := CarryOf(d[0]);
      ShiftDoubles(d[1..], c);
      assert 2 * NextOf(d[0]) + 10 * c == 2 * d[0];
      Associates(Pow10(|d| - 1), CarryOut(d[1..], c));
    }
  }

  lemma Associates(p: nat, o: nat)
    ensures 10 * p * o == 10 * (p * o)
  {
  }

  /** A digit string whose value is small has a small last digit, so nothing is carried out. */
  lemma {:induction false} NoCarryOut(d: seq<nat>, carryIn: nat)
    requires IsDecimal(d) && |d| > 0 && DigitValue(d) < 5 * Pow10(|d| - 1)
    ensures CarryOut(d, carryIn) == 0
    decreases |d|
  {
    if |d| > 1 {
      NoCarryOut(d[1..], CarryOf(d[0]));
    } else {
      assert DigitValue(d) == d[0] + 10 * DigitValue(d[1..]);
    }
  }

  /** Digit by digit, as the two inner loops compute it. */
  lemma {:induction false} ShiftAt(d: seq<nat>, carryIn: nat, j: nat)
    requires j < |d|
    ensures Shift(d, carryIn)[j] == 2 * NextOf(d[j]) + if j == 0 then carryIn else CarryOf(d[j - 1])
    decreases |d|
  {
    if j > 0 {
      ShiftAt(d[1..], CarryOf(d[0]), j - 1);
    }
  }

  // ---------------------------------------------------------------- the converter

  type Word32 = x: Bits | |x| == 32 witness Zeros(32)

  /** The value of the first i bits, most significant bit first. */
  function TopBits(x: Word32, i: nat): nat
    requires i <= 32
  {
    ToNat(x[32 - i..])
  }

  /** One more bit of the input doubles the value and adds the bit. */
  lemma TopBitsStep(x: Word32, i: nat)
    requires i < 32
    ensures TopBits(x, i + 1) == 2 * TopBits(x, i) + if x[31 - i] then 1 else 0
  {
    assert x[31 - i..][1..] == x[32 - i..];
  }

  /** Before the last bit the value is below 2^31, far below 5 * 10^9: the top digit never carries out. */
  lemma TopBitsSmall(x: Word32, i: nat)
    requires i < 32
    ensures TopBits(x, i) < 5 * Pow10(9)
  {
    Pow2Monotone(i, 31);
    assert Pow2(7) == 128 && Pow2(11) == 16 * Pow2(7) && Pow2(15) == 16 * Pow2(11) && Pow2(19) == 16 * Pow2(15);
    assert Pow2(23) == 16 * Pow2(19) && Pow2(27) == 16 * Pow2(23) && Pow2(31) == 16 * Pow2(27);
    assert Pow10(9) == 1_000_000_000 by { assert Pow10(9) == 10000 * Pow10(5); }
  }

  /** bcdDigitiser: takes the carry in and the stored remainder, yields digit, remainder and carry out. */
  method BcdDigitiser(carryIn: nat, bcdNext: nat) returns (bcdDigit: nat, next: nat, carryOut: nat)
    requires carryIn <= 1 && bcdNext <= 4
    ensures bcdDigit == 2 * bcdNext + carryIn <= 9
    ensures bcdDigit == 5 * carryOut + next && carryOut <= 1 && next <= 4
    ensures next == NextOf(bcdDigit) && carryOut == CarryOf(bcdDigit)
  {
    bcdDigit := 2 * bcdNext + carryIn;
    match bcdDigit {
      case 5 => next, carryOut := 0, 1;
      case 6 => next, carryOut := 1, 1;
      case 7 => next, carryOut := 2, 1;
      case 8 => next, carryOut := 3, 1;
      case 9 => next, carryOut := 4, 1;
      case _ => next, carryOut := bcdDigit, 0;
    }
  }

  /** The registers of the converter hold the state that follows from its digits. */
  ghost predicate Consistent(digit: array<nat>, next: array<nat>, carryOut: array<nat>)
    requires digit.Length == next.Length == carryOut.Length == 10
    reads digit, next, carryOut
  {
    forall j :: 0 <= j < 10 ==> digit[j] <= 9 && next[j] == NextOf(digit[j]) && carryOut[j] == CarryOf(digit[j])
  }

  /** One pass of the outer loop: every digit stage takes the next bit or its neighbour's carry. */
  method ConvertBit(bit: nat, digit: array<nat>, next: array<nat>, carryOut: array<nat>)
    requires digit.Length == next.Length == carryOut.Length == 10 && bit <= 1
    requires digit != next && digit != carryOut && next != carryOut
    requires Consistent(digit, next, carryOut)
    modifies digit, next, carryOut
    ensures Consistent(digit, next, carryOut) && digit[..] == Shift(old(digit[..]), bit)
  {
    hide NextOf, CarryOf, Shift;
    ghost var d := digit[..];
    ghost var s := Shift(d, bit);
    StageBounds(d);
    var carryIn := LoadCarries(bit, carryOut);
    for j := 0 to 10
      invariant forall k :: j <= k < 10 ==> next[k] == NextOf(d[k])
      invariant forall k :: 0 <= k < j ==>
                  digit[k] == s[k] <= 9 && next[k] == NextOf(s[k]) && carryOut[k] == CarryOf(s[k])
      modifies digit, next, carryOut
    {
      ShiftAt(d, bit, j);
      digit[j], next[j], carryOut[j] := BcdDigitiser(carryIn[j], next[j]);
    }
    assert forall k :: 0 <= k < 10 ==> digit[..][k] == s[k];
  }

  lemma StageBounds(d: seq<nat>)
    requires IsDecimal(d)
    ensures forall k :: 0 <= k < |d| ==> NextOf(d[k]) <= 4 && CarryOf(d[k]) <= 1
  {
  }

  /** The carry loop: each stage takes the carry its neighbour produced for the previous bit. */
  method LoadCarries(bit: nat, carryOut: array<nat>) returns (carryIn: array<nat>)
    requires carryOut.Length == 10 && bit <= 1
    ensures fresh(carryIn) && carryIn.Length == 10 && carryIn[0] == bit
    ensures forall k :: 1 <= k < 10 ==> carryIn[k] == carryOut[k - 1]
  {
    carryIn := new nat[10](_ => 0);
    carryIn[0] := bit;
    for j := 1 to 10
      invariant carryIn[0] == bit && forall k :: 1 <= k < j ==> carryIn[k] == carryOut[k - 1]
    {
      carryIn[j] := carryOut[j - 1];
    }
  }

  /** uint32ToAscii: the ten-character, zero-padded decimal form of any 32-bit value. */
  method Uint32ToAscii(inputData: Word32) returns (outputAscii: seq<Octet>)
    ensures outputAscii == Ascii(ToNat(inputData))
  {
    var digit, next, carryOut := new nat[10](_ => 0), new nat[10](_ => 0), new nat[10](_ => 0);
    ZeroDigits(digit[..]);
    for i := 0 to 32
      invariant Consistent(digit, next, carryOut)
      invariant DigitValue(digit[..]) == TopBits(inputData, i)
    {
      var bit := if inputData[31 - i] then 1 else 0;
      ghost var d := digit[..];
      ConvertBit(bit, digit, next, carryOut);
      BitConverted(inputData, i, d);
    }
    assert inputData[0..] == inputData;
    DigitsUnique(digit[..]);
    outputAscii := seq(10, _ => 0x30);
    for i := 0 to 10
      invariant |outputAscii| == 10
      invariant forall k :: 0 <= k < 10 ==> outputAscii[k] == if k < i then AsciiOf(digit[k]) else 0x30
    {
      outputAscii := outputAscii[i := AsciiOf(digit[i])];
    }
  }

  lemma {:induction false} ZeroDigits(d: seq<nat>)
    requires forall j :: 0 <= j < |d| ==> d[j] == 0
    ensures DigitValue(d) == 0
    decreases |d|
  {
    if d != [] {
      ZeroDigits(d[1..]);
    }
  }

  /** The loop invariant: after each bit the digits in base 10 are the bits read so far. */
  lemma BitConverted(x: Word32, i: nat, d: seq<nat>)
    requires i < 32 && |d| == 10 && IsDecimal(d) && DigitValue(d) == TopBits(x, i)
    ensures DigitValue(Shift(d, if x[31 - i] then 1 else 0)) == TopBits(x, i + 1)
  {
    var bit := if x[31 - i] then 1 else 0;
    TopBitsStep(x, i);
    TopBitsSmall(x, i);
    ShiftDoubles(d, bit);
    NoCarryOut(d, bit);
  }
}
