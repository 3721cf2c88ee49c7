/**
 * `TimeSeriesBuffer`: a ring of the last eight samples against the unbounded history of all samples, and the
 * moving statistics taken over it.
 */
module TimeSeries {
  const MAX_WINDOW: nat := 8
  const WRAP: nat := 0x1_0000_0000
  const TIME_WRAP: nat := 0x100_0000_0000_0000

  type Value = x: nat | x < WRAP
  type Time = x: nat | x < TIME_WRAP
  type Byte = x: nat | x < 256

  datatype Sample = Sample(value: Value, timestamp: Time)

  // ---------------------------------------------------------------- statistics

  /** How many samples a window covers. */
  function Actual(count: nat, window: nat): (n: nat)
    ensures n <= count && n <= window
  {
    if window > count then count else window
  }

  function Held(h: seq<Sample>): nat { if |h| < MAX_WINDOW then |h| else MAX_WINDOW }

  /** The values of the last samples of a history, newest first: as many as the window and the ring hold. */
  function Recent(h: seq<Sample>, window: nat): (vs: seq<Value>)
    ensures |vs| == Actual(Held(h), window)
    ensures forall i :: 0 <= i < |vs| ==> vs[i] == h[|h| - 1 - i].value
  {
    seq(Actual(Held(h), window), i requires 0 <= i < |h| => h[|h| - 1 - i].value)
  }

  /** The window: the last min(8, n, window) values, newest first. */
  lemma RecentIsWindow(h: seq<Sample>, window: nat)
    ensures |Recent(h, window)| <= 8 && |Recent(h, window)| <= |h| && |Recent(h, window)| <= window
    ensures |Recent(h, window)| == 8 || |Recent(h, window)| == |h| || |Recent(h, window)| == window
    ensures forall i :: 0 <= i < |Recent(h, window)| ==> Recent(h, window)[i] == h[|h| - 1 - i].value
  {
  }

  function SumOf(vs: seq<Value>): nat {
    if vs == [] then 0 else SumOf(vs[..|vs| - 1]) + vs[|vs| - 1]
  }

  function AverageOf(vs: seq<Value>): nat { if vs == [] then 0 else SumOf(vs) / |vs| }

  function MaxOf(vs: seq<Value>): Value {
    if vs == [] then 0
    else
      var m := MaxOf(vs[..|vs| - 1]);
      if vs[|vs| - 1] > m then vs[|vs| - 1] else m
  }

  function MinOf(vs: seq<Value>): Value {
    if vs == [] then WRAP - 1
    else
      var m := MinOf(vs[..|vs| - 1]);
      if vs[|vs| - 1] < m then vs[|vs| - 1] else m
  }

  /** One step of the exponentially weighted average: weights out of 255, divided by 256. */
  function Weigh(alpha: Byte, v: nat, ema: nat): nat {
    MulMonotone(alpha, 0, v);
    MulMonotone(255 - alpha, 0, ema);
    (alpha * v + (255 - alpha) * ema) / 256
  }

  function EmaOf(alpha: Byte, vs: seq<Value>): nat
    requires vs != []
    decreases |vs|
  {
    if |vs| == 1 then vs[0] else Weigh(alpha, vs[|vs| - 1], EmaOf(alpha, vs[..|vs| - 1]))
  }

  lemma WeighBound(alpha: Byte, v: nat, ema: nat, m: nat)
    requires v <= m && ema <= m
    ensures Weigh(alpha, v, ema) <= m && (m > 0 ==> Weigh(alpha, v, ema) < m)
  {
    MulMonotone(alpha, v, m);
    MulMonotone(255 - alpha, ema, m);
    Complement(alpha, m);
  }

  lemma MulMonotone(a: nat, x: nat, y: nat)
    requires x <= y
    ensures a * x <= a * y
  {
    assert a * y == a * x + a * (y - x);
  }

  lemma Complement(alpha: Byte, m: nat)
    ensures alpha * m + (255 - alpha) * m == 255 * m
  {
  }

  /** The maximum and the minimum are values of the window, and bound all of them. */
  lemma {:induction false} Extremes(vs: seq<Value>)
    requires vs != []
    ensures MaxOf(vs) in vs && MinOf(vs) in vs
    ensures forall v :: v in vs ==> MinOf(vs) <= v <= MaxOf(vs)
    decreases |vs|
  {
    var front, last := vs[..|vs| - 1], vs[|vs| - 1];
    assert vs == front + [last];
    if front != [] {
      Extremes(front);
    }
  }

  lemma {:induction false} SumBounds(vs: seq<Value>, low: nat, high: nat)
    requires forall v :: v in vs ==> low <= v <= high
    ensures low * |vs| <= SumOf(vs) <= high * |vs|
    decreases |vs|
  {
    if vs != [] {
      var n := |vs| - 1;
      assert vs[n] in vs && forall v :: v in vs[..n] ==> v in vs;
      SumBounds(vs[..n], low, high);
      Distribute(low, n);
      Distribute(high, n);
    }
  }

  lemma Distribute(a: nat, n: nat)
    ensures a * (n + 1) == a * n + a
  {
  }

  lemma QuotientBetween(sum: nat, n: nat, low: nat, high: nat)
    requires n > 0 && low * n <= sum <= high * n
    ensures low <= sum / n <= high
  {
    var q, r := sum / n, sum % n;
    assert sum == n * q + r;
    CancelFactor(n, low, q, r);
    CancelFactor(n, q, high, 0);
  }

  lemma CancelFactor(n: nat, x: nat, y: nat, r: nat)
    requires r < n && n * x <= n * y + r
    ensures x <= y
  {
    assert n * (x - y) <= r;
    assert x - y >= 1 ==> n * (x - y) >= n;
  }

  /** Minimum, average and maximum are ordered exactly when there is a sample in the window. */
  lemma AverageBetween(h: seq<Sample>, window: nat)
    ensures var vs := Recent(h, window);
            MinOf(vs) <= AverageOf(vs) <= MaxOf(vs) <==> window >= 1 && |h| >= 1
  {
    var vs := Recent(h, window);
    if vs != [] {
      Extremes(vs);
      SumBounds(vs, MinOf(vs), MaxOf(vs));
      QuotientBetween(SumOf(vs), |vs|, MinOf(vs), MaxOf(vs));
    }
  }

  /** The weighted average never exceeds the maximum, and falls short of it from the second sample on. */
  lemma {:induction false} EmaBelowMax(alpha: Byte, vs: seq<Value>)
    requires vs != []
    ensures EmaOf(alpha, vs) <= MaxOf(vs)
    ensures |vs| >= 2 && MaxOf(vs) > 0 ==> EmaOf(alpha, vs) < MaxOf(vs)
    decreases |vs|
  {
    if |vs| > 1 {
      var front, last := vs[..|vs| - 1], vs[|vs| - 1];
      EmaBelowMax(alpha, front);
      WeighBound(alpha, last, EmaOf(alpha, front), MaxOf(vs));
    }
  }

  /** A constant series averages to its value exactly when it has one sample or is zero: later weights fall short. */
  lemma {:induction false} EmaOfConstant(alpha: Byte, v: Value, n: nat)
    requires n >= 1
    ensures EmaOf(alpha, seq(n, _ => v)) == v <==> n == 1 || v == 0
  {
    var vs: seq<Value> := seq(n, _ => v);
    Extremes(vs);
    EmaBelowMax(alpha, vs);
  }

  /** The sum is that of all the values, one by one. */
  lemma {:induction false} SumAppends(a: seq<Value>, b: seq<Value>, v: Value)
    ensures SumOf([]) == 0 && SumOf([v]) == v && SumOf(a + b) == SumOf(a) + SumOf(b)
    decreases |b|
  {
    assert [v][..0] == [];
    if b == [] {
      assert a + b == a;
    } else {
      var n := |b| - 1;
      SumAppends(a, b[..n], v);
      assert (a + b)[..|a| + n] == a + b[..n];
    }
  }

  /** The average is the sum divided by the number of values and rounded down. */
  lemma AverageIsQuotient(vs: seq<Value>)
    requires vs != []
    ensures AverageOf(vs) * |vs| <= SumOf(vs) < (AverageOf(vs) + 1) * |vs|
  {
    var q, n := SumOf(vs) / |vs|, |vs|;
    assert SumOf(vs) == q * n + SumOf(vs) % n;
    Distribute(n, q);
  }

  /** What the queries answer for a window of no samples. */
  lemma StatisticsOfNothing()
    ensures SumOf([]) == AverageOf([]) == MaxOf([]) == 0 && MinOf([]) == 0xFFFF_FFFF
  {
  }

  /** One sample is its own average; an older one comes in with weight alpha against 255 - alpha, over 256. */
  lemma EmaRecurrence(alpha: Byte, vs: seq<Value>, x: Value, y: Value)
    ensures EmaOf(alpha, [x]) == x && EmaOf(alpha, [x, y]) == (alpha * y + (255 - alpha) * x) / 256
    ensures vs != [] ==> EmaOf(alpha, vs + [y]) == (alpha * y + (255 - alpha) * EmaOf(alpha, vs)) / 256
  {
    assert [x, y][..1] == [x];
    assert (vs + [y])[..|vs|] == vs;
  }

  lemma SumBelow64Bits(vs: seq<Value>)
    requires |vs| <= MAX_WINDOW
    ensures SumOf(vs) < 0x1_0000_0000_0000_0000
  {
    SumBounds(vs, 0, WRAP - 1);
  }

  lemma QuotientSmaller(a: nat, b: nat)
    requires b > 0
    ensures a / b <= a
  {
    var q := a / b;
    assert a == q * b + a % b;
    MulMonotone(q, 1, b);
  }

  lemma AverageFits(h: seq<Sample>, window: nat)
    ensures AverageOf(Recent(h, window)) < WRAP
  {
    var vs := Recent(h, window);
    if vs != [] {
      SumBounds(vs, 0, WRAP - 1);
      QuotientBetween(SumOf(vs), |vs|, 0, WRAP - 1);
    }
  }

  lemma SumStep(vs: seq<Value>, i: nat)
    requires i < |vs| <= MAX_WINDOW
    ensures SumOf(vs[..i + 1]) == SumOf(vs[..i]) + vs[i] < 0x1_0000_0000_0000_0000
  {
    assert vs[..i + 1][..i] == vs[..i];
    SumBelow64Bits(vs[..i + 1]);
  }

  lemma ExtremesStep(vs: seq<Value>, i: nat)
    requires i < |vs|
    ensures MaxOf(vs[..i + 1]) == if vs[i] > MaxOf(vs[..i]) then vs[i] else MaxOf(vs[..i])
    ensures MinOf(vs[..i + 1]) == if vs[i] < MinOf(vs[..i]) then vs[i] else MinOf(vs[..i])
  {
    assert vs[..i + 1][..i] == vs[..i];
  }

  lemma EmaStep(alpha: Byte, vs: seq<Value>, i: nat)
    requires 0 < i < |vs|
    ensures EmaOf(alpha, vs[..i + 1]) == Weigh(alpha, vs[i], EmaOf(alpha, vs[..i])) < WRAP
  {
    assert vs[..i + 1][..i] == vs[..i];
    EmaBelowMax(alpha, vs[..i + 1]);
  }

  // ---------------------------------------------------------------- the ring

  /** Where the sample inserted j samples ago sits. */
  function Slot(index: nat, j: nat): (k: nat)
    requires index < MAX_WINDOW && j < MAX_WINDOW
    ensures k < MAX_WINDOW
    ensures k == if j < index then index - 1 - j else index + MAX_WINDOW - 1 - j
  {
    (index + MAX_WINDOW - 1 - j) % MAX_WINDOW
  }

  class TimeSeriesBuffer {
    const buffer: array<Sample>
    var index: nat
    var count: nat
    /** All samples ever inserted, oldest first. */
    ghost var history: seq<Sample>

    /** The ring holds the last min(8, n) samples of the history. */
    ghost predicate Valid()
      reads this, buffer
    {
      && buffer.Length == MAX_WINDOW && index < MAX_WINDOW
      && count == Held(history)
      && forall j :: 0 <= j < count ==> buffer[Slot(index, j)] == history[|history| - 1 - j]
    }

    constructor ()
      ensures Valid() && fresh(buffer) && history == []
    {
      buffer := new Sample[MAX_WINDOW](_ => Sample(0, 0));
      index, count, history := 0, 0, [];
    }

    method Insert(val: Value, ts: Time)
      requires Valid()
      modifies this, buffer
      ensures Valid() && history == old(history) + [Sample(val, ts)]
    {
      ghost var before := index;
      buffer[index] := Sample(val, ts);
      index := (index + 1) % MAX_WINDOW;
      if count < MAX_WINDOW {
        count := count + 1;
      }
      history := history + [Sample(val, ts)];
      assert forall j :: 1 <= j < MAX_WINDOW ==> Slot(index, j) == Slot(before, j - 1);
    }

    method GetLatest() returns (value: Value)
      requires Valid()
      ensures value == if history == [] then 0 else history[|history| - 1].value
    {
      if count == 0 {
        return 0;
      }
      var lastIdx := MAX_WINDOW - 1;
      if index != 0 {
        lastIdx := index - 1;
      }
      assert lastIdx == Slot(index, 0);
      value := buffer[lastIdx].value;
    }

    /** The loop that the average and the sum share: 64 bits never overflow. */
    method WindowSum(window: Byte) returns (sum: nat, actual: nat)
      requires Valid()
      ensures actual == |Recent(history, window)| && sum == SumOf(Recent(history, window))
    {
      hide SumOf;
      sum := 0;
      actual := if window > count then count else window;
      ghost var vs := Recent(history, window);
      assert SumOf(vs[..0]) == 0 by { EmptySum(vs[..0]); }
      for i := 0 to MAX_WINDOW
        invariant sum == SumOf(vs[..Actual(i, actual)])
      {
        if i < actual {
          var idx := (index + MAX_WINDOW - 1 - i) % MAX_WINDOW;
          assert idx == Slot(index, i);
          SumStep(vs, i);
          sum := (sum + buffer[idx].value) % 0x1_0000_0000_0000_0000;
        }
      }
      assert vs[..actual] == vs;
    }

    method MovingAvg(window: Byte) returns (result: Value)
      requires Valid()
      ensures result == AverageOf(Recent(history, window))
    {
      hide SumOf, Recent;
      var sum, actual := WindowSum(window);
      AverageFits(history, window);
      result := 0;
      if actual > 0 {
        result := sum / actual % WRAP;
      }
    }

    method MovingSum(window: Byte) returns (result: Value)
      requires Valid()
      ensures result == SumOf(Recent(history, window)) % WRAP
    {
      var sum, actual := WindowSum(window);
      result := sum % WRAP;
    }

    method MovingMax(window: Byte) returns (maxVal: Value)
      requires Valid()
      ensures maxVal == MaxOf(Recent(history, window))
    {
      maxVal := 0;
      var actual := if window > count then count else window;
      ghost var vs := Recent(history, window);
      for i := 0 to MAX_WINDOW
        invariant maxVal == MaxOf(vs[..Actual(i, actual)])
      {
        if i < actual {
          var idx := (index + MAX_WINDOW - 1 - i) % MAX_WINDOW;
          assert idx == Slot(index, i);
          ExtremesStep(vs, i);
          if buffer[idx].value > maxVal {
            maxVal := buffer[idx].value;
          }
        }
      }
      assert vs[..actual] == vs;
    }

    method MovingMin(window: Byte) returns (minVal: Value)
      requires Valid()
      ensures minVal == MinOf(Recent(history, window))
    {
      minVal := WRAP - 1;
      var actual := if window > count then count else window;
      ghost var vs := Recent(history, window);
      for i := 0 to MAX_WINDOW
        invariant minVal == MinOf(vs[..Actual(i, actual)])
      {
        if i < actual {
          var idx := (index + MAX_WINDOW - 1 - i) % MAX_WINDOW;
          assert idx == Slot(index, i);
          ExtremesStep(vs, i);
          if buffer[idx].value < minVal {
            minVal := buffer[idx].value;
          }
        }
      }
      assert vs[..actual] == vs;
    }

    /** A window of none is treated as a window of one. */
    method ExpAvg(alpha: Byte, window: Byte) returns (ema: Value)
      requires Valid()
      ensures ema == if history == [] then 0 else EmaOf(alpha, Recent(history, if window == 0 then 1 else window))
    {
      hide EmaOf, Weigh;
      if count == 0 {
        return 0;
      }
      var actual := if window > count then count else window;
      ghost var vs := Recent(history, if window == 0 then 1 else window);
      assert (index + MAX_WINDOW - 1) % MAX_WINDOW == Slot(index, 0);
      ema := buffer[(index + MAX_WINDOW - 1) % MAX_WINDOW].value;
      EmaOfOne(alpha, vs[..1]);
      for i := 1 to MAX_WINDOW
        invariant ema == EmaOf(alpha, vs[..Actual(i, |vs|)])
      {
        if i < actual {
          var idx := (index + MAX_WINDOW - 1 - i) % MAX_WINDOW;
          assert idx == Slot(index, i);
          EmaStep(alpha, vs, i);
          ema := Weigh(alpha, buffer[idx].value, ema) % WRAP;
        }
      }
      assert vs[..|vs|] == vs;
    }

    /** Differences are taken modulo the widths of the fields. */
    method Derivative() returns (result: Value)
      requires Valid()
      ensures result == RateOf(history)
    {
      if count < 2 {
        return 0;
      }
      var idx1 := (index + MAX_WINDOW - 1) % MAX_WINDOW;
      var idx0 := (index + MAX_WINDOW - 2) % MAX_WINDOW;
      assert idx1 == Slot(index, 0) && idx0 == Slot(index, 1);
      var dv := (buffer[idx1].value - buffer[idx0].value) % WRAP;
      var dt := (buffer[idx1].timestamp - buffer[idx0].timestamp) % TIME_WRAP;
      result := 0;
      if dt != 0 {
        QuotientSmaller(dv, dt);
        result := dv / dt;
      }
    }
  }

  lemma EmptySum(vs: seq<Value>)
    requires vs == []
    ensures SumOf(vs) == 0
  {
  }

  lemma EmaOfOne(alpha: Byte, vs: seq<Value>)
    requires |vs| == 1
    ensures EmaOf(alpha, vs) == vs[0]
  {
  }

  function RateOf(h: seq<Sample>): nat {
    if |h| < 2 then 0
    else
      var s0, s1 := h[|h| - 2], h[|h| - 1];
      var dv, dt := (s1.value - s0.value) % WRAP, (s1.timestamp - s0.timestamp) % TIME_WRAP;
      if dt == 0 then 0 else dv / dt
  }

  /**
   * The rate in full: a value that fell counts as one that rose through the end of its 32 bits, a time that went back
   * as one that went on through the end of its 56 bits, and no time passed as no change.
   */
  lemma RateOfLast(h: seq<Sample>, s0: Sample, s1: Sample)
    ensures RateOf([]) == RateOf([s0]) == 0
    ensures var dv := if s0.value <= s1.value then s1.value - s0.value else s1.value - s0.value + 0x1_0000_0000;
            var dt := if s0.timestamp <= s1.timestamp then s1.timestamp - s0.timestamp
                      else s1.timestamp - s0.timestamp + 0x100_0000_0000_0000;
            RateOf(h + [s0, s1]) == if dt == 0 then 0 else dv / dt
  {
    var dv, dt := s1.value - s0.value, s1.timestamp - s0.timestamp;
    assert dv % WRAP == if dv >= 0 then dv else dv + WRAP;
    assert dt % TIME_WRAP == if dt >= 0 then dt else dt + TIME_WRAP;
  }

  /** With time moving forward the rate is the true one exactly when the value did not fall. */
  lemma RateExact(h: seq<Sample>)
    requires |h| >= 2 && h[|h| - 2].timestamp < h[|h| - 1].timestamp
    ensures var s0, s1 := h[|h| - 2], h[|h| - 1];
            RateOf(h) == (s1.value - s0.value) / (s1.timestamp - s0.timestamp) <==> s0.value <= s1.value
  {
    var s0, s1 := h[|h| - 2], h[|h| - 1];
    var dv, dt := s1.value - s0.value, s1.timestamp - s0.timestamp;
    assert dt % TIME_WRAP == dt;
    if dv >= 0 {
      assert dv % WRAP == dv;
    } else {
      NegativeQuotient(dv, dt);
    }
  }

  lemma NegativeQuotient(a: int, b: nat)
    requires a < 0 && b > 0
    ensures a / b < 0
  {
    assert a == (a / b) * b + a % b;
  }
}
