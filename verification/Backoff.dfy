/** Delay schedules. Durations are whole nanoseconds in 64 bits; the exponential schedule is
    computed in exact arithmetic and then truncated. */
module Backoff {
  import opened Text

  const TWO_64: int := 0x1_0000_0000_0000_0000

  /** Two's complement wrap-around of a 64-bit result. */
  function Wrap64(n: int): (r: int)
    ensures IsInt64(r)
    ensures IsInt64(n) ==> r == n
    ensures (r - n) % TWO_64 == 0
  {
    var m := n % TWO_64;
    if m <= MAX_INT64 then m else m - TWO_64
  }

  datatype Exponential = Exponential(initial: int, max: int, multiplier: real) {
    /** What the constructor accepts. */
    ghost predicate Valid() {
      0 < initial <= max <= MAX_INT64 && multiplier >= 1.0
    }

    /** The delay before the cap and before truncation. */
    function Uncapped(attempt: int): real {
      Scaled(initial as real, Power(multiplier, if attempt < 0 then 0 else attempt))
    }

    function NextDelay(attempt: int): int {
      Capped(Uncapped(attempt), max)
    }
  }

  function Scaled(s: real, x: real): real {
    s * x
  }

  function Capped(delay: real, max: int): int {
    if delay > max as real then max else delay.Floor
  }

  datatype Linear = Linear(initial: int, increment: int, max: int) {
    ghost predicate Valid() {
      0 < initial <= max <= MAX_INT64 && 0 <= increment <= MAX_INT64
    }

    function NextDelay(attempt: int): int {
      var n := if attempt < 0 then 0 else attempt;
      var delay := Wrap64(initial + Wrap64(increment * n));
      if delay > max then max else delay
    }
  }

  function Power(b: real, n: nat): real {
    if n == 0 then 1.0 else b * Power(b, n - 1)
  }

  function Smaller(a: int, b: int): int {
    if a <= b then a else b
  }

  // ---------------------------------------------------------------- exponential

  lemma {:induction false} PowerGrows(b: real, m: nat, n: nat)
    requires b >= 1.0 && m <= n
    ensures 1.0 <= Power(b, m) <= Power(b, n)
    decreases n
  {
    if n > 0 {
      PowerGrows(b, if m == n then m - 1 else m, n - 1);
      MulAtLeast(b, Power(b, n - 1));
    }
  }

  lemma MulAtLeast(b: real, x: real)
    requires b >= 1.0 && x >= 1.0
    ensures b * x >= x
  {
    assert (b - 1.0) * x >= 0.0;
  }

  lemma ScaleMonotone(s: real, x: real, y: real)
    requires s >= 0.0 && x <= y
    ensures s * x <= s * y
  {
    assert s * (y - x) >= 0.0;
  }

  lemma UncappedGrows(e: Exponential, i: int, j: int)
    requires e.Valid() && i <= j
    ensures e.initial as real <= e.Uncapped(i) <= e.Uncapped(j)
  {
    var m, n := if i < 0 then 0 else i, if j < 0 then 0 else j;
    PowerGrows(e.multiplier, m, n);
    ScaledGrows(e.initial as real, Power(e.multiplier, m), Power(e.multiplier, n));
  }

  lemma ScaledGrows(s: real, x: real, y: real)
    requires s >= 0.0 && 1.0 <= x <= y
    ensures s <= Scaled(s, x) <= Scaled(s, y)
  {
    ScaleMonotone(s, 1.0, x);
    ScaleMonotone(s, x, y);
  }

  /** Delays stay between the initial and the maximal delay, never decrease from one attempt
      to a later one, and stay at the cap once they reach it. */
  lemma ExponentialBounds(e: Exponential, i: int, j: int)
    requires e.Valid() && i <= j
    ensures e.initial <= e.NextDelay(i) <= e.NextDelay(j) <= e.max
    ensures e.NextDelay(i) == e.max ==> e.NextDelay(j) == e.max
  {
    UncappedGrows(e, i, j);
    CappedMonotone(e.initial, e.Uncapped(i), e.Uncapped(j), e.max);
  }

  lemma CappedMonotone(low: int, x: real, y: real, max: int)
    requires low as real <= x <= y && low <= max
    ensures low <= Capped(x, max) <= Capped(y, max) <= max
  {
  }

  /** Each delay is the initial one times the power of the attempt, cut to whole nanoseconds,
      until that exceeds the maximum; negative attempts count as zero. */
  lemma ExponentialExactly(e: Exponential, n: nat)
    requires e.Valid()
    ensures var x := e.initial as real * Power(e.multiplier, n);
            if x > e.max as real then e.NextDelay(n) == e.max
            else e.NextDelay(n) as real <= x < e.NextDelay(n) as real + 1.0
    ensures e.NextDelay(0) == e.initial && e.NextDelay(-1 - n) == e.initial
  {
    assert Power(e.multiplier, 0) == 1.0;
    assert e.Uncapped(0) == Scaled(e.initial as real, 1.0) == e.initial as real;
  }

  /** The waits of attempts `0 .. n-1`, before the cap. */
  function UncappedTotal(e: Exponential, n: nat): real {
    if n == 0 then 0.0 else UncappedTotal(e, n - 1) + e.Uncapped(n - 1)
  }

  /** `total` is the geometric sum that ends before `i * power`, with ratio `b`. */
  predicate GeometricSum(i: real, b: real, total: real, power: real) {
    total * (b - 1.0) == i * (power - 1.0)
  }

  lemma SumOfNone(i: real, b: real)
    ensures GeometricSum(i, b, 0.0, 1.0)
  {
  }

  lemma SumOfOneMore(i: real, b: real, total: real, power: real)
    requires GeometricSum(i, b, total, power)
    ensures GeometricSum(i, b, total + i * power, b * power)
  {
    var x := i * power;
    assert (total + x) * (b - 1.0) == total * (b - 1.0) + x * (b - 1.0);
    assert x * b == i * (b * power);
  }

  /** The uncapped waits of `n` attempts add up to the geometric sum. */
  lemma {:induction false} GeometricTotal(e: Exponential, n: nat)
    ensures GeometricSum(e.initial as real, e.multiplier, UncappedTotal(e, n), Power(e.multiplier, n))
    decreases n
  {
    if n == 0 {
      SumOfNone(e.initial as real, e.multiplier);
    } else {
      GeometricTotal(e, n - 1);
      SumOfOneMore(e.initial as real, e.multiplier, UncappedTotal(e, n - 1), Power(e.multiplier, n - 1));
    }
  }

  /** None of the first `n` delays exceeds the maximum. */
  ghost predicate StaysBelow(e: Exponential, n: nat) {
    forall i: nat | i < n :: e.initial as real * Power(e.multiplier, i) <= e.max as real
  }

  /** What is scheduled for `n` attempts, none of them capped, falls short of the geometric sum
      by at most one nanosecond an attempt. */
  lemma TotalIsGeometric(e: Exponential, delay: int -> int, n: nat) returns (sum: real)
    requires e.Valid() && StaysBelow(e, n) && forall i :: delay(i) == e.NextDelay(i)
    ensures GeometricSum(e.initial as real, e.multiplier, sum, Power(e.multiplier, n))
    ensures sum - n as real <= Total(delay, n) as real <= sum
  {
    sum := UncappedTotal(e, n);
    GeometricTotal(e, n);
    CutByLess(e, delay, n);
  }

  lemma {:induction false} CutByLess(e: Exponential, delay: int -> int, n: nat)
    requires e.Valid() && StaysBelow(e, n) && forall i :: delay(i) == e.NextDelay(i)
    ensures UncappedTotal(e, n) - n as real <= Total(delay, n) as real <= UncappedTotal(e, n)
    decreases n
  {
    if n > 0 {
      CutByLess(e, delay, n - 1);
      NotCapped(e, n - 1);
      assert delay(n - 1) == e.NextDelay(n - 1);
    }
  }

  lemma NotCapped(e: Exponential, n: nat)
    requires e.Valid() && StaysBelow(e, n + 1)
    ensures e.Uncapped(n) - 1.0 <= e.NextDelay(n) as real <= e.Uncapped(n)
  {
    ExponentialExactly(e, n);
  }

  // ---------------------------------------------------------------- linear

  /** The delay is the 64-bit number that differs from the sum by a multiple of their range,
      unless that exceeds the maximum; negative attempts count as zero. */
  lemma LinearWraps(l: Linear, n: nat, d: int)
    requires IsInt64(d) && (d - (l.initial + l.increment * n)) % TWO_64 == 0
    ensures l.NextDelay(n) == if d > l.max then l.max else d
    ensures l.NextDelay(-1 - n) == l.NextDelay(0)
  {
    WrapAdd(l.initial, l.increment * n);
    WrapsTo(l.initial + l.increment * n, d);
  }

  lemma WrapsTo(sum: int, d: int)
    requires IsInt64(d) && (d - sum) % TWO_64 == 0
    ensures Wrap64(sum) == d
  {
    SameResidue(d, sum, d - sum);
  }

  /** Whenever the sum fits in 64 bits the schedule is the capped line. */
  lemma LinearClosedForm(l: Linear, attempt: nat)
    requires l.Valid() && l.initial + l.increment * attempt <= MAX_INT64
    ensures l.NextDelay(attempt) == Smaller(l.initial + l.increment * attempt, l.max)
  {
    assert l.increment * attempt >= 0;
  }

  /** Beyond 64 bits it is so exactly when the sum happens to wrap around to at least the cap. */
  lemma LinearExactly(l: Linear, attempt: nat)
    requires l.Valid()
    ensures var sum := l.initial + l.increment * attempt;
            l.NextDelay(attempt) == Smaller(sum, l.max) <==> sum <= MAX_INT64 || Wrap64(sum) >= l.max
  {
    var product := l.increment * attempt;
    WrapAdd(l.initial, product);
    if l.initial + product <= MAX_INT64 {
      LinearClosedForm(l, attempt);
    }
  }

  lemma WrapAdd(a: int, b: int)
    ensures Wrap64(a + Wrap64(b)) == Wrap64(a + b)
  {
    SameResidue(a + Wrap64(b), a + b, Wrap64(b) - b);
  }

  lemma SameResidue(m: int, n: int, d: int)
    requires m - n == d && d % TWO_64 == 0
    ensures m % TWO_64 == n % TWO_64
  {
    var k := d / TWO_64;
    assert m == n + k * TWO_64;
  }

  lemma LinearBounds(l: Linear, i: nat, j: nat)
    requires l.Valid() && i <= j && l.initial + l.increment * j <= MAX_INT64
    ensures l.initial <= l.NextDelay(i) <= l.NextDelay(j) <= l.max
    ensures l.NextDelay(i) == l.max ==> l.NextDelay(j) == l.max
  {
    IncrementsGrow(l.increment, i, j);
    LinearClosedForm(l, i);
    LinearClosedForm(l, j);
  }

  lemma IncrementsGrow(increment: nat, i: nat, j: nat)
    requires i <= j
    ensures 0 <= increment * i <= increment * j
  {
    assert increment * j == increment * i + increment * (j - i);
  }

  /** Without that proviso the delay can come out negative. */
  lemma LinearOverflows()
    ensures exists l: Linear, attempt: nat :: l.Valid() && l.NextDelay(attempt) < 0
  {
    var l := Linear(1, MAX_INT64, MAX_INT64);
    assert l.Valid() && l.NextDelay(1) < 0;
  }

  // ---------------------------------------------------------------- whole schedules

  /** The waits scheduled before a message has used up its retries. */
  function Total(delay: int -> int, retries: nat): int {
    if retries == 0 then 0 else Total(delay, retries - 1) + delay(retries - 1)
  }

  lemma {:induction false} TotalAtMost(delay: int -> int, retries: nat, max: int)
    requires forall i | 0 <= i < retries :: delay(i) <= max
    ensures Total(delay, retries) <= retries * max
    decreases retries
  {
    if retries > 0 {
      TotalAtMost(delay, retries - 1, max);
      assert retries * max == (retries - 1) * max + max;
    }
  }

  /** Waiting out every retry takes at most `retries` times the maximal delay, whichever
      schedule is used and even where the linear one overflows. */
  lemma TotalWait(e: Exponential, l: Linear, retries: nat)
    requires e.Valid()
    ensures Total(i => e.NextDelay(i), retries) <= retries * e.max
    ensures Total(i => l.NextDelay(i), retries) <= retries * l.max
  {
    forall i | 0 <= i < retries ensures e.NextDelay(i) <= e.max {
      ExponentialBounds(e, i, i);
    }
    TotalAtMost(i => e.NextDelay(i), retries, e.max);
    TotalAtMost(i => l.NextDelay(i), retries, l.max);
  }
}
