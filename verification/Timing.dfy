/**
 Per-subject adaptive timing (agent/pkg/timing/timing.go): a 32-slot ring of round-trip
 samples, a lazily refreshed mean and deviation, and the budget and score computed from them.
 All arithmetic of the source is on int64 and wraps; `Int64` says where.
 */
module Int64Arithmetic {

  const HALF := 0x8000_0000_0000_0000

  type int64 = x: int | -HALF <= x < HALF

  /** Two's complement wrap-around. */
  function Int64(x: int): (r: int64)
    ensures -HALF <= x < HALF ==> r == x
  {
    (x + HALF) % (2 * HALF) - HALF
  }

  /** Floor division of naturals; a name of its own keeps the solver's division away. */
  function Div(t: nat, n: nat): nat
    requires 0 < n
  {
    t / n
  }

  /** Division that truncates toward zero. */
  function Quot(a: int, b: int): (q: int)
    requires b != 0
    ensures a >= 0 && b > 0 ==> q == Div(a, b)
  {
    if a >= 0 then (if b > 0 then a / b else -(a / -b))
    else (if b > 0 then -(-a / b) else -a / -b)
  }

  lemma WrapAdd(a: int, b: int)
    ensures Int64(Int64(a) + b) == Int64(a + b)
  {
  }

  function SqrtFrom(n: int, x: nat): (r: nat)
    requires x * x <= n
    ensures r * r <= n < (r + 1) * (r + 1)
    decreases n - x
  {
    if (x + 1) * (x + 1) <= n then SqrtFrom(n, x + 1) else x
  }

  /** The floor of the square root, and 0 for negative arguments. */
  function Sqrt(n: int): (r: nat)
    ensures n >= 0 ==> r * r <= n < (r + 1) * (r + 1)
  {
    if n <= 0 then 0 else SqrtFrom(n, 0)
  }

  lemma MulMonotone(x: nat, k: int, m: int)
    ensures k <= m ==> x * k <= x * m
    ensures 0 < x && x * k < x * m ==> k < m
  {
    if k <= m {
      assert x * m == x * k + x * (m - k);
    } else {
      assert x * k == x * m + x * (k - m);
    }
  }

  lemma SquareMonotone(a: nat, b: nat)
    ensures a <= b ==> a * a <= b * b
  {
    MulMonotone(a, a, b);
    MulMonotone(b, a, b);
  }

  lemma DivLaws(t: nat, n: nat, m: nat)
    requires 0 < n
    ensures n * Div(t, n) <= t < n * (Div(t, n) + 1)
    ensures t < n * m <==> Div(t, n) < m
  {
    assert t == n * (t / n) + t % n;
    assert n * (t / n + 1) == n * (t / n) + n;
    MulMonotone(n, t / n, m);
    MulMonotone(n, m, t / n);
    MulMonotone(n, t / n + 1, m);
  }

  /** The root of a quotient brackets the dividend. */
  lemma SqrtOfQuotient(t: nat, n: nat)
    requires 0 < n
    ensures var s := Sqrt(Div(t, n)); n * (s * s) <= t < n * ((s + 1) * (s + 1))
  {
    hide Div;
    var s := Sqrt(Div(t, n));
    DivLaws(t, n, s * s);
    DivLaws(t, n, (s + 1) * (s + 1));
  }

  lemma SqrtUnique(n: int, r: nat)
    requires r * r <= n < (r + 1) * (r + 1)
    ensures r == Sqrt(n)
  {
    SquareMonotone(r + 1, Sqrt(n));
    SquareMonotone(Sqrt(n) + 1, r);
  }

  /** Newton's iteration never leaves an estimate that is not above the root. */
  method Newton(n: int, x0: nat) returns (x: nat)
    requires 0 < n && 0 < x0
    ensures x0 * x0 <= n ==> x == x0
  {
    x := x0;
    for i := 0 to 16
      invariant x0 * x0 <= n ==> x == x0
    {
      if x == 0 {
        return 0;
      }
      var next := (x + n / x) / 2;
      if x0 * x0 <= n { QuotientAbove(n, x0); }
      if next >= x {
        return x;
      }
      x := next;
    }
  }

  lemma QuotientAbove(n: int, x: nat)
    requires 0 < x && x * x <= n
    ensures n / x >= x
  {
    assert n == x * (n / x) + n % x;
    assert x * (n / x + 1) == x * (n / x) + x;
    MulMonotone(x, x, n / x + 1);
  }

  /** The largest root whose square fits in 63 bits. */
  const MAX_ROOT := 3_037_000_499

  /** From the square of `MAX_ROOT` on, the guard of the search wraps. The source calls this with
      at most 2^62. */
  method IntSqrt(n: int64) returns (r: nat)
    requires n < MAX_ROOT * MAX_ROOT
    ensures r == Sqrt(n)
    ensures n >= 0 ==> r * r <= n < (r + 1) * (r + 1)
  {
    if n <= 0 {
      return 0;
    }
    var x := 1;
    while Int64((x + 1) * (x + 1)) <= n
      invariant 1 <= x < MAX_ROOT && x * x <= n
      decreases n - x
    {
      x := x + 1;
      SquareMonotone(MAX_ROOT, x);
      SquareMonotone(x + 1, MAX_ROOT);
    }
    SquareMonotone(x + 1, MAX_ROOT);
    SqrtUnique(n, x);
    r := Newton(n, x);
  }
}

/** What the budget and the score mean for a window of samples. */
module TimingModel {
  import opened Int64Arithmetic

  const SAMPLE_CAP := 32
  const MIN_SAMPLES := 4
  const DEFAULT_BUDGET := 250_000
  /** `KSigma * 100` and `MaxCV * 100` */
  const K_SIGMA_100 := 300
  const MAX_CV_100 := 150

  type Samples = seq<int64>

  function Sum(s: Samples): int {
    if s == [] then 0 else Sum(s[..|s| - 1]) + s[|s| - 1]
  }

  function Square(x: int, mu: int): (r: int)
    ensures 0 <= r
  {
    Int64(x - mu) * Int64(x - mu)
  }

  function Squares(s: Samples, mu: int): (r: int)
    ensures 0 <= r
  {
    if s == [] then 0 else Squares(s[..|s| - 1], mu) + Square(s[|s| - 1], mu)
  }

  function CountOver(s: Samples, budget: int): (r: nat)
    ensures r <= |s|
  {
    if s == [] then 0 else
      var x: int := s[|s| - 1];
      CountOver(s[..|s| - 1], budget) + if Int64(x * 100) > budget then 1 else 0
  }

  function Mean(s: Samples): int
    requires s != []
  {
    Quot(Int64(Sum(s)), |s|)
  }

  function Deviation(s: Samples): nat
    requires s != []
  {
    Sqrt(Quot(Int64(Squares(s, Mean(s))), |s|))
  }

  function Mean100(s: Samples): int64
    requires s != []
  {
    Int64(Mean(s) * 100)
  }

  function Deviation100(s: Samples): int64
    requires s != []
  {
    Int64(Deviation(s) * 100)
  }

  /** mu + 3 sigma, a hundredfold. */
  function Ceiling100(mu100: int, sigma100: int): int {
    Int64(mu100 + Quot(Int64(K_SIGMA_100 * sigma100), 100))
  }

  function BudgetFrom(mu100: int, sigma100: int): (r: int)
    ensures DEFAULT_BUDGET <= r
  {
    if mu100 == 0 || Quot(Int64(sigma100 * 100), mu100) > MAX_CV_100 || Ceiling100(mu100, sigma100) < DEFAULT_BUDGET * 100 then
      DEFAULT_BUDGET
    else
      Ceiling100(mu100, sigma100) / 100
  }

  /** The tolerance budget for the samples in the window. */
  function Budget(w: Samples): (r: int)
    ensures DEFAULT_BUDGET <= r
  {
    if |w| < MIN_SAMPLES then DEFAULT_BUDGET else BudgetFrom(Mean100(w), Deviation100(w))
  }

  /** The anomaly score for the samples in the window. */
  function Score(w: Samples): nat {
    if w == [] then 0 else
      var ceiling := Ceiling100(Mean100(w), Deviation100(w));
      if ceiling <= 0 then 0 else Percent(CountOver(w, ceiling), |w|)
  }

  function Percent(part: nat, whole: nat): nat
    requires 0 < whole
  {
    part * 100 / whole
  }

  lemma PercentAtMost(part: nat, whole: nat)
    requires part <= whole && 0 < whole
    ensures Percent(part, whole) <= 100
  {
    MulMonotone(100, part, whole);
    DivLaws(part * 100, whole, 101);
  }

  /** The most recent samples. */
  function Window(history: Samples): Samples {
    if |history| <= SAMPLE_CAP then history else history[|history| - SAMPLE_CAP..]
  }

  // ---- The order of the samples in the ring does not matter ----

  /** The filled part of the ring after `history` was recorded: once the ring is full, the
      samples since the cursor last passed slot 0 come first. */
  function Ring(history: Samples): (r: Samples)
    ensures |r| == if |history| < SAMPLE_CAP then |history| else SAMPLE_CAP
  {
    if |history| < SAMPLE_CAP then history else Rotate(Window(history), |history| % SAMPLE_CAP)
  }

  /** The last `r` samples of `w`, then the others. */
  function Rotate(w: Samples, r: nat): (v: Samples)
    requires r <= |w|
    ensures |v| == |w|
  {
    w[|w| - r..] + w[..|w| - r]
  }

  lemma RotateStep(w: Samples, r: nat, x: int64)
    requires r < |w| == SAMPLE_CAP
    ensures Rotate(w[1..] + [x], (r + 1) % SAMPLE_CAP) == Rotate(w, r)[r := x]
    ensures Rotate(w, 0) == w
  {
    var w' := w[1..] + [x];
    if r < |w| - 1 {
      assert w'[|w| - r - 1..] == w[|w| - r..] + [x];
    }
  }

  lemma WindowStep(history: Samples, x: int64)
    ensures |history| < SAMPLE_CAP ==> Window(history) == history && Window(history + [x]) == history + [x]
    ensures |history| >= SAMPLE_CAP ==>
      |Window(history)| == SAMPLE_CAP && Window(history + [x]) == Window(history)[1..] + [x]
  {
  }

  lemma RingStep(history: Samples, x: int64)
    ensures Ring(history + [x]) ==
            if |history| < SAMPLE_CAP then Ring(history) + [x] else Ring(history)[|history| % SAMPLE_CAP := x]
  {
    WindowStep(history, x);
    hide Window, Rotate;
    if |history| >= SAMPLE_CAP {
      var r := |history| % SAMPLE_CAP;
      RotateStep(Window(history), r, x);
      assert (|history| + 1) % SAMPLE_CAP == (r + 1) % SAMPLE_CAP;
    } else if |history| + 1 == SAMPLE_CAP {
      RotateStep(history + [x], 0, x);
    }
  }

  lemma RingIsRotation(history: Samples) returns (older: Samples, newer: Samples)
    ensures Window(history) == older + newer && Ring(history) == newer + older
  {
    var w := Window(history);
    var r := if |history| < SAMPLE_CAP then 0 else |history| % SAMPLE_CAP;
    older, newer := w[..|w| - r], w[|w| - r..];
  }

  // ---- One step of each accumulating loop ----

  lemma SumStep(w: Samples, i: nat)
    requires i < |w|
    ensures Int64(Int64(Sum(w[..i])) + w[i]) == Int64(Sum(w[..i + 1]))
  {
    assert w[..i + 1][..i] == w[..i];
    WrapAdd(Sum(w[..i]), w[i]);
  }

  lemma SquaresStep(w: Samples, mu: int, i: nat)
    requires i < |w|
    ensures Int64(Int64(Squares(w[..i], mu)) + Square(w[i], mu)) == Int64(Squares(w[..i + 1], mu))
  {
    assert w[..i + 1][..i] == w[..i];
    WrapAdd(Squares(w[..i], mu), Square(w[i], mu));
  }

  lemma OverStep(w: Samples, budget: int, i: nat)
    requires i < |w|
    ensures CountOver(w[..i + 1], budget) ==
            CountOver(w[..i], budget) + if Int64((w[i] as int) * 100) > budget then 1 else 0
  {
    assert w[..i + 1][..i] == w[..i];
  }

  lemma LoopStart(w: Samples, mu: int)
    ensures Sum(w[..0]) == 0 && Squares(w[..0], mu) == 0 && CountOver(w[..0], mu) == 0 && w[..|w|] == w
  {
  }

  lemma QuotRange(t: int, n: nat)
    requires -HALF <= t < HALF && 0 < n && (n == 1 ==> t == 0)
    ensures -HALF <= Quot(t, n) <= HALF / 2
  {
    if t >= 0 {
      DivLaws(t, n, HALF / 2 + 1);
      MulMonotone(HALF / 2 + 1, 2, n);
    } else {
      DivLaws(-t, n, HALF + 1);
      MulMonotone(HALF + 1, 1, n);
    }
  }

  lemma OneSample(w: Samples)
    requires |w| == 1
    ensures Squares(w, Mean(w)) == 0
  {
    assert w[..0] == [];
    assert Sum(w) == w[0];
    assert Mean(w) == w[0];
  }

  /** The argument of the square root is at most 2^62: one sample has no deviation. */
  lemma VarianceSmall(w: Samples)
    requires w != []
    ensures -HALF <= Quot(Int64(Squares(w, Mean(w))), |w|) <= HALF / 2
  {
    hide Mean, Squares, Quot;
    if |w| == 1 {
      OneSample(w);
    }
    QuotRange(Int64(Squares(w, Mean(w))), |w|);
  }

  lemma {:induction false} SumConcat(a: Samples, b: Samples)
    ensures Sum(a + b) == Sum(a) + Sum(b)
  {
    if b == [] {
      assert a + b == a;
    } else {
      SumConcat(a, b[..|b| - 1]);
      assert (a + b)[..|a + b| - 1] == a + b[..|b| - 1];
    }
  }

  lemma {:induction false} SquaresConcat(a: Samples, b: Samples, mu: int)
    ensures Squares(a + b, mu) == Squares(a, mu) + Squares(b, mu)
  {
    if b == [] {
      assert a + b == a;
    } else {
      SquaresConcat(a, b[..|b| - 1], mu);
      assert (a + b)[..|a + b| - 1] == a + b[..|b| - 1];
    }
  }

  lemma {:induction false} OverConcat(a: Samples, b: Samples, budget: int)
    ensures CountOver(a + b, budget) == CountOver(a, budget) + CountOver(b, budget)
  {
    if b == [] {
      assert a + b == a;
    } else {
      OverConcat(a, b[..|b| - 1], budget);
      assert (a + b)[..|a + b| - 1] == a + b[..|b| - 1];
    }
  }

  /** Mean, deviation, budget and score read off the ring are those of the window. */
  lemma RingStatistics(history: Samples)
    ensures |Ring(history)| == |Window(history)|
    ensures history != [] ==>
      && Mean(Ring(history)) == Mean(Window(history))
      && Deviation(Ring(history)) == Deviation(Window(history))
    ensures Budget(Ring(history)) == Budget(Window(history))
    ensures Score(Ring(history)) == Score(Window(history))
  {
    hide Window, Ring, Sum, Squares, CountOver, Quot, Sqrt, Int64, BudgetFrom;
    var a, b := RingIsRotation(history);
    SumConcat(a, b);
    SumConcat(b, a);
    if history != [] {
      var mu := Mean(a + b);
      SquaresConcat(a, b, mu);
      SquaresConcat(b, a, mu);
      var c := Ceiling100(Mean100(a + b), Deviation100(a + b));
      OverConcat(a, b, c);
      OverConcat(b, a, c);
    }
  }
}

/** Bounds on the budget and the score, for the 32-bit payloads that the engine records. */
module TimingBounds {
  import opened Int64Arithmetic
  import opened Sequences
  import opened TimingModel

  const MAX_PAYLOAD := 0xFFFF_FFFF

  /** A window of samples from 0 to `m`. */
  ghost predicate Within(w: Samples, m: nat) {
    |w| <= SAMPLE_CAP && forall i :: 0 <= i < |w| ==> 0 <= w[i] <= m
  }

  ghost predicate Payloads(w: Samples) { Within(w, MAX_PAYLOAD) }

  /** The sum of squared differences fits in 64 bits. */
  predicate Fits(w: Samples)
    requires w != []
  {
    Squares(w, Mean(w)) < HALF
  }

  /** The deviation in unbounded arithmetic. */
  function ExactDeviation(w: Samples): nat
    requires w != []
  {
    Sqrt(Div(Squares(w, Mean(w)), |w|))
  }

  lemma {:induction false} SumBounds(w: Samples)
    requires Payloads(w)
    ensures 0 <= Sum(w) <= |w| * MAX_PAYLOAD
  {
    if w != [] {
      SumBounds(w[..|w| - 1]);
    }
  }

  lemma Average(t: nat, n: nat, bound: nat)
    requires 0 < n <= SAMPLE_CAP && t <= n * bound && bound < HALF / SAMPLE_CAP
    ensures Quot(Int64(t), n) == Div(t, n) <= bound
  {
    hide Div, Quot;
    MulMonotone(bound, n, SAMPLE_CAP);
    assert n * (bound + 1) == n * bound + n;
    DivLaws(t, n, bound + 1);
  }

  lemma MeanBounds(w: Samples)
    requires Payloads(w) && w != []
    ensures 0 <= Sum(w) && Mean(w) == Div(Sum(w), |w|) <= MAX_PAYLOAD
  {
    SumBounds(w);
    hide Sum, Payloads, Int64, Quot, Div;
    Average(Sum(w), |w|, MAX_PAYLOAD);
  }

  /** Whatever wraps, the deviation stays at most 2^31. */
  lemma DeviationSmall(w: Samples)
    requires w != []
    ensures Deviation(w) <= 0x8000_0000
  {
    VarianceSmall(w);
    hide Squares, Mean, Quot, Int64;
    SquareMonotone(0x8000_0001, Deviation(w));
  }

  /** The deviation is the floor of the root of the mean square, if the squares fit. */
  lemma DeviationBounds(w: Samples)
    requires w != []
    ensures Fits(w) ==>
      var s := Deviation(w);
      s == ExactDeviation(w) && |w| * (s * s) <= Squares(w, Mean(w)) < |w| * ((s + 1) * (s + 1))
  {
    hide Squares, Mean, Sqrt, Int64, Quot, Div;
    SqrtOfQuotient(Squares(w, Mean(w)), |w|);
  }

  // ---- A Chebyshev bound on the score ----

  lemma CeilingExact(w: Samples)
    requires Payloads(w) && w != []
    ensures Ceiling100(Mean100(w), Deviation100(w)) == 100 * Mean(w) + 300 * Deviation(w)
  {
    MeanBounds(w);
    DeviationSmall(w);
    hide Mean, Deviation, Payloads;
  }

  /** A sample above mu + 3 s lies at least 3 s + 1 away from mu. */
  lemma OverIsFar(x: int, mu: int, s: nat)
    requires 0 <= x <= MAX_PAYLOAD && 0 <= mu <= MAX_PAYLOAD
    requires Int64(x * 100) > 100 * mu + 300 * s
    ensures mu < x && (3 * s + 1) * (3 * s + 1) <= Square(x, mu)
  {
    SquareMonotone(3 * s + 1, x - mu);
  }

  /** Late samples that each weigh at least `weight` weigh that much together. */
  lemma {:induction false} OverSquares(w: Samples, mu: int, ceiling: int, weight: nat)
    requires forall i :: 0 <= i < |w| && Int64(w[i] as int * 100) > ceiling ==> weight <= Square(w[i], mu)
    ensures weight * CountOver(w, ceiling) <= Squares(w, mu)
  {
    hide Int64, Square;
    if w != [] {
      OverSquares(w[..|w| - 1], mu, ceiling, weight);
      Distributes(weight, CountOver(w[..|w| - 1], ceiling), 1);
    }
  }

  lemma {:induction false} OverSum(w: Samples, ceiling: int, weight: nat)
    requires forall i :: 0 <= i < |w| ==> 0 <= w[i] && (Int64(w[i] as int * 100) > ceiling ==> weight <= w[i])
    ensures weight * CountOver(w, ceiling) <= Sum(w)
  {
    hide Int64;
    if w != [] {
      OverSum(w[..|w| - 1], ceiling, weight);
      Distributes(weight, CountOver(w[..|w| - 1], ceiling), 1);
    }
  }

  lemma Distributes(k: int, a: int, b: int)
    ensures k * (a + b) == k * a + k * b && k * a == a * k
  {
  }

  lemma OverWeight(w: Samples, mu: int, s: nat)
    requires Payloads(w) && 0 <= mu <= MAX_PAYLOAD
    ensures var ceiling := 100 * mu + 300 * s;
            && CountOver(w, ceiling) * ((3 * s + 1) * (3 * s + 1)) <= Squares(w, mu)
            && (mu + 1) * CountOver(w, ceiling) <= Sum(w)
  {
    var ceiling, far := 100 * mu + 300 * s, (3 * s + 1) * (3 * s + 1);
    hide Square, Int64, CountOver, Squares, Sum;
    forall i | 0 <= i < |w| && Int64(w[i] as int * 100) > ceiling ensures mu + 1 <= w[i] && far <= Square(w[i], mu) {
      OverIsFar(w[i], mu, s);
    }
    OverSquares(w, mu, ceiling, far);
    OverSum(w, ceiling, mu + 1);
    Distributes(far, CountOver(w, ceiling), 0);
  }

  /** How many samples the score counts as late. */
  function Late(w: Samples): nat
    requires w != []
  {
    CountOver(w, Ceiling100(Mean100(w), Deviation100(w)))
  }

  lemma LateIs(w: Samples)
    requires Payloads(w) && w != []
    ensures Late(w) == CountOver(w, 100 * Mean(w) + 300 * Deviation(w))
  {
    CeilingExact(w);
    hide Mean, Deviation, Payloads, CountOver, Ceiling100, Mean100, Deviation100;
  }

  /** Not every sample exceeds the mean. */
  lemma NotAll(late: nat, n: nat, t: nat)
    requires 0 < n && (Div(t, n) + 1) * late <= t
    ensures late < n
  {
    hide Div;
    DivLaws(t, n, 0);
    Distributes(n, Div(t, n) + 1, 0);
    MulMonotone(Div(t, n) + 1, n, late);
  }

  /** What is counted as late lies above mu + 3 s for the deviation s that was computed, right or
      wrong; so its weight bounds the squares and the sum. */
  lemma LateWeight(w: Samples)
    requires Payloads(w) && w != []
    ensures var s := Deviation(w); Late(w) * ((3 * s + 1) * (3 * s + 1)) <= Squares(w, Mean(w))
    ensures Late(w) < |w|
  {
    hide *;
    MeanBounds(w);
    LateIs(w);
    OverWeight(w, Mean(w), Deviation(w));
    NotAll(Late(w), |w|, Sum(w));
  }

  /** The samples above mu + 3 sigma, for the deviation that was computed. */
  function Above(w: Samples): Samples
    requires w != []
  {
    var limit := Mean(w) + 3 * Deviation(w);
    Filtered(w, (x: int64) => x > limit)
  }

  lemma {:induction false} CountIsFiltered(w: Samples, limit: nat)
    requires Payloads(w)
    ensures CountOver(w, 100 * limit) == |Filtered(w, (x: int64) => x > limit)|
  {
    var keep := (x: int64) => x > limit;
    if w != [] {
      var v, x := w[..|w| - 1], w[|w| - 1];
      CountIsFiltered(v, limit);
      assert w == v + [x];
      FilteredConcat(v, [x], keep);
      assert Filtered([x], keep) == if keep(x) then [x] else [];
      assert keep == ((y: int64) => y > limit);
    }
  }

  /** The score is the percentage of samples above mu + 3 sigma, rounded down; but it is 0 when both
      mu and sigma are. */
  lemma ScoreIs(w: Samples)
    requires Payloads(w) && w != []
    ensures Score(w) == if Mean(w) == 0 && Deviation(w) == 0 then 0 else |Above(w)| * 100 / |w|
  {
    MeanBounds(w);
    CeilingExact(w);
    CountIsFiltered(w, Mean(w) + 3 * Deviation(w));
    hide Mean, Deviation, Ceiling100, CountOver, Filtered;
  }

  lemma Chebyshev(w: Samples)
    requires Payloads(w) && w != [] && Fits(w)
    ensures var s := Deviation(w);
            Late(w) * ((3 * s + 1) * (3 * s + 1)) < |w| * ((s + 1) * (s + 1))
  {
    LateWeight(w);
    DeviationBounds(w);
    hide Deviation, Late, Squares, Mean;
  }

  lemma QuarterOfWindow(late: nat, n: nat, s: nat)
    requires 1 <= s && late * ((3 * s + 1) * (3 * s + 1)) < n * ((s + 1) * (s + 1))
    ensures 4 * late < n
  {
    var near := (s + 1) * (s + 1);
    SquareMonotone(2 * (s + 1), 3 * s + 1);
    assert (2 * (s + 1)) * (2 * (s + 1)) == 4 * near;
    MulMonotone(late, 4 * near, (3 * s + 1) * (3 * s + 1));
    assert late * (4 * near) == near * (4 * late);
    assert n * near == near * n;
    MulMonotone(near, 4 * late, n);
  }

  lemma ScoreIsPercent(w: Samples)
    requires Payloads(w) && w != []
    ensures Score(w) == 0 || Score(w) == Percent(Late(w), |w|)
  {
    hide Percent, Ceiling100, CountOver;
  }

  /** The score never reaches 97. It stays below 25 when the deviation is at least 1 and the sum
      of squares is below 2^64: from 2^63 up to there, the deviation comes out as 0. */
  lemma ScoreBounds(w: Samples)
    requires Payloads(w)
    ensures Score(w) <= 96
    ensures w != [] && Deviation(w) >= 1 && Squares(w, Mean(w)) < 2 * HALF ==> Score(w) <= 24
  {
    if w != [] {
      ScoreIsPercent(w);
      LateWeight(w);
      hide Score, Late, Deviation, Squares, Mean, Percent;
      PercentBelow(Late(w), |w|, 97);
      if Deviation(w) >= 1 && Squares(w, Mean(w)) < 2 * HALF {
        QuarterLate(w);
        PercentBelow(Late(w), |w|, 25);
      }
    }
  }

  lemma QuarterLate(w: Samples)
    requires Payloads(w) && w != []
    ensures Deviation(w) >= 1 && Squares(w, Mean(w)) < 2 * HALF ==> 4 * Late(w) < |w|
  {
    hide Deviation, Late, Squares, Mean;
    if Deviation(w) >= 1 && Squares(w, Mean(w)) < 2 * HALF {
      HalfWrapped(w);
      assert Fits(w);
      hide Fits;
      Chebyshev(w);
      QuarterOfWindow(Late(w), |w|, Deviation(w));
    }
  }

  /** A sum of squares that wraps to a negative number gives the deviation 0. */
  lemma HalfWrapped(w: Samples)
    requires w != []
    ensures HALF <= Squares(w, Mean(w)) < 2 * HALF ==> Deviation(w) == 0
  {
    hide Squares, Mean, Quot;
    if HALF <= Squares(w, Mean(w)) < 2 * HALF {
      NonPositiveQuot(Int64(Squares(w, Mean(w))), |w|);
    }
  }

  lemma PercentBelow(part: nat, whole: nat, bound: nat)
    requires 0 < whole && part * 100 < whole * bound
    ensures Percent(part, whole) < bound
  {
    DivLaws(part * 100, whole, bound);
  }

  // ---- The budget in exact arithmetic ----

  /** The deviation exceeds 1.5 mu, in whole hundredths. */
  predicate Noisy(mu: int, sigma: int) { sigma * 100 >= mu * 151 }

  /** mu + 3 sigma, never below the default; the default when the mean is 0 or the window noisy. */
  function Adaptive(mu: int, sigma: int): int {
    if mu <= 0 || Noisy(mu, sigma) || mu + 3 * sigma < 250_000 then 250_000 else mu + 3 * sigma
  }

  function AdaptiveBudget(w: Samples): int {
    if |w| < 4 then 250_000 else Adaptive(Mean(w), ExactDeviation(w))
  }

  /** Only the deviation can be wrong: given it, the budget is computed without wrapping. */
  lemma BudgetFromDeviation(w: Samples)
    requires Payloads(w) && |w| >= MIN_SAMPLES
    ensures Budget(w) == Adaptive(Mean(w), Deviation(w))
  {
    MeanBounds(w);
    DeviationSmall(w);
    CeilingExact(w);
    var mu, sigma := Mean(w), Deviation(w);
    hide Mean, Deviation, Payloads;
    if mu != 0 {
      DivLaws(sigma * 10_000, mu * 100, MAX_CV_100 + 1);
      hide Div, Quot;
      assert Quot(Int64(Deviation100(w) * 100), Mean100(w)) == Div(sigma * 10_000, mu * 100);
    }
  }

  // ---- Where the deviation goes wrong ----

  lemma RootsApart(q: nat, q': nat)
    requires q < HALF && q + 0x400_0000_0000_0000 <= q'
    ensures Sqrt(q) < Sqrt(q')
  {
    var r, s := Sqrt(q), Sqrt(q');
    SquareMonotone(0x1_0000_0000, r);
    assert (r + 1) * (r + 1) == r * r + 2 * r + 1;
    SquareMonotone(s + 1, r + 1);
  }

  lemma DivGap(a: nat, b: nat, n: nat)
    requires 0 < n <= SAMPLE_CAP && a + 2 * HALF <= b
    ensures Div(a, n) + 0x400_0000_0000_0000 <= Div(b, n)
  {
    hide Div;
    var m := Div(a, n) + 0x400_0000_0000_0000;
    DivLaws(a, n, 0);
    MulMonotone(0x400_0000_0000_0000, n, SAMPLE_CAP);
    assert n * m == n * Div(a, n) + 0x400_0000_0000_0000 * n;
    DivLaws(b, n, m);
  }

  lemma WrappedRoot(t: nat, n: nat)
    requires 0 < n <= SAMPLE_CAP
    ensures Sqrt(Quot(Int64(t), n)) == Sqrt(Div(t, n)) <==> t < HALF
  {
    var t' := Int64(t);
    if t >= HALF {
      if t' >= 0 {
        hide Div, Sqrt;
        DivGap(t', t, n);
        DivLaws(t', n, HALF);
        MulMonotone(HALF, 1, n);
        RootsApart(Div(t', n), Div(t, n));
      } else {
        hide Div;
        NonPositiveQuot(t', n);
        DivLaws(t, n, 1);
        SquareMonotone(1, Sqrt(Div(t, n)));
      }
    }
  }

  lemma NonPositiveQuot(t: int, n: nat)
    requires t < 0 < n
    ensures Quot(t, n) <= 0
  {
    DivLaws(-t, n, 0);
  }

  /** The deviation is the root of the mean square exactly when the sum of squares is below 2^63. */
  lemma DeviationExactIff(w: Samples)
    requires w != [] && |w| <= SAMPLE_CAP
    ensures Deviation(w) == ExactDeviation(w) <==> Fits(w)
  {
    hide Squares, Mean, Sqrt, Div, Quot, Int64;
    WrappedRoot(Squares(w, Mean(w)), |w|);
  }

  // ---- How large samples may be ----

  lemma SquareBelow(x: int, mu: int, m: nat, slope: int, base: int)
    requires 0 <= x <= m <= MAX_PAYLOAD && 0 <= mu <= MAX_PAYLOAD
    requires slope == m - 2 * mu && base == mu * mu
    ensures Square(x, mu) <= slope * x + base
  {
    MulMonotone(x, x, m);
    assert (x - mu) * (x - mu) == x * x - 2 * mu * x + mu * mu;
  }

  /** Each square is bounded by a linear function of the sample. */
  lemma {:induction false} SquaresBelow(w: Samples, mu: int, m: nat, slope: int, base: int)
    requires Within(w, m) && m <= MAX_PAYLOAD && 0 <= mu <= MAX_PAYLOAD
    requires slope == m - 2 * mu && base == mu * mu
    ensures Squares(w, mu) <= slope * Sum(w) + base * |w|
  {
    hide Square;
    if w != [] {
      var v, x: int := w[..|w| - 1], w[|w| - 1];
      SquaresBelow(v, mu, m, slope, base);
      SquareBelow(x, mu, m, slope, base);
      Distributes(slope, Sum(v), x);
      Distributes(base, |v|, 1);
    }
  }

  /** A product is at most the square of half the sum. */
  lemma ProductBelow(a: int, b: int)
    ensures 4 * (a * b) <= (a + b) * (a + b)
  {
    assert (a + b) * (a + b) - 4 * (a * b) == (a - b) * (a - b);
  }

  lemma InnerBelow(mu: int, m: int)
    ensures 4 * (mu * (m - mu)) <= m * m
    ensures 4 * (mu * (m - mu) + (m - 2 * mu)) <= m * m + 4
  {
    ProductBelow(mu, m - mu);
    ProductBelow(mu + 1, m - mu - 1);
    assert (mu + 1) * (m - mu - 1) == mu * (m - mu) + (m - 2 * mu) - 1;
  }

  lemma SplitSum(n: nat, mu: int, r: nat, m: int)
    ensures (m - 2 * mu) * (n * mu + r) + n * (mu * mu) == n * (mu * (m - mu)) + r * (m - 2 * mu)
  {
    assert (m - 2 * mu) * (n * mu + r) == (m - 2 * mu) * (n * mu) + (m - 2 * mu) * r;
    assert n * (mu * (m - mu)) == (m - 2 * mu) * (n * mu) + n * (mu * mu);
  }

  lemma SpreadBelow(n: nat, r: nat, inner: int, slope: int, bound: int)
    requires r < n && 4 * inner <= bound && 4 * (inner + slope) <= bound + 4
    ensures 4 * (n * inner + r * slope) <= n * (bound + 4)
  {
    if slope >= 0 {
      MulMonotone(slope, r, n);
      Distributes(n, inner, slope);
      MulMonotone(n, 4 * (inner + slope), bound + 4);
    } else {
      MulMonotone(r, slope, 0);
      MulMonotone(n, 4 * inner, bound + 4);
    }
  }

  /** Samples from 0 to `m` deviate from their mean by m / 2 on average, at most. */
  lemma SpreadBound(w: Samples, m: nat)
    requires Within(w, m) && m <= MAX_PAYLOAD && w != []
    ensures 4 * Squares(w, Mean(w)) <= |w| * (m * m + 4)
  {
    var n, mu, t, base, slope := |w|, Mean(w), Sum(w), Mean(w) * Mean(w), m - 2 * Mean(w);
    MeanBounds(w);
    SquaresBelow(w, mu, m, slope, base);
    hide Mean, Sum, Squares, Div;
    DivLaws(t, n, 0);
    Distributes(n, mu, 1);
    var r := t - n * mu;
    SplitSum(n, mu, r, m);
    Distributes(base, n, 0);
    InnerBelow(mu, m);
    SpreadBelow(n, r, mu * (m - mu), slope, m * m);
  }

  lemma Append(v: Samples, x: int64, mu: int, budget: int)
    ensures Sum(v + [x]) == Sum(v) + x && Squares(v + [x], mu) == Squares(v, mu) + Square(x, mu)
    ensures CountOver(v + [x], budget) == CountOver(v, budget) + if Int64(x as int * 100) > budget then 1 else 0
  {
    assert (v + [x])[..|v|] == v;
  }

  lemma {:induction false} Repeated(n: nat, x: int64, mu: int, budget: int)
    ensures var w: Samples := seq(n, _ => x);
            && Sum(w) == x * n
            && Squares(w, mu) == Square(x, mu) * n
            && CountOver(w, budget) == if Int64(x as int * 100) > budget then n else 0
  {
    if n > 0 {
      var w: Samples, v: Samples := seq(n, _ => x), seq(n - 1, _ => x);
      assert w == v + [x];
      Repeated(n - 1, x, mu, budget);
      Append(v, x, mu, budget);
      hide *;
      Distributes(x, n - 1, 1);
      Distributes(Square(x, mu), n - 1, 1);
    }
  }

  /** Sixteen zeros and sixteen times `m`: the widest spread. */
  function Widest(m: int64): Samples {
    seq<int64>(16, _ => 0) + seq<int64>(16, _ => m)
  }

  lemma WidestStatistics(m: int64, budget: int)
    requires 0 <= m <= MAX_PAYLOAD && m % 2 == 0
    ensures var w := Widest(m);
            && Within(w, m) && |w| == 32 && Mean(w) == m / 2
            && Squares(w, Mean(w)) == 32 * ((m / 2) * (m / 2))
            && CountOver(w, budget) == (if 0 > budget then 16 else 0) + (if m * 100 > budget then 16 else 0)
  {
    var zeros: Samples, others: Samples := seq<int64>(16, _ => 0), seq<int64>(16, _ => m);
    var h := m / 2;
    Repeated(16, 0, h, budget);
    Repeated(16, m, h, budget);
    SumConcat(zeros, others);
    SquaresConcat(zeros, others, h);
    OverConcat(zeros, others, budget);
    assert Square(0, h) == h * h && Square(m, h) == h * h;
    hide Sum, Squares, CountOver, Square;
    assert Sum(Widest(m)) == 16 * m;
  }

  /** The deviation is right for all windows of samples from 0 to `m` exactly when m < 2^30. */
  lemma DeviationExactBelow(m: nat)
    ensures (forall w :: Within(w, m) && w != [] ==> Deviation(w) == ExactDeviation(w)) <==> m < 0x4000_0000
  {
    hide Deviation, ExactDeviation;
    if m < 0x4000_0000 {
      forall w | Within(w, m) && w != [] ensures Deviation(w) == ExactDeviation(w) {
        SmallSpreadFits(w, m);
        DeviationExactIff(w);
      }
    } else {
      var w := Widest(0x4000_0000);
      WidestStatistics(0x4000_0000, 0);
      DeviationExactIff(w);
      assert Within(w, m) && !Fits(w);
    }
  }

  // ---- When the budget is right ----

  lemma SmallMeanArithmetic(n: nat, mu: nat, t: nat)
    requires 0 < n <= SAMPLE_CAP && mu <= DEFAULT_BUDGET && t < n * (mu + 1)
    ensures (MAX_PAYLOAD - 2 * mu) * t + (mu * mu) * n < HALF
  {
    MulMonotone(n, mu + 1, DEFAULT_BUDGET + 1);
    MulMonotone(t, MAX_PAYLOAD - 2 * mu, MAX_PAYLOAD);
    SquareMonotone(mu, DEFAULT_BUDGET);
    MulMonotone(n, mu * mu, DEFAULT_BUDGET * DEFAULT_BUDGET);
    Distributes(n, mu * mu, 0);
    Distributes(t, MAX_PAYLOAD - 2 * mu, 0);
  }

  /** Where the deviation can be wrong, the mean alone exceeds the default budget. */
  lemma SmallMeanFits(w: Samples)
    requires Payloads(w) && w != [] && Mean(w) <= DEFAULT_BUDGET
    ensures Fits(w)
  {
    var n, mu, t := |w|, Mean(w), Sum(w);
    MeanBounds(w);
    SquaresBelow(w, mu, MAX_PAYLOAD, MAX_PAYLOAD - 2 * mu, mu * mu);
    hide Mean, Sum, Squares, Div;
    DivLaws(t, n, 0);
    SmallMeanArithmetic(n, mu, t);
  }

  /** Two deviations give the same budget above the default only if both make the window noisy. */
  lemma SameBudget(mu: int, s: int, t: int)
    requires DEFAULT_BUDGET < mu && 0 <= s && 0 <= t && s != t
    ensures Adaptive(mu, s) == Adaptive(mu, t) <==> Noisy(mu, s) && Noisy(mu, t)
  {
  }

  /** The budget is mu + 3 sigma with its fallbacks exactly when the window is short, or the
      squares fit, or both the computed and the exact deviation make the window noisy. */
  lemma BudgetIsAdaptiveIff(w: Samples)
    requires Payloads(w)
    ensures Budget(w) == AdaptiveBudget(w) <==>
      |w| < MIN_SAMPLES || Fits(w) || (Noisy(Mean(w), Deviation(w)) && Noisy(Mean(w), ExactDeviation(w)))
  {
    if |w| >= MIN_SAMPLES {
      BudgetFromDeviation(w);
      DeviationExactIff(w);
      hide Mean, Deviation, ExactDeviation, Budget, Noisy, Adaptive;
      if !Fits(w) {
        if Mean(w) <= DEFAULT_BUDGET { SmallMeanFits(w); }
        SameBudget(Mean(w), Deviation(w), ExactDeviation(w));
      }
    }
  }

  lemma WidestDeviation()
    ensures var w := Widest(0x4000_0000);
            && Within(w, 0x4000_0000) && Payloads(w) && |w| == 32
            && Mean(w) == 0x2000_0000 && Deviation(w) == 0 && ExactDeviation(w) == 0x2000_0000
  {
    var w := Widest(0x4000_0000);
    WidestStatistics(0x4000_0000, 0);
    hide Squares, Mean, Widest, Sqrt;
    HalfWrapped(w);
    hide Deviation;
    SqrtUnique(0x400_0000_0000_0000, 0x2000_0000);
  }

  lemma WidestBudget()
    ensures var w := Widest(0x4000_0000);
            Within(w, 0x4000_0000) && Budget(w) == 0x2000_0000 && AdaptiveBudget(w) == 0x8000_0000
  {
    hide Mean, Deviation, ExactDeviation, Widest, Budget, Within, Payloads;
    WidestDeviation();
    BudgetFromDeviation(Widest(0x4000_0000));
  }

  /** The budget is right for all windows of samples from 0 to `m` exactly when m < 2^30. */
  lemma BudgetExactBelow(m: nat)
    ensures (forall w :: Within(w, m) ==> Budget(w) == AdaptiveBudget(w)) <==> m < 0x4000_0000
  {
    hide Budget, AdaptiveBudget;
    if m < 0x4000_0000 {
      forall w | Within(w, m) ensures Budget(w) == AdaptiveBudget(w) {
        if w != [] { SmallSpreadFits(w, m); }
        BudgetIsAdaptiveIff(w);
      }
    } else {
      WidestBudget();
      assert Within(Widest(0x4000_0000), m);
    }
  }

  lemma BoundedSpread(n: nat, m: nat, bound: nat)
    requires n <= SAMPLE_CAP && m <= bound
    ensures n * (m * m + 4) <= SAMPLE_CAP * (bound * bound + 4)
  {
    SquareMonotone(m, bound);
    MulMonotone(n, m * m + 4, bound * bound + 4);
    MulMonotone(bound * bound + 4, n, SAMPLE_CAP);
  }

  lemma SmallSpreadFits(w: Samples, m: nat)
    requires Within(w, m) && m < 0x4000_0000 && w != []
    ensures Fits(w)
  {
    SpreadBound(w, m);
    hide Squares, Mean, Within;
    BoundedSpread(|w|, m, 0x3FFF_FFFF);
  }

  /** The score stays below 25 for all windows of samples from 0 to `m` with a deviation of at
      least 1 exactly when `m` is at most 1518500249. */
  lemma QuarterBoundSharp(m: nat)
    ensures (forall w :: Within(w, m) && w != [] && Deviation(w) >= 1 ==> Score(w) <= 24) <==> m <= 1_518_500_249
  {
    hide Deviation, Score;
    if m <= 1_518_500_249 {
      forall w | Within(w, m) && w != [] && Deviation(w) >= 1 ensures Score(w) <= 24 {
        MediumSpread(w, m);
        ScoreBounds(w);
      }
    } else {
      WidestScore();
      assert Within(Widest(1_518_500_250), m);
    }
  }

  lemma MediumSpread(w: Samples, m: nat)
    requires Within(w, m) && m <= 1_518_500_249 && w != []
    ensures Payloads(w) && Squares(w, Mean(w)) < 2 * HALF
  {
    SpreadBound(w, m);
    hide Squares, Mean, Within;
    BoundedSpread(|w|, m, 1_518_500_249);
  }

  lemma WidestScore()
    ensures var w := Widest(1_518_500_250);
            Within(w, 1_518_500_250) && w != [] && Deviation(w) == 3015 && Score(w) == 50
  {
    var w := Widest(1_518_500_250);
    var ceiling := 100 * 759_250_125 + 300 * 3015;
    WidestStatistics(1_518_500_250, ceiling);
    hide Squares, Mean, CountOver, Widest, Sqrt;
    SqrtUnique(9_092_137, 3015);
    assert Int64(Squares(w, Mean(w))) == 290_948_384;
    assert Ceiling100(Mean100(w), Deviation100(w)) == ceiling;
  }

  // ---- Concrete payloads ----

  const SPIKE: Samples := [0, 0, 0, 0xFFFF_FFFF]

  lemma SpikeStatistics()
    ensures Sum(SPIKE) == 0xFFFF_FFFF && Squares(SPIKE, 1_073_741_823) == 13_835_058_048_839_712_771
  {
    var mu := 1_073_741_823;
    LoopStart([], mu);
    assert Square(0, mu) == mu * mu && Square(0xFFFF_FFFF, mu) == (3 * mu + 3) * (3 * mu + 3);
    hide Sum, Squares, CountOver, Square;
    Append([], 0, mu, 0);
    Append([0], 0, mu, 0);
    Append([0, 0], 0, mu, 0);
    Append([0, 0, 0], 0xFFFF_FFFF, mu, 0);
    assert [] + [0] == [0] && [0] + [0] == [0, 0] && [0, 0] + [0] == [0, 0, 0] && [0, 0, 0] + [0xFFFF_FFFF] == SPIKE;
  }

  /** A deviation of 0 instead of 1859775392. */
  lemma DeviationWraps()
    ensures Payloads(SPIKE) && Mean(SPIKE) == 1_073_741_823 && Squares(SPIKE, Mean(SPIKE)) == 13_835_058_048_839_712_771
    ensures Deviation(SPIKE) == 0 && ExactDeviation(SPIKE) == 1_859_775_392
  {
    SpikeStatistics();
    hide Sum, Squares, Sqrt;
    assert Mean(SPIKE) == 1_073_741_823;
    hide Mean, Deviation;
    HalfWrapped(SPIKE);
    SqrtUnique(3_458_764_512_209_928_192, 1_859_775_392);
  }

  /** And so a budget of 18 minutes instead of 250 ms. */
  lemma BudgetWraps()
    ensures Budget(SPIKE) == 1_073_741_823 && AdaptiveBudget(SPIKE) == DEFAULT_BUDGET
  {
    hide Mean, Deviation, ExactDeviation, Squares;
    DeviationWraps();
  }

  const HEAVY_TAIL: Samples := [0, 0, 0, 0xFFFF_FFFF, 0xFFFF_FFFF]

  lemma HeavyTailStatistics(budget: int)
    requires 0 <= budget
    ensures var w, mu := HEAVY_TAIL, 1_717_986_918;
            && Sum(w) == 2 * 0xFFFF_FFFF && Squares(w, mu) == 22_136_092_878_143_540_430
            && CountOver(w, budget) == if 429_496_729_500 > budget then 2 else 0
  {
    var mu := 1_717_986_918;
    LoopStart([], mu);
    LoopStart([], budget);
    assert Square(0, mu) == mu * mu && Square(0xFFFF_FFFF, mu) == 2_576_980_377 * 2_576_980_377;
    hide Sum, Squares, CountOver, Square;
    Append([], 0, mu, budget);
    Append([0], 0, mu, budget);
    Append([0, 0], 0, mu, budget);
    Append([0, 0, 0], 0xFFFF_FFFF, mu, budget);
    Append([0, 0, 0, 0xFFFF_FFFF], 0xFFFF_FFFF, mu, budget);
    assert [] + [0] == [0] && [0] + [0] == [0, 0] && [0, 0] + [0] == [0, 0, 0];
    assert [0, 0, 0] + [0xFFFF_FFFF] == [0, 0, 0, 0xFFFF_FFFF] && [0, 0, 0, 0xFFFF_FFFF] + [0xFFFF_FFFF] == HEAVY_TAIL;
  }

  /** Beyond 2^64 the sum of squares wraps to a small positive number, and the deviation is at
      least 1 but far too small: here two samples of five count as late. */
  lemma ScoreWraps()
    ensures var w := HEAVY_TAIL;
            && Payloads(w) && Squares(w, Mean(w)) == 22_136_092_878_143_540_430
            && Deviation(w) == 858_993_457 && Score(w) == 40
  {
    var w, mu, s := HEAVY_TAIL, 1_717_986_918, 858_993_457;
    var ceiling := 100 * mu + 300 * s;
    HeavyTailStatistics(ceiling);
    assert Mean(w) == mu;
    hide Sum, Squares, Mean, Sqrt, CountOver;
    assert Int64(Squares(w, mu)) == 3_689_348_804_433_988_814;
    SqrtUnique(737_869_760_886_797_762, s);
    assert Deviation(w) == s;
    hide Deviation;
    assert Ceiling100(Mean100(w), Deviation100(w)) == ceiling;
  }
}
