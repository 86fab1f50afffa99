/** The statistics of the cost anomaly detector (checks/aws/cost_explorer_analyzer.py): the
    regression trend and the moving-average z-score, over exact reals. */
module CostExplorer {
  import opened Prelude

  // ---------- Sums ----------

  /** 0 + 1 + ... + (n - 1) */
  function SumT(n: nat): real {
    if n == 0 then 0.0 else SumT(n - 1) + (n - 1) as real
  }

  function SumT2(n: nat): real {
    if n == 0 then 0.0 else SumT2(n - 1) + (n - 1) as real * (n - 1) as real
  }

  function Sum(s: seq<real>): real {
    if s == [] then 0.0 else Sum(s[..|s| - 1]) + s[|s| - 1]
  }

  /** The sum of `i * s[i]`. */
  function SumTCost(s: seq<real>): real {
    if s == [] then 0.0 else SumTCost(s[..|s| - 1]) + (|s| - 1) as real * s[|s| - 1]
  }

  /** The sum of the squared distances to `m`. */
  function SumSquares(s: seq<real>, m: real): real {
    if s == [] then 0.0 else SumSquares(s[..|s| - 1], m) + (s[|s| - 1] - m) * (s[|s| - 1] - m)
  }

  /** Python's `s[-n:]`, which is all of `s` when `n` is 0. */
  function LastN<T>(s: seq<T>, n: int): seq<T> {
    if n == 0 then s
    else if n > 0 then s[Max(0, |s| - n)..]
    else s[Min(-n, |s|)..]
  }

  function Abs(x: real): real {
    if x < 0.0 then -x else x
  }

  // ---------- The regression trend ----------

  datatype Signal = Increasing | Decreasing

  datatype TrendConfig = TrendConfig(windowMonths: int, minMonths: int, slopeMinAbs: real, slopeMinPct: real)

  function Window(costs: seq<real>, cfg: TrendConfig): seq<real> {
    LastN(costs, Min(cfg.windowMonths, |costs|))
  }

  function Denominator(n: nat): real {
    n as real * SumT2(n) - SumT(n) * SumT(n)
  }

  function Numerator(w: seq<real>): real {
    |w| as real * SumTCost(w) - SumT(|w|) * Sum(w)
  }

  function Slope(w: seq<real>): real
    requires Denominator(|w|) != 0.0
  {
    Numerator(w) / Denominator(|w|)
  }

  predicate SlopeReaches(slope: real, mean: real, cfg: TrendConfig) {
    Abs(slope) >= cfg.slopeMinAbs || Abs(slope) >= mean * cfg.slopeMinPct
  }

  function DetectTrend(costs: seq<real>, cfg: TrendConfig): Option<Signal> {
    var w := Window(costs, cfg);
    if |w| < cfg.minMonths || |w| == 0 || Denominator(|w|) == 0.0 then None
    else
      var slope, mean := Slope(w), Sum(w) / |w| as real;
      if SlopeReaches(slope, mean, cfg) then
        Some(if slope > 0.0 then Increasing else Decreasing)
      else None
  }

  lemma {:induction false} SumTClosed(n: nat)
    ensures 2.0 * SumT(n) == n as real * (n as real - 1.0)
    ensures 6.0 * SumT2(n) == (n as real - 1.0) * n as real * (2.0 * n as real - 1.0)
  {
    if n > 0 {
      SumTClosed(n - 1);
      var x := n as real;
      assert (n - 1) as real == x - 1.0;
    }
  }

  /** The denominator is that of the closed form, so it vanishes only for one month or none. */
  lemma DenominatorClosed(n: nat)
    ensures 12.0 * Denominator(n) == (n * n) as real * ((n * n) as real - 1.0)
    ensures n >= 2 ==> Denominator(n) > 0.0
    ensures Denominator(n) == 0.0 <==> n < 2
  {
    SumTClosed(n);
    var x, t, u := n as real, SumT(n), SumT2(n);
    assert (n * n) as real == x * x;
    calc {
      12.0 * (x * u - t * t);
      2.0 * x * (6.0 * u) - 3.0 * (2.0 * t) * (2.0 * t);
      2.0 * x * ((x - 1.0) * x * (2.0 * x - 1.0)) - 3.0 * (x * (x - 1.0)) * (x * (x - 1.0));
      x * x * (x * x - 1.0);
    }
    if n >= 2 {
      assert x * x >= 4.0;
      assert x * x * (x * x - 1.0) > 0.0;
    }
  }

  /** The costs `a + b * t` of the months t. */
  ghost predicate Line(w: seq<real>, a: real, b: real) {
    forall i :: 0 <= i < |w| ==> w[i] == a + b * i as real
  }

  lemma {:induction false} LineSums(w: seq<real>, a: real, b: real)
    requires Line(w, a, b)
    ensures Sum(w) == a * |w| as real + b * SumT(|w|)
    ensures SumTCost(w) == a * SumT(|w|) + b * SumT2(|w|)
  {
    hide SumT, SumT2, Sum, SumTCost;
    GapOf(w, 0.0, 0.0);
    SumT2Of(|w|);
    if w != [] {
      var init, x, y := w[..|w| - 1], (|w| - 1) as real, w[|w| - 1];
      LineSums(init, a, b);
      LineStep(a, b, x, y, Sum(init), SumTCost(init), SumT(|w| - 1), SumT2(|w| - 1));
      assert |w| as real == x + 1.0;
    }
  }

  lemma SumT2Of(n: nat)
    ensures SumT2(n) == if n == 0 then 0.0 else SumT2(n - 1) + (n - 1) as real * (n - 1) as real
  {
  }

  lemma LineStep(a: real, b: real, x: real, y: real, s: real, p: real, t: real, u: real)
    requires y == a + b * x && s == a * x + b * t && p == a * t + b * u
    ensures s + y == a * (x + 1.0) + b * (t + x) && p + x * y == a * (t + x) + b * (u + x * x)
  {
  }

  /** The slope of a straight line is its own. */
  lemma SlopeOfLine(w: seq<real>, a: real, b: real)
    requires |w| >= 2 && Line(w, a, b)
    ensures Denominator(|w|) != 0.0 && Slope(w) == b
  {
    hide SumT, SumT2, Sum, SumTCost;
    DenominatorClosed(|w|);
    LineSums(w, a, b);
    LineNumerator(|w| as real, SumT(|w|), SumT2(|w|), a, b);
    QuotientOf(Numerator(w), Denominator(|w|), b);
  }

  lemma LineNumerator(x: real, t: real, u: real, a: real, b: real)
    ensures x * (a * t + b * u) - t * (a * x + b * t) == b * (x * u - t * t)
  {
  }

  lemma QuotientOf(p: real, q: real, b: real)
    requires q != 0.0 && p == b * q
    ensures p / q == b
  {
  }

  // ---------- Chebyshev's sum inequality ----------

  /** What the next cost `c` adds to the numerator: each earlier cost, weighted by its distance. */
  function Gap(w: seq<real>, k: real, c: real): real {
    if w == [] then 0.0
    else Gap(w[..|w| - 1], k, c) + Weighted(k - (|w| - 1) as real, c - w[|w| - 1])
  }

  function Weighted(weight: real, x: real): real {
    weight * x
  }

  lemma {:induction false} GapSums(w: seq<real>, k: real, c: real)
    ensures Gap(w, k, c) == k * |w| as real * c - k * Sum(w) - c * SumT(|w|) + SumTCost(w)
  {
    hide SumT, Sum, SumTCost, Gap;
    if w == [] {
      GapOf(w, k, c);
    } else {
      GapOf(w, k, c);
      GapSums(w[..|w| - 1], k, c);
      GapAlgebra(k, c, (|w| - 1) as real, w[|w| - 1], Sum(w[..|w| - 1]), SumT(|w| - 1), SumTCost(w[..|w| - 1]));
    }
  }

  /** The four sums over `w`, one step unfolded. */
  lemma GapOf(w: seq<real>, k: real, c: real)
    ensures w == [] ==> Gap(w, k, c) == 0.0 && Sum(w) == 0.0 && SumT(|w|) == 0.0 && SumTCost(w) == 0.0
    ensures w != [] ==>
      var init, x, y := w[..|w| - 1], (|w| - 1) as real, w[|w| - 1];
      && Gap(w, k, c) == Gap(init, k, c) + (k - x) * (c - y)
      && Sum(w) == Sum(init) + y && SumT(|w|) == SumT(|w| - 1) + x && SumTCost(w) == SumTCost(init) + x * y
  {
  }

  lemma GapAlgebra(k: real, c: real, x: real, y: real, s: real, t: real, p: real)
    ensures (k * x * c - k * s - c * t + p) + (k - x) * (c - y) ==
      k * (x + 1.0) * c - k * (s + y) - c * (t + x) + (p + x * y)
  {
  }

  lemma NumeratorSnoc(w: seq<real>, c: real)
    ensures Numerator(w + [c]) == Numerator(w) + Gap(w, |w| as real, c)
  {
    hide SumT, Sum, SumTCost, Gap;
    GapSums(w, |w| as real, c);
    GapOf(w + [c], 0.0, 0.0);
    assert (w + [c])[..|w|] == w;
    NumeratorAlgebra(|w| as real, c, Sum(w), SumT(|w|), SumTCost(w));
  }

  lemma NumeratorAlgebra(x: real, c: real, s: real, t: real, p: real)
    ensures (x + 1.0) * (p + x * c) - (t + x) * (s + c) == (x * p - t * s) + (x * x * c - x * s - c * t + p)
  {
  }

  ghost predicate Nondecreasing(w: seq<real>) {
    forall i, j :: 0 <= i < j < |w| ==> w[i] <= w[j]
  }

  ghost predicate Nonincreasing(w: seq<real>) {
    forall i, j :: 0 <= i < j < |w| ==> w[i] >= w[j]
  }

  ghost predicate Constant(w: seq<real>) {
    forall i, j :: 0 <= i < j < |w| ==> w[i] == w[j]
  }

  lemma {:induction false} GapSign(w: seq<real>, k: real, c: real)
    requires k >= |w| as real
    ensures (forall i :: 0 <= i < |w| ==> w[i] <= c) ==> Gap(w, k, c) >= 0.0
    ensures (forall i :: 0 <= i < |w| ==> w[i] >= c) ==> Gap(w, k, c) <= 0.0
    ensures (forall i :: 0 <= i < |w| ==> w[i] <= c) && Gap(w, k, c) == 0.0 ==> forall i :: 0 <= i < |w| ==> w[i] == c
  {
    hide Gap;
    if w == [] {
      GapOf(w, k, c);
    } else {
      var init := w[..|w| - 1];
      GapSign(init, k, c);
      LastGap(w, k, c);
      assert forall i :: 0 <= i < |init| ==> init[i] == w[i];
    }
  }

  /** The last cost of `w` moves the gap in the direction of its own distance to `c`. */
  lemma LastGap(w: seq<real>, k: real, c: real)
    requires w != [] && k >= |w| as real
    ensures var g, h, y := Gap(w, k, c), Gap(w[..|w| - 1], k, c), w[|w| - 1];
      && (h >= 0.0 && y <= c ==> g >= 0.0 && (g == 0.0 ==> h == 0.0 && y == c))
      && (h <= 0.0 && y >= c ==> g <= 0.0)
  {
    hide Weighted;
    OneMoreGap(Gap(w[..|w| - 1], k, c), k - (|w| - 1) as real, c - w[|w| - 1]);
  }

  lemma OneMoreGap(gap: real, a: real, b: real)
    requires a > 0.0
    ensures gap >= 0.0 && b >= 0.0 ==>
      gap + Weighted(a, b) >= 0.0 && (gap + Weighted(a, b) == 0.0 ==> gap == 0.0 && b == 0.0)
    ensures gap <= 0.0 && b <= 0.0 ==> gap + Weighted(a, b) <= 0.0
  {
    Product(a, b);
  }

  lemma Product(a: real, b: real)
    requires a > 0.0
    ensures (b >= 0.0 <==> a * b >= 0.0) && (b <= 0.0 <==> a * b <= 0.0) && (a * b == 0.0 ==> b == 0.0)
  {
  }

  /** A window that never falls has a numerator of at least zero, and zero only if it is flat; a
      window that never rises has one of at most zero. */
  lemma {:induction false} ChebyshevSum(w: seq<real>)
    ensures Nondecreasing(w) ==> Numerator(w) >= 0.0 && (Numerator(w) == 0.0 ==> Constant(w))
    ensures Nonincreasing(w) ==> Numerator(w) <= 0.0
  {
    if w != [] {
      var init, c := w[..|w| - 1], w[|w| - 1];
      assert w == init + [c];
      ChebyshevSum(init);
      NumeratorSnoc(init, c);
      GapSign(init, |init| as real, c);
    }
  }

  lemma {:induction false} ConstantSums(w: seq<real>)
    requires w != [] && Constant(w)
    ensures Sum(w) == w[0] * |w| as real && Numerator(w) == 0.0
  {
    forall i | 0 <= i < |w|
      ensures w[i] == w[0] + 0.0 * i as real
    {
    }
    LineSums(w, w[0], 0.0);
    var x, t := |w| as real, SumT(|w|);
    assert x * (w[0] * t) - t * (w[0] * x) == 0.0;
  }

  lemma QuotientSign(a: real, b: real)
    requires b > 0.0
    ensures (a / b > 0.0 <==> a > 0.0) && (a / b == 0.0 <==> a == 0.0)
  {
  }

  /** A window that never falls is reported as decreasing exactly when it is flat and the
      thresholds let a slope of zero through, that is, when the absolute threshold is not positive
      or the level times the relative threshold is not. */
  lemma RisingWindowIsDecreasingOnlyIfFlat(costs: seq<real>, cfg: TrendConfig)
    requires Nondecreasing(Window(costs, cfg))
    ensures var w := Window(costs, cfg);
      DetectTrend(costs, cfg) == Some(Decreasing)
      <==> |w| >= Max(2, cfg.minMonths) && Constant(w) && (cfg.slopeMinAbs <= 0.0 || w[0] * cfg.slopeMinPct <= 0.0)
  {
    hide Numerator, Denominator, Sum, Nondecreasing, Constant, Window;
    var w := Window(costs, cfg);
    DenominatorClosed(|w|);
    ChebyshevSum(w);
    if |w| >= 2 {
      QuotientSign(Numerator(w), Denominator(|w|));
      if Constant(w) {
        ConstantSums(w);
        QuotientOf(Sum(w), |w| as real, w[0]);
      }
    }
  }

  const TREND_DEFAULTS := TrendConfig(6, 3, 50.0, 0.1)

  /** With the default settings a window that never falls is reported as decreasing exactly when it
      is flat, of three months or more, and no charge. Months without cost are never stored, so this
      takes a flat credit; a window of charges that never falls is never reported so. */
  lemma DefaultsReportFlatCredits(costs: seq<real>)
    requires Nondecreasing(Window(costs, TREND_DEFAULTS))
    ensures var w := Window(costs, TREND_DEFAULTS);
      DetectTrend(costs, TREND_DEFAULTS) == Some(Decreasing) <==> |w| >= 3 && Constant(w) && w[0] <= 0.0
  {
    RisingWindowIsDecreasingOnlyIfFlat(costs, TREND_DEFAULTS);
  }

  /** It happens: the same credit in three months or more is reported as decreasing. */
  lemma FlatCreditIsDecreasing(costs: seq<real>, credit: real)
    requires credit < 0.0 && |costs| >= 3 && forall i :: 0 <= i < |costs| ==> costs[i] == credit
    ensures DetectTrend(costs, TREND_DEFAULTS) == Some(Decreasing)
  {
    DefaultsReportFlatCredits(costs);
  }

  /** A window is reported as increasing only if some month in it cost more than an earlier one. */
  lemma FallingWindowIsNeverIncreasing(costs: seq<real>, cfg: TrendConfig)
    requires DetectTrend(costs, cfg) == Some(Increasing)
    ensures var w := Window(costs, cfg); exists i, j :: 0 <= i < j < |w| && w[i] < w[j]
  {
    hide Numerator, Denominator, Sum, Window;
    var w := Window(costs, cfg);
    DenominatorClosed(|w|);
    ChebyshevSum(w);
    if |w| >= 2 {
      QuotientSign(Numerator(w), Denominator(|w|));
    }
  }

  /** The level in the middle of a line over `x` months. */
  function LineMean(a: real, b: real, x: real): real {
    a + b * (x - 1.0) / 2.0
  }

  /** A straight line is reported exactly when its rise or fall per month reaches the absolute threshold
      or the relative one, and in its direction. */
  lemma LineIsReported(costs: seq<real>, cfg: TrendConfig, a: real, b: real)
    requires var w := Window(costs, cfg);
      |w| >= Max(2, cfg.minMonths) && Line(w, a, b)
    ensures DetectTrend(costs, cfg) == Verdict(b, LineMean(a, b, |Window(costs, cfg)| as real), cfg)
  {
    hide Numerator, Denominator, Sum, Window, Slope, LineMean, DetectTrend, SlopeReaches, Line, Verdict;
    var w := Window(costs, cfg);
    var mean := LineMean(a, b, |w| as real);
    assert Denominator(|w|) != 0.0 by { DenominatorClosed(|w|); }
    SlopeOfLine(w, a, b);
    MeanOfWindow(w, a, b);
    TrendOf(costs, cfg, b, mean);
  }

  /** A rise of `b` a month is increasing, a fall decreasing, when it is at least the absolute
      threshold or that share of the mean. */
  function Verdict(b: real, mean: real, cfg: TrendConfig): Option<Signal> {
    if b > 0.0 && (b >= cfg.slopeMinAbs || b >= mean * cfg.slopeMinPct) then Some(Increasing)
    else if b <= 0.0 && (-b >= cfg.slopeMinAbs || -b >= mean * cfg.slopeMinPct) then Some(Decreasing)
    else None
  }

  /** With the default settings: the last six months, three of them at least, and a change of 50 a month or of
      a tenth of the mean. */
  lemma DefaultTrend(costs: seq<real>, a: real, b: real)
    requires 3 <= |costs| <= 6 && Line(costs, a, b)
    ensures var change, mean := if b > 0.0 then b else -b, LineMean(a, b, |costs| as real);
      DetectTrend(costs, TREND_DEFAULTS) ==
        if change < 50.0 && 10.0 * change < mean then None
        else if b > 0.0 then Some(Increasing) else Some(Decreasing)
    ensures |costs| == 6 ==> forall older: seq<real> ::
      DetectTrend(older + costs, TREND_DEFAULTS) == DetectTrend(costs, TREND_DEFAULTS)
    ensures forall few :: few < costs && |few| < 3 ==> DetectTrend(few, TREND_DEFAULTS) == None
  {
    assert Window(costs, TREND_DEFAULTS) == costs;
    assert Verdict(b, LineMean(a, b, |costs| as real), TREND_DEFAULTS) ==
      DetectTrend(costs, TREND_DEFAULTS) by {
      hide DetectTrend, LineMean, Verdict, Line;
      LineIsReported(costs, TREND_DEFAULTS, a, b);
    }
    hide DetectTrend, LineMean;
    forall older: seq<real> | |costs| == 6
      ensures DetectTrend(older + costs, TREND_DEFAULTS) == DetectTrend(costs, TREND_DEFAULTS)
    {
      OlderMonthsDoNotMatter(older, costs, TREND_DEFAULTS);
    }
    forall few | few < costs && |few| < 3
      ensures DetectTrend(few, TREND_DEFAULTS) == None
    {
      NoTrend(few, TREND_DEFAULTS);
    }
  }

  lemma TrendOf(costs: seq<real>, cfg: TrendConfig, slope: real, mean: real)
    requires var w := Window(costs, cfg);
      |w| >= Max(2, cfg.minMonths) && Denominator(|w|) != 0.0 && Slope(w) == slope && Sum(w) / |w| as real == mean
    ensures DetectTrend(costs, cfg) == Verdict(slope, mean, cfg)
  {
    hide Window, Denominator, Slope, Sum;
  }

  lemma MeanOfWindow(w: seq<real>, a: real, b: real)
    requires w != [] && Line(w, a, b)
    ensures Sum(w) / |w| as real == LineMean(a, b, |w| as real)
  {
    hide Sum, SumT, Line, LineMean;
    SumOfLine(w, a, b);
    SumTIs(|w|);
    MeanOfLine(a, b, |w| as real, SumT(|w|), Sum(w));
  }

  lemma SumOfLine(w: seq<real>, a: real, b: real)
    requires Line(w, a, b)
    ensures Sum(w) == a * |w| as real + b * SumT(|w|)
  {
    LineSums(w, a, b);
  }

  lemma SumTIs(n: nat)
    ensures 2.0 * SumT(n) == n as real * (n as real - 1.0)
  {
    SumTClosed(n);
  }

  lemma MeanOfLine(a: real, b: real, x: real, t: real, s: real)
    requires x > 0.0 && 2.0 * t == x * (x - 1.0) && s == a * x + b * t
    ensures s / x == LineMean(a, b, x)
  {
    var m := LineMean(a, b, x);
    assert s == m * x by {
      assert b * t == b * ((x * (x - 1.0)) / 2.0);
    }
    QuotientOf(s, x, m);
  }

  // ---------- Least squares ----------

  /** The sum of the squared distances of the costs to the line `a + b * t`. */
  function Residuals(w: seq<real>, a: real, b: real): real {
    if w == [] then 0.0 else Residuals(w[..|w| - 1], a, b) + Squared(w[|w| - 1] - (a + b * (|w| - 1) as real))
  }

  function Squared(x: real): real {
    x * x
  }

  /** The sum of the squared distances from the five sums. */
  function FromSums(a: real, b: real, n: real, t: real, u: real, s: real, p: real, q: real): real {
    q - 2.0 * a * s - 2.0 * b * p + a * a * n + 2.0 * a * b * t + b * b * u
  }

  lemma {:induction false} ResidualsExpand(w: seq<real>, a: real, b: real)
    ensures Residuals(w, a, b) ==
      FromSums(a, b, |w| as real, SumT(|w|), SumT2(|w|), Sum(w), SumTCost(w), SumSquares(w, 0.0))
  {
    hide SumT, SumT2, Sum, SumTCost, SumSquares, FromSums, Residuals, Squared;
    if w == [] {
      ResidualsOfNothing(w, a, b);
    } else {
      GapOf(w, 0.0, 0.0);
      SumT2Of(|w|);
      SumSquaresOf(w, 0.0);
      ResidualsOf(w, a, b);
      var init, x, y := w[..|w| - 1], (|w| - 1) as real, w[|w| - 1];
      ResidualsExpand(init, a, b);
      ResidualStep(a, b, x, y, SumT(|w| - 1), SumT2(|w| - 1), Sum(init), SumTCost(init), SumSquares(init, 0.0));
      assert |w| as real == x + 1.0;
      assert (y - 0.0) * (y - 0.0) == y * y;
    }
  }

  lemma ResidualsOf(w: seq<real>, a: real, b: real)
    ensures Residuals(w, a, b) ==
      if w == [] then 0.0 else Residuals(w[..|w| - 1], a, b) + Squared(w[|w| - 1] - (a + b * (|w| - 1) as real))
  {
  }

  lemma ResidualsOfNothing(w: seq<real>, a: real, b: real)
    requires w == []
    ensures Residuals(w, a, b) ==
      FromSums(a, b, |w| as real, SumT(|w|), SumT2(|w|), Sum(w), SumTCost(w), SumSquares(w, 0.0))
  {
  }

  lemma ResidualStep(a: real, b: real, x: real, y: real, t: real, u: real, s: real, p: real, q: real)
    ensures FromSums(a, b, x, t, u, s, p, q) + Squared(y - (a + b * x)) ==
      FromSums(a, b, x + 1.0, t + x, u + x * x, s + y, p + x * y, q + y * y)
  {
    assert (y - (a + b * x)) * (y - (a + b * x)) ==
      y * y - 2.0 * a * y - 2.0 * b * (x * y) + a * a + 2.0 * a * b * x + b * b * (x * x);
  }

  /** Where the slope of the source is part of a line, this is the level at month zero. */
  function Intercept(w: seq<real>): real
    requires |w| >= 1 && Denominator(|w|) != 0.0
  {
    (Sum(w) - Slope(w) * SumT(|w|)) / |w| as real
  }

  /** Whatever the costs, the slope is that of the one line that lies closest to them: every other line has
      a greater sum of squared distances. */
  lemma SlopeIsLeastSquares(w: seq<real>, a: real, b: real)
    requires |w| >= 2
    ensures Denominator(|w|) != 0.0
    ensures Residuals(w, Intercept(w), Slope(w)) <= Residuals(w, a, b)
    ensures Residuals(w, Intercept(w), Slope(w)) == Residuals(w, a, b) ==> a == Intercept(w) && b == Slope(w)
  {
    hide SumT, SumT2, Sum, SumTCost, SumSquares, FromSums, Residuals;
    DenominatorClosed(|w|);
    var n, t, u, s, p, q :=
      |w| as real, SumT(|w|), SumT2(|w|), Sum(w), SumTCost(w), SumSquares(w, 0.0);
    var a0, b0 := Intercept(w), Slope(w);
    ResidualsExpand(w, a0, b0);
    ResidualsExpand(w, a, b);
    Undivide(Numerator(w), Denominator(|w|));
    Undivide(s - b0 * t, n);
    ClosestLine(n, t, u, s, p, q, a0, b0, a, b);
  }

  lemma Undivide(p: real, q: real)
    requires q != 0.0
    ensures (p / q) * q == p
  {
  }

  lemma ClosestLine(n: real, t: real, u: real, s: real, p: real, q: real, a0: real, b0: real, a: real, b: real)
    requires n > 0.0 && n * u - t * t > 0.0
    requires b0 * (n * u - t * t) == n * p - t * s && a0 * n == s - b0 * t
    ensures FromSums(a0, b0, n, t, u, s, p, q) <= FromSums(a, b, n, t, u, s, p, q)
    ensures FromSums(a0, b0, n, t, u, s, p, q) == FromSums(a, b, n, t, u, s, p, q) ==> a == a0 && b == b0
  {
    var da, db, d := a - a0, b - b0, n * u - t * t;
    var form := da * da * n + 2.0 * da * db * t + db * db * u;
    SecondNormalEquation(n, t, u, s, p, a0, b0);
    Difference(n, t, u, s, p, q, a0, b0, da, db);
    CompletedSquare(n, t, u, da, db);
    Square(n * da + t * db);
    Square(db);
    Product(d, db * db);
    Product(n, form);
    if form == 0.0 {
      assert db == 0.0;
      assert n * da == 0.0;
      Product(n, da);
    }
  }

  lemma SecondNormalEquation(n: real, t: real, u: real, s: real, p: real, a0: real, b0: real)
    requires n > 0.0 && b0 * (n * u - t * t) == n * p - t * s && a0 * n == s - b0 * t
    ensures a0 * t + b0 * u == p
  {
    assert n * (a0 * t + b0 * u - p) == 0.0 by {
      assert n * (a0 * t + b0 * u - p) == (a0 * n) * t + b0 * (n * u) - n * p;
      assert (a0 * n) * t == s * t - b0 * (t * t);
      assert b0 * (n * u - t * t) == b0 * (n * u) - b0 * (t * t);
    }
    Product(n, a0 * t + b0 * u - p);
  }

  lemma Difference(n: real, t: real, u: real, s: real, p: real, q: real, a0: real, b0: real, da: real, db: real)
    requires a0 * n == s - b0 * t && a0 * t + b0 * u == p
    ensures FromSums(a0 + da, b0 + db, n, t, u, s, p, q) ==
      FromSums(a0, b0, n, t, u, s, p, q) + (da * da * n + 2.0 * da * db * t + db * db * u)
  {
    assert FromSums(a0 + da, b0 + db, n, t, u, s, p, q) - FromSums(a0, b0, n, t, u, s, p, q) ==
      2.0 * da * (a0 * n + b0 * t - s) + 2.0 * db * (a0 * t + b0 * u - p)
      + (da * da * n + 2.0 * da * db * t + db * db * u);
  }

  lemma CompletedSquare(n: real, t: real, u: real, da: real, db: real)
    ensures n * (da * da * n + 2.0 * da * db * t + db * db * u) ==
      (n * da + t * db) * (n * da + t * db) + (n * u - t * t) * (db * db)
  {
  }

  /** No other line is closer to the costs. */
  ghost predicate ClosestTo(w: seq<real>, a: real, b: real) {
    forall c, d :: Residuals(w, a, b) <= Residuals(w, c, d)
  }

  predicate IsMean(w: seq<real>, mean: real) {
    mean * |w| as real == Sum(w)
  }

  /** The last `months` of the costs, or all of them. */
  function LastMonths(costs: seq<real>, months: int): seq<real>
    requires months >= 1
  {
    if |costs| <= months then costs else costs[|costs| - months..]
  }

  /** The trend over the last `windowMonths` months: with two of them or more, and no fewer than
      required, it is the verdict on the closest line and the mean; with fewer there is none. */
  lemma TrendExactly(costs: seq<real>, cfg: TrendConfig, a: real, b: real, mean: real)
    requires cfg.windowMonths >= 1
    ensures var w := LastMonths(costs, cfg.windowMonths);
      && (|w| < 2 || |w| < cfg.minMonths ==> DetectTrend(costs, cfg) == None)
      && (|w| >= 2 && |w| >= cfg.minMonths && ClosestTo(w, a, b) && IsMean(w, mean) ==>
        DetectTrend(costs, cfg) == Verdict(b, mean, cfg))
  {
    hide DetectTrend, Denominator, Slope, Sum, ClosestTo, Verdict, IsMean;
    var w := LastMonths(costs, cfg.windowMonths);
    WindowIsLast(costs, cfg);
    hide LastMonths, Window;
    if |w| < 2 || |w| < cfg.minMonths {
      NoTrend(costs, cfg);
    } else if ClosestTo(w, a, b) && IsMean(w, mean) {
      ClosestHasSlope(w, a, b);
      MeanIs(w, mean);
      TrendOf(costs, cfg, b, mean);
    }
  }

  /** There always are such a line and such a mean. */
  lemma SomeLineIsClosest(w: seq<real>) returns (a: real, b: real, mean: real)
    requires |w| >= 2
    ensures ClosestTo(w, a, b) && IsMean(w, mean)
  {
    hide Residuals, Slope, Intercept, Denominator, Sum;
    SlopeIsLeastSquares(w, 0.0, 0.0);
    a, b, mean := Intercept(w), Slope(w), Sum(w) / |w| as real;
    forall c, d
      ensures Residuals(w, a, b) <= Residuals(w, c, d)
    {
      SlopeIsLeastSquares(w, c, d);
    }
    Undivide(Sum(w), |w| as real);
  }

  lemma MeanIs(w: seq<real>, mean: real)
    requires w != [] && IsMean(w, mean)
    ensures Sum(w) / |w| as real == mean
  {
    QuotientOf(Sum(w), |w| as real, mean);
  }

  lemma WindowIsLast(costs: seq<real>, cfg: TrendConfig)
    requires cfg.windowMonths >= 1
    ensures Window(costs, cfg) == LastMonths(costs, cfg.windowMonths)
  {
  }

  lemma NoTrend(costs: seq<real>, cfg: TrendConfig)
    requires |Window(costs, cfg)| < 2 || |Window(costs, cfg)| < cfg.minMonths
    ensures DetectTrend(costs, cfg) == None
  {
    DenominatorClosed(|Window(costs, cfg)|);
    hide Window, Slope, Sum, Denominator;
  }

  lemma ClosestHasSlope(w: seq<real>, a: real, b: real)
    requires |w| >= 2 && ClosestTo(w, a, b)
    ensures Denominator(|w|) != 0.0 && Slope(w) == b
  {
    hide Residuals, Slope, Intercept, Denominator;
    SlopeIsLeastSquares(w, a, b);
  }

  /** With a month or none there is no trend, and older months never matter. */
  lemma OlderMonthsDoNotMatter(older: seq<real>, costs: seq<real>, cfg: TrendConfig)
    requires 1 <= cfg.windowMonths <= |costs|
    ensures DetectTrend(older + costs, cfg) == DetectTrend(costs, cfg)
  {
    assert Window(older + costs, cfg) == Window(costs, cfg);
  }

  // ---------- The z-score ----------

  datatype Detection = Quiet | SpikeByZscore | DropByZscore | SpikeByAverage | DivisionByZero

  datatype AverageConfig = AverageConfig(
    minMonths: int, windowMonths: int, thresholdPct: real, enableZscore: bool, zscoreThreshold: real)

  function Mean(w: seq<real>): real
    requires w != []
  {
    Sum(w) / |w| as real
  }

  function Variance(w: seq<real>): real
    requires w != []
  {
    SumSquares(w, Mean(w)) / |w| as real
  }

  /** `abs(zscore) >= k` without the square root; see SquaredComparison. */
  predicate Reaches(deviation: real, variance: real, k: real) {
    k <= 0.0 || deviation * deviation >= k * k * variance
  }

  lemma SquaredComparison(deviation: real, variance: real, stddev: real, k: real)
    requires stddev > 0.0 && stddev * stddev == variance
    ensures Reaches(deviation, variance, k) <==> Abs(deviation / stddev) >= k
  {
    var z := deviation / stddev;
    assert z * stddev == deviation;
    SquareOfProduct(z, stddev);
    Square(stddev);
    if k > 0.0 {
      SquareOrder(Abs(z), k);
      assert Abs(z) * Abs(z) == z * z;
      MultiplyOrder(k * k, z * z, variance);
    }
  }

  lemma SquareOfProduct(z: real, s: real)
    ensures (z * s) * (z * s) == z * z * (s * s)
  {
  }

  lemma SquareOrder(a: real, b: real)
    requires a >= 0.0 && b >= 0.0
    ensures a >= b <==> a * a >= b * b
  {
    assert (a + b) * (a - b) == a * a - b * b;
    if a + b > 0.0 {
      Product(a + b, a - b);
    }
  }

  lemma MultiplyOrder(a: real, b: real, v: real)
    requires v > 0.0
    ensures a <= b <==> a * v <= b * v
  {
    Product(v, b - a);
    assert v * (b - a) == b * v - a * v;
  }

  /** `records` are the costs of one service in time order; the last is the current one. */
  function DetectMovingAvg(records: seq<real>, cfg: AverageConfig): Detection
    requires records != []
  {
    var current, w := records[|records| - 1], LastN(records, cfg.windowMonths);
    if |records| < cfg.minMonths + 1 || |w| < cfg.minMonths then Quiet
    else if w == [] then DivisionByZero
    else if Mean(w) <= 0.0 then Quiet
    else if cfg.enableZscore && Variance(w) > 0.0 then
      if !Reaches(current - Mean(w), Variance(w), cfg.zscoreThreshold) then Quiet
      else if current > Mean(w) then SpikeByZscore
      else DropByZscore
    else if current >= Mean(w) * (1.0 + cfg.thresholdPct / 100.0) then SpikeByAverage
    else Quiet
  }

  /** The moving-average detector over the last `windowMonths` months in terms of their mean `m` and their
      standard deviation `s`. */
  lemma MovingAverageExactly(records: seq<real>, cfg: AverageConfig, m: real, s: real)
    requires records != [] && cfg.windowMonths >= 1
    requires var w := LastMonths(records, cfg.windowMonths);
      s >= 0.0 && IsMean(w, m) && s * s * |w| as real == SumSquares(w, m)
    ensures var w, current := LastMonths(records, cfg.windowMonths), records[|records| - 1];
      DetectMovingAvg(records, cfg) ==
        if |records| <= cfg.minMonths || |w| < cfg.minMonths || m <= 0.0 then Quiet
        else if !cfg.enableZscore || s == 0.0 then
          if 100.0 * current >= m * (100.0 + cfg.thresholdPct) then SpikeByAverage else Quiet
        else if current > m && (current - m) / s >= cfg.zscoreThreshold then SpikeByZscore
        else if current <= m && (m - current) / s >= cfg.zscoreThreshold then DropByZscore
        else Quiet
  {
    hide LastMonths, Sum, SumSquares, LastN, Reaches, DetectMovingAvg, Mean, Variance;
    var w, current := LastMonths(records, cfg.windowMonths), records[|records| - 1];
    RecordsAreLast(records, cfg.windowMonths);
    MomentsOf(w, m, s);
    AboveByPercent(current, m, cfg.thresholdPct);
    if s > 0.0 {
      Product(s, s);
      SquaredComparison(current - m, s * s, s, cfg.zscoreThreshold);
      DeviationSign(current - m, s);
    }
    AverageOf(records, cfg, w, m, s * s);
  }

  /** It divides by zero exactly when no history is required and a negative window drops every month. */
  lemma DividesByZeroExactly(records: seq<real>, cfg: AverageConfig)
    requires records != []
    ensures DetectMovingAvg(records, cfg) == DivisionByZero <==>
      cfg.minMonths <= 0 && cfg.windowMonths <= -|records|
  {
    hide Mean, Variance, Reaches;
  }

  lemma RecordsAreLast(records: seq<real>, months: int)
    requires records != [] && months >= 1
    ensures LastN(records, months) == LastMonths(records, months) != []
  {
  }

  lemma MomentsOf(w: seq<real>, m: real, s: real)
    requires w != [] && IsMean(w, m) && s * s * |w| as real == SumSquares(w, m)
    ensures Mean(w) == m && Variance(w) == s * s
  {
    hide Sum, SumSquares;
    QuotientOf(Sum(w), |w| as real, m);
    QuotientOf(SumSquares(w, m), |w| as real, s * s);
  }

  lemma AverageOf(records: seq<real>, cfg: AverageConfig, w: seq<real>, m: real, v: real)
    requires records != [] && w == LastN(records, cfg.windowMonths) && w != [] && m == Mean(w) && v == Variance(w)
    ensures var current := records[|records| - 1];
      DetectMovingAvg(records, cfg) ==
        if |records| < cfg.minMonths + 1 || |w| < cfg.minMonths || m <= 0.0 then Quiet
        else if !cfg.enableZscore || v <= 0.0 then
          if current >= m * (1.0 + cfg.thresholdPct / 100.0) then SpikeByAverage else Quiet
        else if !Reaches(current - m, v, cfg.zscoreThreshold) then Quiet
        else if current > m then SpikeByZscore
        else DropByZscore
  {
    hide LastN, Mean, Variance, Reaches;
  }

  lemma AboveByPercent(current: real, m: real, pct: real)
    ensures current >= m * (1.0 + pct / 100.0) <==> 100.0 * current >= m * (100.0 + pct)
  {
    assert 100.0 * (m * (1.0 + pct / 100.0)) == m * (100.0 + pct);
  }

  lemma DeviationSign(d: real, s: real)
    requires s > 0.0
    ensures Abs(d / s) == if d > 0.0 then d / s else -d / s
  {
    QuotientSign(d, s);
    QuotientOf(-d, s, -(d / s));
  }

  // ---------- Samuelson's inequality ----------

  function SumDeviations(w: seq<real>, m: real): real {
    Sum(w) - m * |w| as real
  }

  lemma {:induction false} CauchySchwarz(w: seq<real>, m: real)
    ensures SumSquares(w, m) >= 0.0
    ensures SumDeviations(w, m) * SumDeviations(w, m) <= |w| as real * SumSquares(w, m)
  {
    hide Sum, SumSquares;
    SumOf(w);
    SumSquaresOf(w, m);
    if w != [] {
      var init := w[..|w| - 1];
      CauchySchwarz(init, m);
      var d, k := w[|w| - 1] - m, |init| as real;
      assert SumDeviations(w, m) == SumDeviations(init, m) + d by {
        assert m * |w| as real == m * k + m;
      }
      Square(d);
      CauchyStep(SumDeviations(init, m), SumSquares(init, m), k, d);
    } else {
      assert SumDeviations(w, m) == 0.0;
    }
  }

  lemma SumOf(w: seq<real>)
    ensures Sum(w) == if w == [] then 0.0 else Sum(w[..|w| - 1]) + w[|w| - 1]
  {
  }

  lemma Square(d: real)
    ensures d * d >= 0.0 && (d * d == 0.0 ==> d == 0.0)
  {
    if d > 0.0 {
      Product(d, d);
    } else if d < 0.0 {
      Product(-d, -d);
      assert (-d) * (-d) == d * d;
    }
  }

  lemma CauchyStep(s: real, q: real, k: real, d: real)
    requires k >= 0.0 && q >= 0.0 && s * s <= k * q && (k == 0.0 || k >= 1.0)
    ensures (s + d) * (s + d) <= (k + 1.0) * (q + d * d)
  {
    if k == 0.0 {
      Square(s);
    } else {
      var r := q + k * d * d - 2.0 * s * d;
      Square(s - k * d);
      CauchyAlgebra(s, q, k, d);
      assert k * r >= 0.0;
      Product(k, r);
    }
  }

  lemma CauchyAlgebra(s: real, q: real, k: real, d: real)
    ensures k * (q + k * d * d - 2.0 * s * d) == (s - k * d) * (s - k * d) + (k * q - s * s)
    ensures (k + 1.0) * (q + d * d) - (s + d) * (s + d) == (k * q - s * s) + (q + k * d * d - 2.0 * s * d)
  {
  }

  /** Samuelson's inequality: the current cost, itself in the window, is at most
      `sqrt(n - 1)` standard deviations from the mean. */
  lemma Samuelson(w: seq<real>)
    requires w != []
    ensures var d := w[|w| - 1] - Mean(w);
      d * d <= (|w| - 1) as real * Variance(w)
  {
    hide Sum, SumSquares;
    var init, m, n := w[..|w| - 1], Mean(w), |w| as real;
    var d, q := w[|w| - 1] - m, SumSquares(init, m);
    CauchySchwarz(init, m);
    SumOf(w);
    SumSquaresOf(w, m);
    assert m * n == Sum(w);
    assert SumDeviations(init, m) == -d by {
      assert m * n == m * (n - 1.0) + m;
    }
    assert Variance(w) * n == q + d * d;
    assert (-d) * (-d) == d * d;
    SamuelsonStep(d * d, q, n, Variance(w));
  }

  lemma SumSquaresOf(w: seq<real>, m: real)
    ensures SumSquares(w, m) ==
      if w == [] then 0.0 else SumSquares(w[..|w| - 1], m) + (w[|w| - 1] - m) * (w[|w| - 1] - m)
  {
  }

  lemma SamuelsonStep(d2: real, q: real, n: real, v: real)
    requires n >= 1.0 && d2 <= (n - 1.0) * q && v * n == q + d2
    ensures d2 <= (n - 1.0) * v
  {
    var gap := (n - 1.0) * v - d2;
    assert n * gap == (n - 1.0) * (q + d2) - n * d2;
    assert n * gap == (n - 1.0) * q - d2;
    Product(n, gap);
  }

  /** `n` months at the level `c`. */
  function Flat(n: nat, c: real): (w: seq<real>)
    ensures |w| == n && forall i :: 0 <= i < n ==> w[i] == c
  {
    seq(n, i => c)
  }

  lemma {:induction false} FlatSums(n: nat, c: real, m: real)
    ensures Sum(Flat(n, c)) == n as real * c
    ensures SumSquares(Flat(n, c), m) == n as real * ((c - m) * (c - m))
  {
    if n > 0 {
      assert Flat(n, c)[..n - 1] == Flat(n - 1, c);
      FlatSums(n - 1, c, m);
      assert n as real * c == (n - 1) as real * c + c;
      var q := (c - m) * (c - m);
      assert n as real * q == (n - 1) as real * q + q;
    }
  }

  /** Samuelson's bound is met with equality, from above or from below. */
  ghost predicate AtBound(w: seq<real>, above: bool)
    requires w != []
  {
    var d := w[|w| - 1] - Mean(w);
    && Mean(w) > 0.0 && Variance(w) > 0.0 && (if above then d > 0.0 else d < 0.0)
    && d * d == (|w| as real - 1.0) * Variance(w)
  }

  /** The threshold can be reached in a window of `n` months. */
  predicate WithinBound(k: real, n: nat) {
    n >= 2 && (k <= 0.0 || k * k <= n as real - 1.0)
  }

  /** One cost of 2 after months of 1, or one of 1 after months of 2. */
  function Jump(n: nat, above: bool): (w: seq<real>)
    requires n >= 1
    ensures |w| == n && forall i :: 0 <= i < n ==> w[i] > 0.0
  {
    if above then Flat(n - 1, 1.0) + [2.0] else Flat(n - 1, 2.0) + [1.0]
  }

  /** Such a cost meets Samuelson's bound with equality. */
  lemma JumpMeetsBound(n: nat, above: bool)
    requires n >= 2
    ensures AtBound(Jump(n, above), above)
  {
    hide Sum, SumSquares, Flat;
    var w, x, c := Jump(n, above), n as real, if above then 1.0 else 2.0;
    var m := Mean(w);
    assert w[..n - 1] == Flat(n - 1, c);
    FlatSums(n - 1, c, m);
    SumOf(w);
    SumSquaresOf(w, m);
    var q := if above then m - 1.0 else 2.0 - m;
    assert m * x == if above then x + 1.0 else 2.0 * x - 1.0;
    assert q * x == 1.0;
    assert (c - m) * (c - m) == q * q && (w[n - 1] - m) * (w[n - 1] - m) == (1.0 - q) * (1.0 - q);
    assert Variance(w) * x == (x - 1.0) * (q * q) + (1.0 - q) * (1.0 - q);
    SpikeAlgebra(x, q, Variance(w));
  }

  lemma SpikeAlgebra(x: real, m: real, v: real)
    requires x >= 2.0 && m * x == 1.0 && v * x == (x - 1.0) * (m * m) + (1.0 - m) * (1.0 - m)
    ensures 0.0 < m < 1.0 && v > 0.0 && (1.0 - m) * (1.0 - m) == (x - 1.0) * v
  {
    assert m == 1.0 / x;
    var d := 1.0 - m;
    assert d == (x - 1.0) * m by {
      assert (x - 1.0) * m == x * m - m;
    }
    assert v * x == (x - 1.0) * m by {
      calc {
        (x - 1.0) * (m * m) + d * d;
        (x - 1.0) * m * m + d * ((x - 1.0) * m);
        (x - 1.0) * m * (m + d);
      }
    }
    assert v == (x - 1.0) * m * m by {
      assert ((x - 1.0) * m * m) * x == (x - 1.0) * m * (m * x);
    }
    assert (x - 1.0) * v == ((x - 1.0) * m) * ((x - 1.0) * m);
    assert (x - 1.0) * m > 0.0;
  }

  /** With these settings a z-score can reach the threshold on some history: the window is unbounded
      (zero takes all months, a negative one drops the first), or it holds the months required and
      Samuelson's bound allows the threshold. */
  predicate ZscoreCanReport(cfg: AverageConfig) {
    && cfg.enableZscore
    && (|| cfg.windowMonths <= 0
        || (cfg.minMonths <= cfg.windowMonths && WithinBound(cfg.zscoreThreshold, cfg.windowMonths)))
  }

  /** A history of charges; months without cost are never stored. */
  predicate Charged(records: seq<real>) {
    records != [] && forall i :: 0 <= i < |records| ==> records[i] > 0.0
  }

  /** A spike by z-score is reported on some history of charges exactly when the settings allow it, and
      so is a drop; on no history at all is either reported when they do not. */
  lemma ZscoreReportsExactly(cfg: AverageConfig)
    ensures (exists records :: Charged(records) && DetectMovingAvg(records, cfg) == SpikeByZscore) <==>
      ZscoreCanReport(cfg)
    ensures (exists records :: Charged(records) && DetectMovingAvg(records, cfg) == DropByZscore) <==>
      ZscoreCanReport(cfg)
    ensures forall records :: records != [] && !ZscoreCanReport(cfg) ==>
      DetectMovingAvg(records, cfg) != SpikeByZscore && DetectMovingAvg(records, cfg) != DropByZscore
  {
    hide ZscoreCanReport, DetectMovingAvg;
    forall records | records != []
                     && (DetectMovingAvg(records, cfg) == SpikeByZscore
                       || DetectMovingAvg(records, cfg) == DropByZscore)
      ensures ZscoreCanReport(cfg)
    {
      ReportIsAllowed(records, cfg);
    }
    if ZscoreCanReport(cfg) {
      var spiking := HistoryWithJump(cfg, true);
      var dropping := HistoryWithJump(cfg, false);
    }
  }

  lemma ReportIsAllowed(records: seq<real>, cfg: AverageConfig)
    requires records != []
    requires DetectMovingAvg(records, cfg) == SpikeByZscore || DetectMovingAvg(records, cfg) == DropByZscore
    ensures ZscoreCanReport(cfg)
  {
    hide Mean, Variance;
    var w := LastN(records, cfg.windowMonths);
    OneMonthHasNoSpread(w);
    Samuelson(w);
    MultiplyOrder(cfg.zscoreThreshold * cfg.zscoreThreshold, (|w| - 1) as real, Variance(w));
  }

  lemma OneMonthHasNoSpread(w: seq<real>)
    requires w != []
    ensures |w| == 1 ==> Variance(w) == 0.0
  {
    hide Sum, SumSquares;
    SumOf(w);
    SumSquaresOf(w, Mean(w));
    if |w| == 1 {
      SumOf(w[..0]);
      SumSquaresOf(w[..0], Mean(w));
    }
  }

  /** A history whose window ends in a jump and is long enough for the settings. */
  lemma HistoryWithJump(cfg: AverageConfig, above: bool) returns (records: seq<real>)
    requires ZscoreCanReport(cfg)
    ensures Charged(records) && DetectMovingAvg(records, cfg) == if above then SpikeByZscore else DropByZscore
  {
    hide Mean, Variance, DetectMovingAvg, WithinBound, AtBound, Flat;
    var n := LongEnough(cfg);
    var more :=
      if cfg.windowMonths < 0 then -cfg.windowMonths else if cfg.windowMonths > 0 then Max(0, cfg.minMonths + 1) else 0;
    var months := n + more;
    records := Jump(months, above);
    JumpTail(months, n, above);
    assert LastN(records, cfg.windowMonths) == Jump(n, above);
    JumpMeetsBound(n, above);
    JumpIsReported(records, cfg, Jump(n, above), above);
  }

  lemma JumpTail(n: nat, m: nat, above: bool)
    requires 1 <= m <= n
    ensures Jump(n, above)[n - m..] == Jump(m, above)
  {
  }

  lemma LongEnough(cfg: AverageConfig) returns (n: nat)
    requires ZscoreCanReport(cfg)
    ensures n >= 2 && n >= cfg.minMonths && WithinBound(cfg.zscoreThreshold, n)
    ensures if cfg.windowMonths > 0 then n == cfg.windowMonths else n >= cfg.minMonths + 1
  {
    if cfg.windowMonths > 0 {
      n := cfg.windowMonths;
    } else {
      var k2 := cfg.zscoreThreshold * cfg.zscoreThreshold;
      Square(cfg.zscoreThreshold);
      n := Max(cfg.minMonths + 1, k2.Floor + 2);
    }
  }

  lemma JumpIsReported(records: seq<real>, cfg: AverageConfig, w: seq<real>, above: bool)
    requires records != [] && w == LastN(records, cfg.windowMonths) && cfg.enableZscore
    requires |records| >= cfg.minMonths + 1 && |w| >= Max(1, cfg.minMonths) && w[|w| - 1] == records[|records| - 1]
    requires AtBound(w, above) && WithinBound(cfg.zscoreThreshold, |w|)
    ensures DetectMovingAvg(records, cfg) == if above then SpikeByZscore else DropByZscore
  {
    hide Mean, Variance;
    MultiplyOrder(cfg.zscoreThreshold * cfg.zscoreThreshold, |w| as real - 1.0, Variance(w));
  }

  const DEFAULTS := AverageConfig(2, 3, 50.0, true, 2.0)

  lemma {:induction false} NoSpread(w: seq<real>, m: real)
    ensures SumSquares(w, m) >= 0.0
    ensures SumSquares(w, m) == 0.0 ==> forall i :: 0 <= i < |w| ==> w[i] == m
  {
    if w != [] {
      NoSpread(w[..|w| - 1], m);
      Square(w[|w| - 1] - m);
    }
  }

  /** With the default settings the moving-average detector reports nothing, on any history. */
  lemma DefaultsDetectNothing(records: seq<real>)
    requires records != []
    ensures DetectMovingAvg(records, DEFAULTS) == Quiet
  {
    hide Mean, Variance;
    var w := LastN(records, DEFAULTS.windowMonths);
    Samuelson(w);
    FlatWindow(w);
    if Variance(w) > 0.0 {
      MultiplyOrder((|w| - 1) as real, 2.0, Variance(w));
    }
  }

  lemma {:induction false} SumBelow(w: seq<real>, top: real)
    ensures (forall i :: 0 <= i < |w| ==> w[i] <= top) ==> Sum(w) <= top * |w| as real
    ensures (forall i :: 0 <= i < |w| ==> w[i] >= top) ==> Sum(w) >= top * |w| as real
  {
    if w != [] {
      SumBelow(w[..|w| - 1], top);
      assert top * |w| as real == top * (|w| - 1) as real + top;
    }
  }

  lemma MeanOrder(s: real, n: real, top: real)
    requires n > 0.0
    ensures (s <= top * n ==> s / n <= top) && (s >= top * n ==> s / n >= top)
  {
    var m := s / n;
    assert s == m * n;
    MultiplyOrder(m, top, n);
    MultiplyOrder(top, m, n);
  }

  /** The direction of a z-score finding is never absurd: the highest cost of its window is no drop
      and the lowest no spike. */
  lemma ExtremesKeepTheirSign(records: seq<real>, cfg: AverageConfig)
    requires records != [] && cfg.zscoreThreshold > 0.0
    ensures var w, current := LastN(records, cfg.windowMonths), records[|records| - 1];
      && ((forall i :: 0 <= i < |w| ==> w[i] <= current) ==> DetectMovingAvg(records, cfg) != DropByZscore)
      && ((forall i :: 0 <= i < |w| ==> w[i] >= current) ==> DetectMovingAvg(records, cfg) != SpikeByZscore)
  {
    var w, current := LastN(records, cfg.windowMonths), records[|records| - 1];
    hide Mean, Variance;
    if w != [] {
      MeanOfExtremes(w, current);
      if Variance(w) > 0.0 {
        NoDeviation(cfg.zscoreThreshold, Variance(w));
      }
    }
  }

  lemma MeanOfExtremes(w: seq<real>, current: real)
    requires w != []
    ensures (forall i :: 0 <= i < |w| ==> w[i] <= current) ==> Mean(w) <= current
    ensures (forall i :: 0 <= i < |w| ==> w[i] >= current) ==> Mean(w) >= current
  {
    hide Sum;
    SumBelow(w, current);
    MeanOrder(Sum(w), |w| as real, current);
  }

  lemma NoDeviation(k: real, variance: real)
    requires k > 0.0 && variance > 0.0
    ensures !Reaches(0.0, variance, k)
  {
    Product(k, k);
    Product(k * k, variance);
  }

  /** Without spread the current cost is the mean. */
  lemma FlatWindow(w: seq<real>)
    requires w != []
    ensures Variance(w) >= 0.0 && (Variance(w) == 0.0 ==> w[|w| - 1] == Mean(w))
  {
    hide Mean, SumSquares;
    NoSpread(w, Mean(w));
    Product(|w| as real, Variance(w));
    assert |w| as real * Variance(w) == SumSquares(w, Mean(w));
  }
}
