/** Ordinary least-squares fit of a line `dependent = b0 + b1 * independent`
    from paired samples (funct.py: calculate_sums, calculate_slope,
    calculate_intercept, perform_calculations). */
module Regression {
  import opened Wrappers
  import opened Numbers
  import opened Lines

  const LengthMismatchMsg: string := "All arrays must have the same length"
  const TooFewPointsMsg: string := "At least 2 data points are required for regression"
  const ZeroDenominatorMsg: string := "Cannot calculate slope: denominator is too close to zero"
  const EmptyInputMsg: string := "Input arrays cannot be empty"

  // The sums of calculate_sums. Over exact reals the order in which Python's
  // sum() adds the terms does not matter.

  function Sum(s: seq<real>): real {
    if s == [] then 0.0 else s[0] + Sum(s[1..])
  }

  /** `Σ x²`; over the reals, Python's `x**2` is `x * x`. */
  function SumSquares(s: seq<real>): real {
    if s == [] then 0.0 else Square(s[0]) + SumSquares(s[1..])
  }

  /** `Σ xs[i] * ys[i]` over the common indices. */
  function SumProducts(xs: seq<real>, ys: seq<real>): real
    requires |xs| == |ys|
  {
    if xs == [] then 0.0 else xs[0] * ys[0] + SumProducts(xs[1..], ys[1..])
  }

  function Square(x: real): (r: real)
    ensures r >= 0.0
  {
    SquareNonNegative(x);
    x * x
  }

  lemma SquareNonNegative(x: real)
    ensures x * x >= 0.0
    ensures x != 0.0 ==> x * x > 0.0
  {
    if x < 0.0 {
      assert x * x == (-x) * (-x);
    }
  }

  /** The five sums of calculate_sums; the last one is computed but unused. */
  datatype Sums = Sums(sumX: real, sumY: real, sumXX: real, sumXY: real, sumYY: real)

  /** `Σx² - (Σx)² / n`, the slope's denominator, from the sums. */
  function CentredSquares(sumX: real, sumXX: real, n: int): real
    requires n != 0
  {
    sumXX - (sumX * sumX) / (n as real)
  }

  /** `Σxy - Σx·Σy / n`, the slope's numerator, from the sums. */
  function CentredProducts(sumX: real, sumY: real, sumXY: real, n: int): real
    requires n != 0
  {
    sumXY - (sumX * sumY) / (n as real)
  }

  /** The slope's denominator for the samples `xs`. */
  function Denominator(xs: seq<real>, n: int): real
    requires n != 0
  {
    CentredSquares(Sum(xs), SumSquares(xs), n)
  }

  /** The length and count checks of calculate_sums and perform_calculations. */
  predicate InputsAcceptable(xs: seq<real>, ys: seq<real>, n: int) {
    xs != [] && ys != [] && |xs| == |ys| && |xs| == n && n >= 2
  }

  /** calculate_sums: the length check first, then the count check, then
      the sums. */
  function CalculateSums(xs: seq<real>, ys: seq<real>, n: int): (r: Result<Sums>)
    ensures r.Err? <==> |xs| != |ys| || |xs| != n || n < 2
    ensures (|xs| != |ys| || |xs| != n) ==> r == Err(LengthMismatchMsg)
    ensures |xs| == |ys| == n && n < 2 ==> r == Err(TooFewPointsMsg)
    ensures r.Ok? ==> r.value.sumX == Sum(xs) && r.value.sumY == Sum(ys)
    ensures r.Ok? ==> r.value.sumXX == SumSquares(xs) && r.value.sumYY == SumSquares(ys)
    ensures r.Ok? ==> |xs| == |ys| && r.value.sumXY == SumProducts(xs, ys)
  {
    if |xs| != |ys| || |xs| != n then Err(LengthMismatchMsg)
    else if n < 2 then Err(TooFewPointsMsg)
    else Ok(Sums(Sum(xs), Sum(ys), SumSquares(xs), SumProducts(xs, ys), SumSquares(ys)))
  }

  /** `slope` solves the second normal equation once the first is used to
      eliminate the intercept: `slope * (Σx² - (Σx)²/n) == Σxy - Σx·Σy/n`. */
  predicate SolvesCentredEquation(slope: real, sumX: real, sumY: real, sumXX: real, sumXY: real, n: int)
    requires n != 0
  {
    slope * CentredSquares(sumX, sumXX, n) == CentredProducts(sumX, sumY, sumXY, n)
  }

  /** `intercept` solves the first normal equation, `n·intercept + slope·Σx == Σy`. */
  predicate SolvesFirstEquation(intercept: real, slope: real, sumX: real, sumY: real, n: int) {
    (n as real) * intercept + slope * sumX == sumY
  }

  /** calculate_slope: refuses a denominator within the tolerance of zero;
      otherwise the slope solves the centred normal equation. */
  function CalculateSlope(sumX: real, sumY: real, sumXX: real, sumXY: real, n: int): (r: Result<real>)
    requires n != 0
    ensures r.Err? <==> Abs(CentredSquares(sumX, sumXX, n)) < Tolerance
    ensures r.Err? ==> r.msg == ZeroDenominatorMsg
    ensures r.Ok? ==> SolvesCentredEquation(r.value, sumX, sumY, sumXX, sumXY, n)
  {
    var denominator := sumXX - (sumX * sumX) / (n as real);
    if Abs(denominator) < Tolerance then Err(ZeroDenominatorMsg)
    else Ok((sumXY - (sumX * sumY) / (n as real)) / denominator)
  }

  /** calculate_intercept: the intercept solves the first normal equation. */
  function CalculateIntercept(sumX: real, sumY: real, slope: real, n: int): (r: real)
    requires n != 0
    ensures SolvesFirstEquation(r, slope, sumX, sumY, n)
  {
    (1.0 / (n as real)) * (sumY - slope * sumX)
  }

  // The reference definition of a least-squares line: the residuals
  // y - (b0 + b1 * x) sum to zero and are orthogonal to x (the first-order
  // conditions of minimising the sum of squared residuals).

  function ResidualSum(xs: seq<real>, ys: seq<real>, l: Line): real
    requires |xs| == |ys|
  {
    if xs == [] then 0.0 else (ys[0] - (l.intercept + l.slope * xs[0])) + ResidualSum(xs[1..], ys[1..], l)
  }

  function MomentResidualSum(xs: seq<real>, ys: seq<real>, l: Line): real
    requires |xs| == |ys|
  {
    if xs == [] then 0.0
    else xs[0] * (ys[0] - (l.intercept + l.slope * xs[0])) + MomentResidualSum(xs[1..], ys[1..], l)
  }

  predicate IsLeastSquaresFit(xs: seq<real>, ys: seq<real>, l: Line)
    requires |xs| == |ys|
  {
    ResidualSum(xs, ys, l) == 0.0 && MomentResidualSum(xs, ys, l) == 0.0
  }

  /** The two normal equations, written with the sums:
      `n·a + b·Σx == Σy` and `a·Σx + b·Σx² == Σxy`. */
  predicate NormalEquations(n: int, sumX: real, sumY: real, sumXX: real, sumXY: real, l: Line) {
    SolvesFirstEquation(l.intercept, l.slope, sumX, sumY, n) &&
    l.intercept * sumX + l.slope * sumXX == sumXY
  }

  /** `r` is what is left of `Σy` after `n·a + b·Σx`. */
  predicate ResidualIdentity(r: real, sumY: real, sumX: real, n: real, l: Line) {
    r == sumY - (n * l.intercept + l.slope * sumX)
  }

  /** `m` is what is left of `Σxy` after `a·Σx + b·Σx²`. */
  predicate MomentIdentity(m: real, sumXY: real, sumX: real, sumXX: real, l: Line) {
    m == sumXY - (l.intercept * sumX + l.slope * sumXX)
  }

  lemma {:induction false} ResidualSumInTermsOfSums(xs: seq<real>, ys: seq<real>, l: Line)
    requires |xs| == |ys|
    ensures ResidualIdentity(ResidualSum(xs, ys, l), Sum(ys), Sum(xs), |xs| as real, l)
  {
    if xs != [] {
      var rest, resty := xs[1..], ys[1..];
      ResidualSumInTermsOfSums(rest, resty, l);
      ResidualStep(ResidualSum(xs, ys, l), Sum(ys), Sum(xs), |xs| as real,
                   ResidualSum(rest, resty, l), Sum(resty), Sum(rest), |rest| as real,
                   xs[0], ys[0], l);
    } else {
      assert ResidualSum(xs, ys, l) == 0.0 && Sum(ys) == 0.0 && Sum(xs) == 0.0;
      EmptyResidual(l);
    }
  }

  lemma EmptyResidual(l: Line)
    ensures ResidualIdentity(0.0, 0.0, 0.0, 0.0, l)
  {
  }

  lemma ResidualStep(r: real, sy: real, sx: real, n: real,
                     r': real, sy': real, sx': real, n': real, x: real, y: real, l: Line)
    requires r == (y - (l.intercept + l.slope * x)) + r' && sy == y + sy' && sx == x + sx' && n == n' + 1.0
    requires ResidualIdentity(r', sy', sx', n', l)
    ensures ResidualIdentity(r, sy, sx, n, l)
  {
    assert n * l.intercept == n' * l.intercept + l.intercept;
    assert l.slope * sx == l.slope * x + l.slope * sx';
  }

  lemma {:induction false} MomentResidualSumInTermsOfSums(xs: seq<real>, ys: seq<real>, l: Line)
    requires |xs| == |ys|
    ensures MomentIdentity(MomentResidualSum(xs, ys, l), SumProducts(xs, ys), Sum(xs), SumSquares(xs), l)
  {
    if xs != [] {
      var rest, resty := xs[1..], ys[1..];
      MomentResidualSumInTermsOfSums(rest, resty, l);
      MomentStep(MomentResidualSum(xs, ys, l), SumProducts(xs, ys), Sum(xs), SumSquares(xs),
                 MomentResidualSum(rest, resty, l), SumProducts(rest, resty), Sum(rest), SumSquares(rest),
                 xs[0], ys[0], l);
    } else {
      MomentEmpty(MomentResidualSum(xs, ys, l), SumProducts(xs, ys), Sum(xs), SumSquares(xs), l);
    }
  }

  lemma MomentEmpty(m: real, p: real, s: real, q: real, l: Line)
    requires m == 0.0 && p == 0.0 && s == 0.0 && q == 0.0
    ensures MomentIdentity(m, p, s, q, l)
  {
  }

  lemma MomentStep(m: real, p: real, s: real, q: real,
                   m': real, p': real, s': real, q': real, x: real, y: real, l: Line)
    requires m == x * (y - (l.intercept + l.slope * x)) + m' && p == x * y + p' && s == x + s' && q == Square(x) + q'
    requires MomentIdentity(m', p', s', q', l)
    ensures MomentIdentity(m, p, s, q, l)
  {
    var a, b := l.intercept, l.slope;
    assert x * (y - (a + b * x)) == x * y - a * x - b * (x * x);
    assert a * s == a * x + a * s';
    assert b * q == b * (x * x) + b * q';
  }

  /** The least-squares conditions are the normal equations on the sums. */
  lemma NormalEquationsFromSums(xs: seq<real>, ys: seq<real>, l: Line)
    requires |xs| == |ys|
    ensures IsLeastSquaresFit(xs, ys, l) <==>
      NormalEquations(|xs|, Sum(xs), Sum(ys), SumSquares(xs), SumProducts(xs, ys), l)
  {
    ResidualSumInTermsOfSums(xs, ys, l);
    MomentResidualSumInTermsOfSums(xs, ys, l);
    IdentitiesGiveNormalEquations(ResidualSum(xs, ys, l), MomentResidualSum(xs, ys, l),
                                  |xs|, Sum(xs), Sum(ys), SumSquares(xs), SumProducts(xs, ys), l);
  }

  lemma IdentitiesGiveNormalEquations(r: real, m: real, n: int, sx: real, sy: real, sxx: real, sxy: real, l: Line)
    requires ResidualIdentity(r, sy, sx, n as real, l)
    requires MomentIdentity(m, sxy, sx, sxx, l)
    ensures (r == 0.0 && m == 0.0) <==> NormalEquations(n, sx, sy, sxx, sxy, l)
  {
  }

  // Algebra on the sums, kept apart from the recursive definitions.

  lemma CancelFactor(n: real, x: real, y: real)
    requires n != 0.0 && n * x == n * y
    ensures x == y
  {
    assert n * (x - y) == 0.0;
  }

  /** The intercept and slope formulas solve both normal equations. */
  lemma FormulasSolveNormalEquations(n: int, sx: real, sy: real, sxx: real, sxy: real, l: Line)
    requires n != 0
    requires SolvesFirstEquation(l.intercept, l.slope, sx, sy, n)
    requires SolvesCentredEquation(l.slope, sx, sy, sxx, sxy, n)
    ensures NormalEquations(n, sx, sy, sxx, sxy, l)
  {
    var m := n as real;
    var a, b := l.intercept, l.slope;
    var d, e := (sx * sx) / m, (sx * sy) / m;
    assert m * d == sx * sx;
    assert m * e == sx * sy;
    assert b * (sxx - d) == sxy - e;
    calc {
      m * (a * sx + b * sxx);
      (m * a) * sx + m * (b * sxx);
      (sy - b * sx) * sx + m * (b * sxx);
      sy * sx - b * (sx * sx) + m * (b * sxx);
      sy * sx - b * (m * d) + m * (b * sxx);
      sy * sx + m * (b * (sxx - d));
      sy * sx + m * (sxy - e);
      m * sxy;
    }
    CancelFactor(m, a * sx + b * sxx, sxy);
  }

  /** With a non-zero denominator the normal equations have one solution. */
  lemma NormalEquationsDetermined(n: int, sx: real, sy: real, sxx: real, sxy: real, l1: Line, l2: Line)
    requires n != 0 && CentredSquares(sx, sxx, n) != 0.0
    requires NormalEquations(n, sx, sy, sxx, sxy, l1)
    requires NormalEquations(n, sx, sy, sxx, sxy, l2)
    ensures l1 == l2
  {
    var m := n as real;
    var da, db := l1.intercept - l2.intercept, l1.slope - l2.slope;
    assert m * da + db * sx == 0.0;
    assert da * sx + db * sxx == 0.0;
    var d := (sx * sx) / m;
    assert m * d == sx * sx;
    calc {
      0.0;
      m * (da * sx + db * sxx);
      (m * da) * sx + m * (db * sxx);
      (-(db * sx)) * sx + m * (db * sxx);
      -(db * (m * d)) + m * (db * sxx);
      m * (db * (sxx - d));
    }
    assert db * (sxx - d) == 0.0;
    assert db == 0.0;
    assert m * da == 0.0;
  }

  lemma MeanPoint(n: int, sx: real, sy: real, l: Line)
    requires n != 0 && SolvesFirstEquation(l.intercept, l.slope, sx, sy, n)
    ensures l.At(sx / (n as real)) == sy / (n as real)
  {
    var m := n as real;
    assert m * (l.slope * (sx / m)) == l.slope * sx;
    assert m * (sy / m) == sy;
    assert m * (l.intercept + l.slope * (sx / m)) == m * l.intercept + m * (l.slope * (sx / m));
    CancelFactor(m, l.At(sx / m), sy / m);
  }

  /** The slope and intercept formulas applied to the sums of `xs` and `ys`
      give a least-squares line. */
  lemma FormulasGiveLeastSquaresFit(xs: seq<real>, ys: seq<real>, l: Line)
    requires |xs| == |ys| && xs != []
    requires SolvesFirstEquation(l.intercept, l.slope, Sum(xs), Sum(ys), |xs|)
    requires SolvesCentredEquation(l.slope, Sum(xs), Sum(ys), SumSquares(xs), SumProducts(xs, ys), |xs|)
    ensures IsLeastSquaresFit(xs, ys, l)
  {
    FormulasSolveNormalEquations(|xs|, Sum(xs), Sum(ys), SumSquares(xs), SumProducts(xs, ys), l);
    NormalEquationsFromSums(xs, ys, l);
  }

  /** perform_calculations: the emptiness check, then calculate_sums, then
      the slope guard; a result satisfies the least-squares conditions. */
  function PerformCalculations(xs: seq<real>, ys: seq<real>, n: int): (r: Result<Line>)
    ensures xs == [] || ys == [] ==> r == Err(EmptyInputMsg)
    ensures xs != [] && ys != [] && (|xs| != |ys| || |xs| != n) ==> r == Err(LengthMismatchMsg)
    ensures xs != [] && ys != [] && |xs| == |ys| == n && n < 2 ==> r == Err(TooFewPointsMsg)
    ensures InputsAcceptable(xs, ys, n) ==>
      (r.Err? <==> Abs(Denominator(xs, n)) < Tolerance) &&
      (r.Err? ==> r.msg == ZeroDenominatorMsg)
    ensures r.Ok? ==> InputsAcceptable(xs, ys, n) && IsLeastSquaresFit(xs, ys, r.value)
  {
    if xs == [] || ys == [] then Err(EmptyInputMsg)
    else
      var sums := CalculateSums(xs, ys, n);
      if sums.Err? then Err(sums.msg)
      else
        var s := sums.value;
        var slope := CalculateSlope(s.sumX, s.sumY, s.sumXX, s.sumXY, n);
        if slope.Err? then Err(slope.msg)
        else
          var line := Line(CalculateIntercept(s.sumX, s.sumY, slope.value, n), slope.value);
          FormulasGiveLeastSquaresFit(xs, ys, line);
          Ok(line)
  }

  /** The fitted line passes through the mean point (mean x, mean y). */
  lemma FitPassesThroughMean(xs: seq<real>, ys: seq<real>, n: int)
    requires PerformCalculations(xs, ys, n).Ok?
    ensures n > 0
    ensures PerformCalculations(xs, ys, n).value.At(Sum(xs) / (n as real)) == Sum(ys) / (n as real)
  {
    var l := PerformCalculations(xs, ys, n).value;
    NormalEquationsFromSums(xs, ys, l);
    MeanPoint(n, Sum(xs), Sum(ys), l);
  }

  /** With a non-zero denominator the least-squares conditions have one
      solution. */
  lemma LeastSquaresFitUnique(xs: seq<real>, ys: seq<real>, l1: Line, l2: Line)
    requires |xs| == |ys| && xs != []
    requires Denominator(xs, |xs|) != 0.0
    requires IsLeastSquaresFit(xs, ys, l1) && IsLeastSquaresFit(xs, ys, l2)
    ensures l1 == l2
  {
    NormalEquationsFromSums(xs, ys, l1);
    NormalEquationsFromSums(xs, ys, l2);
    NormalEquationsDetermined(|xs|, Sum(xs), Sum(ys), SumSquares(xs), SumProducts(xs, ys), l1, l2);
  }

  /** A line with no residual at all is a least-squares fit. */
  lemma {:induction false} ExactDataIsFit(xs: seq<real>, ys: seq<real>, l: Line)
    requires |xs| == |ys|
    requires forall i :: 0 <= i < |xs| ==> ys[i] == l.At(xs[i])
    ensures IsLeastSquaresFit(xs, ys, l)
  {
    if xs != [] {
      ExactDataIsFit(xs[1..], ys[1..], l);
    }
  }

  /** Points that lie exactly on `y = a + b * x` give back `(a, b)`, in that
      order, whenever the slope guard lets them through. */
  lemma CollinearDataRecovered(xs: seq<real>, ys: seq<real>, a: real, b: real)
    requires InputsAcceptable(xs, ys, |xs|)
    requires forall i :: 0 <= i < |xs| ==> ys[i] == a + b * xs[i]
    requires Abs(Denominator(xs, |xs|)) >= Tolerance
    ensures PerformCalculations(xs, ys, |xs|) == Ok(Line(a, b))
  {
    ExactDataIsFit(xs, ys, Line(a, b));
    LeastSquaresFitUnique(xs, ys, PerformCalculations(xs, ys, |xs|).value, Line(a, b));
  }

  /** Two samples: the fit succeeds exactly when `(x0 - x1)² / 2` reaches the
      tolerance, and then both samples lie on the fitted line. */
  lemma TwoPointsOnFittedLine(x0: real, y0: real, x1: real, y1: real)
    ensures PerformCalculations([x0, x1], [y0, y1], 2).Ok? <==>
            Square(x0 - x1) / 2.0 >= Tolerance
    ensures PerformCalculations([x0, x1], [y0, y1], 2).Ok? ==>
            var l := PerformCalculations([x0, x1], [y0, y1], 2).value;
            l.At(x0) == y0 && l.At(x1) == y1
  {
    var xs, ys := [x0, x1], [y0, y1];
    TwoPointSums(x0, x1);
    TwoPointDenominator(x0, x1);
    var r := PerformCalculations(xs, ys, 2);
    if r.Ok? {
      TwoPointFitIsExact(x0, y0, x1, y1, r.value);
    }
  }

  lemma TwoPointFitIsExact(x0: real, y0: real, x1: real, y1: real, l: Line)
    requires Square(x0 - x1) / 2.0 >= Tolerance
    requires IsLeastSquaresFit([x0, x1], [y0, y1], l)
    ensures l.At(x0) == y0 && l.At(x1) == y1
  {
    TwoPointResiduals(x0, x1, y0, y1, l);
    TwoResiduals(x0, x1, y0 - (l.intercept + l.slope * x0), y1 - (l.intercept + l.slope * x1));
  }

  lemma TwoPointSums(x0: real, x1: real)
    ensures Sum([x0, x1]) == x0 + x1
    ensures SumSquares([x0, x1]) == Square(x0) + Square(x1)
  {
    var xs := [x0, x1];
    assert xs[1..] == [x1] && [x1][1..] == [];
    assert Sum([x1]) == x1 + Sum([]);
    assert SumSquares([x1]) == Square(x1) + SumSquares([]);
  }

  lemma TwoPointResiduals(x0: real, x1: real, y0: real, y1: real, l: Line)
    ensures ResidualSum([x0, x1], [y0, y1], l)
            == (y0 - (l.intercept + l.slope * x0)) + (y1 - (l.intercept + l.slope * x1))
    ensures MomentResidualSum([x0, x1], [y0, y1], l)
            == x0 * (y0 - (l.intercept + l.slope * x0)) + x1 * (y1 - (l.intercept + l.slope * x1))
  {
    var xs, ys := [x0, x1], [y0, y1];
    assert xs[1..] == [x1] && [x1][1..] == [];
    assert ys[1..] == [y1] && [y1][1..] == [];
    assert ResidualSum([x1], [y1], l) == (y1 - (l.intercept + l.slope * x1)) + ResidualSum([], [], l);
    assert MomentResidualSum([x1], [y1], l)
           == x1 * (y1 - (l.intercept + l.slope * x1)) + MomentResidualSum([], [], l);
  }

  lemma TwoPointDenominator(x0: real, x1: real)
    ensures CentredSquares(x0 + x1, Square(x0) + Square(x1), 2) == Square(x0 - x1) / 2.0
  {
    assert (x0 + x1) * (x0 + x1) == x0 * x0 + 2.0 * (x0 * x1) + x1 * x1;
    assert (x0 - x1) * (x0 - x1) == x0 * x0 - 2.0 * (x0 * x1) + x1 * x1;
  }

  lemma TwoResiduals(x0: real, x1: real, e0: real, e1: real)
    requires Square(x0 - x1) / 2.0 >= Tolerance
    requires e0 + e1 == 0.0 && x0 * e0 + x1 * e1 == 0.0
    ensures e0 == 0.0 && e1 == 0.0
  {
    assert x0 != x1;
    assert (x0 - x1) * e0 == x0 * e0 + x1 * e1;
    assert (x0 - x1) * e0 == 0.0;
  }

  // The denominator is the sum of squared deviations from the mean, so it is
  // never negative, and it is zero when every independent value is the same.

  function SquaredDeviations(xs: seq<real>, m: real): real {
    if xs == [] then 0.0 else Square(xs[0] - m) + SquaredDeviations(xs[1..], m)
  }

  /** `d == Σx² - 2·m·Σx + n·m²`. */
  predicate DeviationIdentity(d: real, sumXX: real, sumX: real, n: real, m: real) {
    d == sumXX - 2.0 * (m * sumX) + n * (m * m)
  }

  lemma {:induction false} SquaredDeviationsExpanded(xs: seq<real>, m: real)
    ensures DeviationIdentity(SquaredDeviations(xs, m), SumSquares(xs), Sum(xs), |xs| as real, m)
  {
    if xs != [] {
      var rest := xs[1..];
      SquaredDeviationsExpanded(rest, m);
      DeviationStep(SquaredDeviations(xs, m), SumSquares(xs), Sum(xs), |xs| as real,
                    SquaredDeviations(rest, m), SumSquares(rest), Sum(rest), |rest| as real, xs[0], m);
    } else {
      assert SquaredDeviations(xs, m) == 0.0 && SumSquares(xs) == 0.0 && Sum(xs) == 0.0;
      EmptyDeviation(m);
    }
  }

  lemma EmptyDeviation(m: real)
    ensures DeviationIdentity(0.0, 0.0, 0.0, 0.0, m)
  {
  }

  lemma DeviationStep(d: real, q: real, s: real, n: real,
                      d': real, q': real, s': real, n': real, x: real, m: real)
    requires d == Square(x - m) + d' && q == Square(x) + q' && s == x + s' && n == n' + 1.0
    requires DeviationIdentity(d', q', s', n', m)
    ensures DeviationIdentity(d, q, s, n, m)
  {
    assert (x - m) * (x - m) == x * x - 2.0 * (m * x) + m * m;
    assert m * s == m * x + m * s';
    assert n * (m * m) == n' * (m * m) + m * m;
  }

  lemma {:induction false} SquaredDeviationsNonNegative(xs: seq<real>, m: real)
    ensures SquaredDeviations(xs, m) >= 0.0
  {
    if xs != [] {
      SquaredDeviationsNonNegative(xs[1..], m);
    }
  }

  lemma {:induction false} SquaredDeviationsOfConstant(xs: seq<real>, m: real)
    requires forall i :: 0 <= i < |xs| ==> xs[i] == m
    ensures SquaredDeviations(xs, m) == 0.0
  {
    if xs != [] {
      assert xs[0] - m == 0.0;
      SquaredDeviationsOfConstant(xs[1..], m);
    }
  }

  lemma MeanAlgebra(n: int, sx: real, sxx: real, d: real)
    requires n != 0
    requires DeviationIdentity(d, sxx, sx, n as real, sx / (n as real))
    ensures d == CentredSquares(sx, sxx, n)
  {
    var k := n as real;
    var m := sx / k;
    assert k * m == sx;
    assert k * (m * m) == sx * m;
    assert m * sx == (sx * sx) / k;
  }

  lemma DenominatorIsSquaredDeviation(xs: seq<real>)
    requires xs != []
    ensures Denominator(xs, |xs|) == SquaredDeviations(xs, Sum(xs) / (|xs| as real))
  {
    var m := Sum(xs) / (|xs| as real);
    SquaredDeviationsExpanded(xs, m);
    MeanAlgebra(|xs|, Sum(xs), SumSquares(xs), SquaredDeviations(xs, m));
  }

  lemma {:induction false} SumOfConstant(xs: seq<real>, c: real)
    requires forall i :: 0 <= i < |xs| ==> xs[i] == c
    ensures Sum(xs) == (|xs| as real) * c
  {
    if xs != [] {
      SumOfConstant(xs[1..], c);
      assert (|xs| as real) * c == (|xs[1..]| as real) * c + c;
    }
  }

  /** The slope's denominator is never negative. */
  lemma DenominatorNonNegative(xs: seq<real>)
    requires xs != []
    ensures Denominator(xs, |xs|) >= 0.0
  {
    DenominatorIsSquaredDeviation(xs);
    SquaredDeviationsNonNegative(xs, Sum(xs) / (|xs| as real));
  }

  /** The slope's denominator vanishes when all the independent values are
      identical. */
  lemma DenominatorZeroWhenConstant(xs: seq<real>)
    requires xs != []
    requires forall i :: 0 <= i < |xs| ==> xs[i] == xs[0]
    ensures Denominator(xs, |xs|) == 0.0
  {
    DenominatorIsSquaredDeviation(xs);
    SumOfConstant(xs, xs[0]);
    assert Sum(xs) / (|xs| as real) == xs[0];
    SquaredDeviationsOfConstant(xs, xs[0]);
  }

  /** Samples whose independent values are all identical are always refused
      by the slope guard. */
  lemma ConstantIndependentFails(xs: seq<real>, ys: seq<real>)
    requires |xs| == |ys| && |xs| >= 2
    requires forall i :: 0 <= i < |xs| ==> xs[i] == xs[0]
    ensures PerformCalculations(xs, ys, |xs|) == Err(ZeroDenominatorMsg)
  {
    DenominatorZeroWhenConstant(xs);
  }
}
