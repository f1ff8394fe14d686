/** The calculation steps the application runs (main.py: Calculator). Both
    fit the curves and then intersect them; every failure becomes an error
    whose message carries the step's prefix, and no partial result is
    returned. */
module Calculator {
  import opened Wrappers
  import opened Numbers
  import opened Lines
  import opened Regression
  import opened Equilibrium
  import opened Surplus
  import opened PlotData
  import opened DataManager

  const CurvesPrefix: string := "Error calculating curves: "
  const EquilibriumPrefix: string := "Error calculating equilibrium: "

  /** The demand and supply lines, each as an (intercept, slope) pair. */
  datatype Curves = Curves(demand: Line, supply: Line)

  /** calculate_curves: each curve is fitted with the QUANTITIES as the
      independent variable and the PRICES as the dependent one, and the
      price count as the number of points; the demand fit runs first. */
  function CalculateCurves(dp: seq<real>, dq: seq<real>, sp: seq<real>, sq: seq<real>): (r: Result<Curves>)
    ensures r.Ok? <==> PerformCalculations(dq, dp, |dp|).Ok? && PerformCalculations(sq, sp, |sp|).Ok?
    ensures r.Ok? ==>
      InputsAcceptable(dq, dp, |dp|) && IsLeastSquaresFit(dq, dp, r.value.demand) &&
      InputsAcceptable(sq, sp, |sp|) && IsLeastSquaresFit(sq, sp, r.value.supply)
    ensures PerformCalculations(dq, dp, |dp|).Err? ==>
      r == Err(CurvesPrefix + PerformCalculations(dq, dp, |dp|).msg)
    ensures PerformCalculations(dq, dp, |dp|).Ok? && PerformCalculations(sq, sp, |sp|).Err? ==>
      r == Err(CurvesPrefix + PerformCalculations(sq, sp, |sp|).msg)
    ensures r.Err? ==> |r.msg| >= |CurvesPrefix| && r.msg[..|CurvesPrefix|] == CurvesPrefix
  {
    var demand := PerformCalculations(dq, dp, |dp|);
    if demand.Err? then Err(CurvesPrefix + demand.msg)
    else
      var supply := PerformCalculations(sq, sp, |sp|);
      if supply.Err? then Err(CurvesPrefix + supply.msg)
      else Ok(Curves(demand.value, supply.value))
  }

  /** Data that passes validate_data only fails to fit when a quantity
      list's denominator is within the tolerance of zero. */
  lemma ValidatedFitFailsOnlyOnDenominator(dp: seq<real>, dq: seq<real>, sp: seq<real>, sq: seq<real>)
    requires ValidateData(dp, dq, sp, sq).0
    ensures CalculateCurves(dp, dq, sp, sq).Err? <==>
      Abs(Denominator(dq, |dq|)) < Tolerance || Abs(Denominator(sq, |sq|)) < Tolerance
    ensures CalculateCurves(dp, dq, sp, sq).Err? ==>
      CalculateCurves(dp, dq, sp, sq).msg == CurvesPrefix + ZeroDenominatorMsg
  {
    assert InputsAcceptable(dq, dp, |dp|) && InputsAcceptable(sq, sp, |sp|);
  }

  /** A demand price list and quantity list of different lengths, both
      non-empty, are refused by the length check of the fit. */
  lemma DemandCountMismatchCaught(dp: seq<real>, dq: seq<real>, sp: seq<real>, sq: seq<real>)
    requires dp != [] && dq != [] && |dp| != |dq|
    ensures CalculateCurves(dp, dq, sp, sq) == Err(CurvesPrefix + LengthMismatchMsg)
  {
  }

  /** Prices that are an exact linear function of the quantities give that
      function back as the demand curve: price = a + b * quantity. */
  lemma DemandPriceOnQuantity(dp: seq<real>, dq: seq<real>, sp: seq<real>, sq: seq<real>, a: real, b: real)
    requires |dq| == |dp| >= 2
    requires forall i :: 0 <= i < |dq| ==> dp[i] == a + b * dq[i]
    requires Abs(Denominator(dq, |dq|)) >= Tolerance
    requires CalculateCurves(dp, dq, sp, sq).Ok?
    ensures CalculateCurves(dp, dq, sp, sq).value.demand == Line(a, b)
  {
    CollinearDataRecovered(dq, dp, a, b);
  }

  /** The five entries of the result of calculate_equilibrium_and_surpluses. */
  datatype Report = Report(
    equilibriumPrice: real,
    equilibriumQuantity: real,
    consumerSurplus: ExtReal,
    producerSurplus: ExtReal,
    totalSurplus: ExtReal)

  /** calculate_equilibrium_and_surpluses: the equilibrium, the price
      intercepts `-b0 / b1` (or `inf` for a zero slope), the surpluses with
      the raw supply intercept as the supply quantity intercept, and their
      total. */
  function CalculateEquilibriumAndSurpluses(di: real, ds: real, si: real, ss: real): (r: Result<Report>)
    ensures r.Err? ==> |r.msg| >= |EquilibriumPrefix| && r.msg[..|EquilibriumPrefix|] == EquilibriumPrefix
    ensures r.Ok? ==>
      OnBoth(di, ds, si, ss, Point(r.value.equilibriumPrice, r.value.equilibriumQuantity)) &&
      r.value.equilibriumPrice > 0.0 && r.value.equilibriumQuantity > 0.0
    ensures r.Ok? ==> r.value.producerSurplus.Fin?
    ensures r.Ok? ==> (r.value.totalSurplus.Fin? <==> r.value.consumerSurplus.Fin?)
    ensures r.Ok? && r.value.consumerSurplus.Fin? ==>
      r.value.totalSurplus.r == r.value.consumerSurplus.r + r.value.producerSurplus.r
    ensures r.Ok? && !r.value.consumerSurplus.Fin? ==> r.value.totalSurplus == PosInf
  {
    var eq := CalculateEquilibrium(di, ds, si, ss);
    if eq.Err? then Err(EquilibriumPrefix + eq.msg)
    else
      var e := eq.value;
      var dpi := PriceIntercept(di, ds);
      var spi := PriceIntercept(si, ss);
      var surpluses := CalculateSurpluses(e.quantity, e.price, dpi, si, spi);
      if surpluses.Err? then Err(EquilibriumPrefix + surpluses.msg)
      else
        var s := surpluses.value;
        ProducerSurplusFinite(si, ss, e, dpi);
        Ok(Report(e.price, e.quantity, s.consumer, s.producer, Add(s.consumer, s.producer)))
  }

  /** At a positive point of the supply line the producer surplus is finite:
      a flat supply line with a non-positive intercept has no such point. */
  lemma ProducerSurplusFinite(si: real, ss: real, e: Point, dpi: ExtReal)
    requires OnLine(si, ss, e.price, e.quantity)
    requires e.quantity > 0.0 && e.price > 0.0
    ensures CalculateSurpluses(e.quantity, e.price, dpi, si, PriceIntercept(si, ss)).value.producer.Fin?
  {
    if si <= 0.0 {
      FlatSupplyExcluded(si, ss, e.price, e.quantity);
    }
  }

  /** The report agrees with the chart data: it exists exactly when they do,
      with the same equilibrium and surpluses, and otherwise carries their
      error message behind the prefix. */
  lemma ReportAgreesWithPlotData(di: real, ds: real, si: real, ss: real)
    ensures var r := CalculateEquilibriumAndSurpluses(di, ds, si, ss);
      var d := CalculatePlotData(di, ds, si, ss);
      (r.Ok? <==> d.Ok?) &&
      (r.Err? ==> r.msg == EquilibriumPrefix + d.msg) &&
      (r.Ok? ==> r.value.equilibriumPrice == d.value.equilibriumPrice &&
                 r.value.equilibriumQuantity == d.value.equilibriumQuantity &&
                 r.value.consumerSurplus == d.value.consumerSurplus &&
                 r.value.producerSurplus == d.value.producerSurplus)
  {
  }

  /** calculate_equilibrium_and_surpluses refuses parallel lines; otherwise
      the common point of the two lines decides: a negative one is refused,
      a non-negative one on an axis is refused, a strictly positive one is
      the result. */
  lemma ReportErrors(di: real, ds: real, si: real, ss: real)
    ensures Abs(ds - ss) < Tolerance ==>
      CalculateEquilibriumAndSurpluses(di, ds, si, ss) == Err(EquilibriumPrefix + ParallelMsg)
    ensures forall e :: Abs(ds - ss) >= Tolerance && OnBoth(di, ds, si, ss, e) ==>
      var r := CalculateEquilibriumAndSurpluses(di, ds, si, ss);
      (!NonNegative(e) ==> r == Err(EquilibriumPrefix + NegativeMsg)) &&
      (NonNegative(e) && (e.price == 0.0 || e.quantity == 0.0) ==> r == Err(EquilibriumPrefix + NonPositiveMsg)) &&
      (e.price > 0.0 && e.quantity > 0.0 ==> r.Ok? && r.value.equilibriumPrice == e.price &&
                                             r.value.equilibriumQuantity == e.quantity)
  {
    forall e | Abs(ds - ss) >= Tolerance && OnBoth(di, ds, si, ss, e)
      ensures var r := CalculateEquilibriumAndSurpluses(di, ds, si, ss);
        (!NonNegative(e) ==> r == Err(EquilibriumPrefix + NegativeMsg)) &&
        (NonNegative(e) && (e.price == 0.0 || e.quantity == 0.0) ==> r == Err(EquilibriumPrefix + NonPositiveMsg)) &&
        (e.price > 0.0 && e.quantity > 0.0 ==> r.Ok? && r.value.equilibriumPrice == e.price &&
                                               r.value.equilibriumQuantity == e.quantity)
    {
      EquilibriumIsTheCrossing(di, ds, si, ss, e);
    }
  }

  /** The dictionary returned to the application. */
  function AsDict(r: Report): (m: map<string, ExtReal>)
    ensures m.Keys == {"equilibrium_price", "equilibrium_quantity", "consumer_surplus",
                       "producer_surplus", "total_surplus"}
    ensures m["equilibrium_price"] == Fin(r.equilibriumPrice)
    ensures m["equilibrium_quantity"] == Fin(r.equilibriumQuantity)
    ensures m["consumer_surplus"] == r.consumerSurplus
    ensures m["producer_surplus"] == r.producerSurplus
    ensures m["total_surplus"] == r.totalSurplus
  {
    map["equilibrium_price" := Fin(r.equilibriumPrice),
        "equilibrium_quantity" := Fin(r.equilibriumQuantity),
        "consumer_surplus" := r.consumerSurplus,
        "producer_surplus" := r.producerSurplus,
        "total_surplus" := r.totalSurplus]
  }

  /** Demand `q = 15000 - 2500 p` and supply `q = 2000 + 7500 p` meet at
      p = 1.3, q = 11750; the demand price intercept is 6 and the supply
      intercept is positive, so CS = 11750 * 4.7 / 2 and PS = 13750 * 1.3 / 2. */
  lemma WorkedExample()
    ensures CalculateEquilibriumAndSurpluses(15000.0, -2500.0, 2000.0, 7500.0) ==
      Ok(Report(1.3, 11750.0, Fin(27612.5), Fin(8937.5), Fin(36550.0)))
  {
    assert (2000.0 - 15000.0) / (-2500.0 - 7500.0) == 1.3;
    assert -15000.0 / -2500.0 == 6.0;
  }
}
