/** The numbers behind the chart (funct.py: _calculate_plot_data): the
    equilibrium, both curves' axis intercepts and both surpluses, computed
    from the two fitted lines. */
module PlotData {
  import opened Wrappers
  import opened Numbers
  import opened Lines
  import opened Equilibrium
  import opened Surplus

  /** The twelve entries of the returned dictionary. */
  datatype PlotData = PlotData(
    equilibriumPrice: real,
    equilibriumQuantity: real,
    demandPriceIntercept: ExtReal,
    demandQuantityIntercept: real,
    supplyPriceIntercept: ExtReal,
    supplyQuantityIntercept: real,
    consumerSurplus: ExtReal,
    producerSurplus: ExtReal,
    demandIntercept: real,
    demandSlope: real,
    supplyIntercept: real,
    supplySlope: real)

  /** The surpluses of the equilibrium `e` with the intercepts derived from
      the two lines; the supply quantity intercept is the supply intercept. */
  function SurplusesAt(di: real, ds: real, si: real, ss: real, e: Point): Result<Surpluses> {
    CalculateSurpluses(e.quantity, e.price, PriceIntercept(di, ds), si, PriceIntercept(si, ss))
  }

  /** _calculate_plot_data: an equilibrium failure propagates unchanged, then
      a surplus failure; otherwise the intercepts are the lines' own and
      the equilibrium lies on both lines. */
  function CalculatePlotData(di: real, ds: real, si: real, ss: real): (r: Result<PlotData>)
    ensures CalculateEquilibrium(di, ds, si, ss).Err? ==> r == Err(CalculateEquilibrium(di, ds, si, ss).msg)
    ensures CalculateEquilibrium(di, ds, si, ss).Ok? ==>
      var e := CalculateEquilibrium(di, ds, si, ss).value;
      (r.Err? <==> e.price == 0.0 || e.quantity == 0.0) && (r.Err? ==> r.msg == NonPositiveMsg)
    ensures r.Err? ==> r.msg == ParallelMsg || r.msg == NegativeMsg || r.msg == NonPositiveMsg
    ensures r.Ok? ==>
      var d := r.value;
      OnBoth(di, ds, si, ss, Point(d.equilibriumPrice, d.equilibriumQuantity)) &&
      d.equilibriumPrice > 0.0 && d.equilibriumQuantity > 0.0 &&
      d.demandPriceIntercept == PriceIntercept(di, ds) && d.demandQuantityIntercept == di &&
      d.supplyPriceIntercept == PriceIntercept(si, ss) && d.supplyQuantityIntercept == si &&
      d.demandIntercept == di && d.demandSlope == ds &&
      d.supplyIntercept == si && d.supplySlope == ss
  {
    var eq := CalculateEquilibrium(di, ds, si, ss);
    if eq.Err? then Err(eq.msg)
    else
      var e := eq.value;
      var surpluses := SurplusesAt(di, ds, si, ss, e);
      if surpluses.Err? then Err(surpluses.msg)
      else
        Ok(PlotData(e.price, e.quantity, PriceIntercept(di, ds), di, PriceIntercept(si, ss), si,
                    surpluses.value.consumer, surpluses.value.producer, di, ds, si, ss))
  }

  /** Whenever the plot data exist, the consumer surplus is the area under the
      demand curve above the equilibrium price (infinite for a flat demand
      curve), and the producer surplus is finite and is the area under the
      supply curve below the equilibrium price, from price zero or from the
      supply price intercept as the sign of the supply intercept decides. */
  lemma SurplusesAreAreas(di: real, ds: real, si: real, ss: real)
    requires CalculatePlotData(di, ds, si, ss).Ok?
    ensures var d := CalculatePlotData(di, ds, si, ss).value;
      var p := d.equilibriumPrice;
      (ds == 0.0 <==> d.consumerSurplus == PosInf) &&
      (ds != 0.0 ==> d.consumerSurplus == Fin(AreaUnder(di, ds, p, -di / ds))) &&
      (si > 0.0 ==> d.producerSurplus == Fin(AreaUnder(si, ss, 0.0, p))) &&
      (si <= 0.0 ==> ss != 0.0 && d.producerSurplus == Fin(AreaUnder(si, ss, -si / ss, p)))
  {
    var d := CalculatePlotData(di, ds, si, ss).value;
    var p, q := d.equilibriumPrice, d.equilibriumQuantity;
    if ds != 0.0 {
      ConsumerSurplusIsAreaUnderDemand(di, ds, p, q, si, PriceIntercept(si, ss));
    }
    if si > 0.0 {
      ProducerSurplusFromZeroPrice(si, ss, p, q, PriceIntercept(di, ds), PriceIntercept(si, ss));
    } else {
      FlatSupplyExcluded(si, ss, p, q);
      ProducerSurplusFromPriceIntercept(si, ss, p, q, PriceIntercept(di, ds));
    }
  }

  /** A flat supply curve through a non-positive quantity has no point of
      positive quantity. */
  lemma FlatSupplyExcluded(si: real, ss: real, p: real, q: real)
    requires OnLine(si, ss, p, q) && q > 0.0 && si <= 0.0
    ensures ss != 0.0
  {
  }

  /** For a downward-sloping demand line and an upward-sloping supply line
      both surpluses in the plot data are finite and positive. */
  lemma SlopedCurvesPositiveSurpluses(di: real, ds: real, si: real, ss: real)
    requires ds < 0.0 && ss > 0.0
    requires CalculatePlotData(di, ds, si, ss).Ok?
    ensures var d := CalculatePlotData(di, ds, si, ss).value;
      d.consumerSurplus.Fin? && d.consumerSurplus.r > 0.0 &&
      d.producerSurplus.Fin? && d.producerSurplus.r > 0.0
  {
    var d := CalculatePlotData(di, ds, si, ss).value;
    SurplusesPositive(di, ds, si, ss, d.equilibriumPrice, d.equilibriumQuantity);
  }
}
