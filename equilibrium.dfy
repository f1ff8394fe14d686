/** The equilibrium of a demand line and a supply line (funct.py:
    calculate_equilibrium). Both curves are read as
    `quantity = intercept + slope * price`. */
module Equilibrium {
  import opened Wrappers
  import opened Numbers
  import opened Lines

  const ParallelMsg: string := "Demand and supply curves are parallel - no equilibrium exists"
  const NegativeMsg: string := "Equilibrium point has negative values"

  datatype Point = Point(price: real, quantity: real)

  /** `p` is a point of both lines. */
  predicate OnBoth(di: real, ds: real, si: real, ss: real, p: Point) {
    OnLine(di, ds, p.price, p.quantity) && OnLine(si, ss, p.price, p.quantity)
  }

  predicate NonNegative(p: Point) {
    p.price >= 0.0 && p.quantity >= 0.0
  }

  /** calculate_equilibrium: slopes within the tolerance of each other are
      refused as parallel; otherwise the crossing point is returned unless
      one of its coordinates is negative. */
  function CalculateEquilibrium(di: real, ds: real, si: real, ss: real): (r: Result<Point>)
    ensures r == Err(ParallelMsg) <==> Abs(ds - ss) < Tolerance
    ensures r.Err? ==> r.msg == ParallelMsg || r.msg == NegativeMsg
    ensures r.Ok? ==> OnBoth(di, ds, si, ss, r.value) && NonNegative(r.value)
  {
    if Abs(ds - ss) < Tolerance then Err(ParallelMsg)
    else
      var price := (si - di) / (ds - ss);
      var quantity := di + ds * price;
      CrossingIsOnBoth(di, ds, si, ss, price, quantity);
      if price < 0.0 || quantity < 0.0 then Err(NegativeMsg)
      else Ok(Point(price, quantity))
  }

  lemma CrossingIsOnBoth(di: real, ds: real, si: real, ss: real, price: real, quantity: real)
    requires ds != ss
    requires price == (si - di) / (ds - ss)
    requires quantity == di + ds * price
    ensures OnBoth(di, ds, si, ss, Point(price, quantity))
  {
    assert (ds - ss) * price == si - di;
  }

  /** Lines with different slopes meet in at most one point. */
  lemma CrossingUnique(di: real, ds: real, si: real, ss: real, p1: Point, p2: Point)
    requires ds != ss
    requires OnBoth(di, ds, si, ss, p1) && OnBoth(di, ds, si, ss, p2)
    ensures p1 == p2
  {
    assert (ds - ss) * p1.price == si - di;
    assert (ds - ss) * p2.price == si - di;
    assert (ds - ss) * (p1.price - p2.price) == 0.0;
    assert p1.price == p2.price;
  }

  /** Once the slopes are apart by the tolerance, the outcome is decided by
      the crossing point alone: it is returned when both coordinates are
      non-negative and refused with the negative-values message otherwise. */
  lemma EquilibriumIsTheCrossing(di: real, ds: real, si: real, ss: real, p: Point)
    requires Abs(ds - ss) >= Tolerance
    requires OnBoth(di, ds, si, ss, p)
    ensures CalculateEquilibrium(di, ds, si, ss) ==
            if NonNegative(p) then Ok(p) else Err(NegativeMsg)
  {
    var price := (si - di) / (ds - ss);
    var q := Point(price, di + ds * price);
    CrossingIsOnBoth(di, ds, si, ss, q.price, q.quantity);
    CrossingUnique(di, ds, si, ss, p, q);
    assert !(Abs(ds - ss) < Tolerance);
    if NonNegative(p) {
      assert q.price >= 0.0 && q.quantity >= 0.0;
      assert CalculateEquilibrium(di, ds, si, ss).Ok?;
      assert CalculateEquilibrium(di, ds, si, ss) == Ok(Point(price, di + ds * price));
    }
    assert !NonNegative(p) ==> CalculateEquilibrium(di, ds, si, ss) == Err(NegativeMsg);
  }

  /** Lines whose slopes differ by at least the tolerance have an
      equilibrium or a negative crossing: parallelism is the only other
      refusal. */
  lemma CrossingExists(di: real, ds: real, si: real, ss: real)
    requires Abs(ds - ss) >= Tolerance
    ensures exists p :: OnBoth(di, ds, si, ss, p)
  {
    var price := (si - di) / (ds - ss);
    CrossingIsOnBoth(di, ds, si, ss, price, di + ds * price);
    assert OnBoth(di, ds, si, ss, Point(price, di + ds * price));
  }
}
