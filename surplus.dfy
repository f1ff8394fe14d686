/** Consumer and producer surplus at the equilibrium (funct.py:
    calculate_surpluses), and what the two formulas measure: the area
    under a curve `quantity = b0 + b1 * price` between two prices. */
module Surplus {
  import opened Wrappers
  import opened Numbers
  import opened Lines

  const NonPositiveMsg: string := "Equilibrium values must be positive"

  datatype Surpluses = Surpluses(consumer: ExtReal, producer: ExtReal)

  /** calculate_surpluses. The equilibrium must be strictly positive. The
      consumer surplus is `q * (dpi - p) / 2`; the producer surplus is
      `(q + sqi) * p / 2` when the supply quantity intercept `sqi` is
      positive and `q * (p - spi) / 2` otherwise. The price intercepts may
      be `inf`, which the arithmetic carries through. */
  function CalculateSurpluses(q: real, p: real, dpi: ExtReal, sqi: real, spi: ExtReal): (r: Result<Surpluses>)
    ensures r.Err? <==> q <= 0.0 || p <= 0.0
    ensures r.Err? ==> r.msg == NonPositiveMsg
    ensures r.Ok? ==> (r.value.consumer.Fin? <==> dpi.Fin?)
    ensures r.Ok? && dpi.Fin? ==> r.value.consumer.r * 2.0 == q * (dpi.r - p)
    ensures r.Ok? && !dpi.Fin? ==> r.value.consumer == dpi
    ensures r.Ok? && sqi > 0.0 ==> r.value.producer.Fin? && r.value.producer.r * 2.0 == (q + sqi) * p
    ensures r.Ok? && sqi <= 0.0 ==> (r.value.producer.Fin? <==> spi.Fin?)
    ensures r.Ok? && sqi <= 0.0 && spi.Fin? ==> r.value.producer.r * 2.0 == q * (p - spi.r)
    ensures r.Ok? && sqi <= 0.0 && !spi.Fin? ==> r.value.producer == Neg(spi)
  {
    if q <= 0.0 || p <= 0.0 then Err(NonPositiveMsg)
    else
      var consumer := Half(Scale(q, SubReal(dpi, p)));
      var producer := if sqi > 0.0 then Fin(((q + sqi) * p) / 2.0)
                      else Half(Scale(q, RealSub(p, spi)));
      Ok(Surpluses(consumer, producer))
  }

  // The reference meaning: the signed area under `quantity = b0 + b1 * price`
  // from price `a` to price `b`, through an antiderivative.

  function Antiderivative(b0: real, b1: real, x: real): real {
    b0 * x + b1 * (x * x) / 2.0
  }

  function AreaUnder(b0: real, b1: real, a: real, b: real): real {
    Antiderivative(b0, b1, b) - Antiderivative(b0, b1, a)
  }

  /** A line's area is the width times the mean of the two end heights. */
  predicate IsTrapezoid(area: real, a: real, b: real, ya: real, yb: real) {
    area * 2.0 == (b - a) * (ya + yb)
  }

  lemma TrapezoidRule(b0: real, b1: real, a: real, b: real, ya: real, yb: real)
    requires OnLine(b0, b1, a, ya) && OnLine(b0, b1, b, yb)
    ensures IsTrapezoid(AreaUnder(b0, b1, a, b), a, b, ya, yb)
  {
    assert b * b - a * a == (b - a) * (b + a);
    assert (b - a) * (ya + yb) == (b - a) * (2.0 * b0 + b1 * (a + b));
  }

  /** With a sloped demand curve the consumer surplus is the area under the
      demand curve from the equilibrium price up to the price at which the
      demanded quantity falls to zero. */
  lemma ConsumerSurplusIsAreaUnderDemand(di: real, ds: real, p: real, q: real, sqi: real, spi: ExtReal)
    requires OnLine(di, ds, p, q) && ds != 0.0
    requires q > 0.0 && p > 0.0
    ensures CalculateSurpluses(q, p, PriceIntercept(di, ds), sqi, spi).value.consumer
            == Fin(AreaUnder(di, ds, p, -di / ds))
  {
    var top := -di / ds;
    assert OnLine(di, ds, top, 0.0);
    TrapezoidRule(di, ds, p, top, q, 0.0);
    var cs := CalculateSurpluses(q, p, PriceIntercept(di, ds), sqi, spi).value.consumer;
    assert cs.r * 2.0 == q * (top - p);
  }

  /** With a positive supply quantity intercept the producer surplus is the
      area under the supply curve from price zero to the equilibrium price. */
  lemma ProducerSurplusFromZeroPrice(si: real, ss: real, p: real, q: real, dpi: ExtReal, spi: ExtReal)
    requires OnLine(si, ss, p, q) && si > 0.0
    requires q > 0.0 && p > 0.0
    ensures CalculateSurpluses(q, p, dpi, si, spi).value.producer == Fin(AreaUnder(si, ss, 0.0, p))
  {
    assert OnLine(si, ss, 0.0, si);
    TrapezoidRule(si, ss, 0.0, p, si, q);
  }

  /** Otherwise, with a sloped supply curve, it is the area under the supply
      curve from the price at which the supplied quantity is zero to the
      equilibrium price. */
  lemma ProducerSurplusFromPriceIntercept(si: real, ss: real, p: real, q: real, dpi: ExtReal)
    requires OnLine(si, ss, p, q) && si <= 0.0 && ss != 0.0
    requires q > 0.0 && p > 0.0
    ensures CalculateSurpluses(q, p, dpi, si, PriceIntercept(si, ss)).value.producer
            == Fin(AreaUnder(si, ss, -si / ss, p))
  {
    var bottom := -si / ss;
    assert OnLine(si, ss, bottom, 0.0);
    TrapezoidRule(si, ss, bottom, p, 0.0, q);
    var ps := CalculateSurpluses(q, p, dpi, si, PriceIntercept(si, ss)).value.producer;
    assert ps.r * 2.0 == q * (p - bottom);
  }

  /** For a downward-sloping demand curve and an upward-sloping supply curve
      meeting at a positive equilibrium both surpluses are positive. */
  lemma SurplusesPositive(di: real, ds: real, si: real, ss: real, p: real, q: real)
    requires OnLine(di, ds, p, q) && OnLine(si, ss, p, q)
    requires ds < 0.0 && ss > 0.0
    requires q > 0.0 && p > 0.0
    ensures var s := CalculateSurpluses(q, p, PriceIntercept(di, ds), si, PriceIntercept(si, ss)).value;
            s.consumer.Fin? && s.consumer.r > 0.0 && s.producer.Fin? && s.producer.r > 0.0
  {
    var top := -di / ds;
    assert top - p == -q / ds by {
      assert ds * (top - p) == -q;
    }
    assert -q / ds > 0.0;
    PositiveProduct(q, top - p);
    if si <= 0.0 {
      var bottom := -si / ss;
      assert p - bottom == q / ss by {
        assert ss * (p - bottom) == q;
      }
      PositiveProduct(q, p - bottom);
    } else {
      PositiveProduct(q + si, p);
    }
  }

  lemma PositiveProduct(x: real, y: real)
    requires x > 0.0 && y > 0.0
    ensures x * y > 0.0
  {
  }
}
