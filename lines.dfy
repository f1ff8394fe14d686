/** Fitted straight lines `y = intercept + slope * x` and where they cross
    the axes. */
module Lines {
  import opened Numbers

  /** An intercept/slope pair (b0, b1), as returned by the fitter. */
  datatype Line = Line(intercept: real, slope: real) {
    function At(x: real): real {
      intercept + slope * x
    }
  }

  /** `(price, quantity)` lies on `quantity = b0 + b1 * price`: the line
      (b0, b1) read with price as its argument, as the equilibrium and
      surplus code read it. */
  predicate OnLine(b0: real, b1: real, price: real, quantity: real) {
    quantity == Line(b0, b1).At(price)
  }

  /** The price at which `quantity = b0 + b1 * price` reaches quantity 0:
      `-b0 / b1`, or `inf` when the slope is exactly zero (an exact
      comparison, not the tolerance). */
  function PriceIntercept(b0: real, b1: real): (r: ExtReal)
    ensures r.PosInf? <==> b1 == 0.0
    ensures !r.NegInf?
    ensures r.Fin? ==> OnLine(b0, b1, r.r, 0.0)
  {
    if b1 != 0.0 then Fin(-b0 / b1) else PosInf
  }

  /** A finite price intercept is the only price with zero quantity. */
  lemma PriceInterceptUnique(b0: real, b1: real, price: real)
    requires OnLine(b0, b1, price, 0.0)
    requires b1 != 0.0
    ensures PriceIntercept(b0, b1) == Fin(price)
  {
    assert b1 * price == -b0;
    assert price == (b1 * price) / b1;
  }
}
