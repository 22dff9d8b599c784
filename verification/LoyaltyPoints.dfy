/** Rounding: what splitting a quantity over several order lines costs. */
module LoyaltyPoints {
  import opened Folds
  import opened LoyaltyData
  import opened LoyaltySteps

  function Quantity(items: seq<Line>): nat {
    if items == [] then 0 else Quantity(items[..|items| - 1]) + items[|items| - 1].quantity
  }

  lemma FloorOfSum(a: real, b: real)
    ensures a.Floor + b.Floor <= (a + b).Floor <= a.Floor + b.Floor + 1
  {
  }

  /** Two lines of one product, merged: never fewer points, and at most one more. */
  lemma MergeTwoLines(cfg: Settings, p: Product, m: nat, n: nat, multiplier: real)
    ensures
      var split := ItemPoints(cfg, Line(p, m), multiplier) + ItemPoints(cfg, Line(p, n), multiplier);
      split <= ItemPoints(cfg, Line(p, m + n), multiplier) <= split + 1
  {
    var rate := Rate(cfg, p, multiplier);
    assert (m + n) as real == m as real + n as real;
    assert rate * (m as real + n as real) == rate * m as real + rate * n as real;
    FloorOfSum(rate * m as real, rate * n as real);
    assert p.points * (m + n) == p.points * m + p.points * n;
  }

  /**
   * An order with k lines of one product is awarded at most what one line with the whole quantity would be,
   * and at least that less k - 1.
   */
  lemma {:induction false} SplittingCosts(
    u: nat, o: nat, items: seq<Line>, p: Product, cfg: Settings, multiplier: real, now: int
  )
    requires items != [] && forall i :: 0 <= i < |items| ==> items[i].product == p
    ensures
      var total := Sum(AwardRows(u, o, items, cfg, multiplier, now), PointsOf(u));
      var whole := ItemPoints(cfg, Line(p, Quantity(items)), multiplier);
      total <= whole <= total + |items| - 1
  {
    var k := |items| - 1;
    var front := items[..k];
    var rows := AwardRows(u, o, items, cfg, multiplier, now);
    assert rows[..k] == AwardRows(u, o, front, cfg, multiplier, now);
    assert rows[k] in rows;
    assert items[k] == Line(p, items[k].quantity);
    assert rows[k].points == ItemPoints(cfg, items[k], multiplier);
    if k > 0 {
      SplittingCosts(u, o, front, p, cfg, multiplier, now);
      MergeTwoLines(cfg, p, Quantity(front), items[k].quantity, multiplier);
    }
  }

  /** A catalogue of non-negative prices, coefficients and factor grants non-negative points. */
  lemma NonNegativeCatalogue(cfg: Settings, line: Line, multiplier: real)
    requires PriceBasisAmount(cfg, line.product) >= 0.0 && cfg.factor >= 0.0 && line.product.coefficient >= 0.0
    ensures ItemPoints(cfg, line, multiplier) >= 0
  {
    var amount := PriceBasisAmount(cfg, line.product) * cfg.factor;
    assert amount >= 0.0;
    assert amount * line.product.coefficient >= 0.0;
    assert Rate(cfg, line.product, multiplier) >= 0.0;
    assert Rate(cfg, line.product, multiplier) * line.quantity as real >= 0.0;
  }

  lemma RateMonotone(a: real, b: real, c: real)
    requires a <= b && c >= 0.0
    ensures a * c <= b * c
  {
    assert b * c - a * c == (b - a) * c;
  }

  lemma FloorMonotone(a: real, b: real)
    requires a <= b
    ensures a.Floor <= b.Floor
  {
  }

  /** A higher rate never grants fewer points. */
  lemma PointsFollowRate(cfg: Settings, cfg': Settings, line: Line, m: real, m': real)
    requires Rate(cfg, line.product, m) <= Rate(cfg', line.product, m')
    ensures ItemPoints(cfg, line, m) <= ItemPoints(cfg', line, m')
  {
    RateMonotone(Rate(cfg, line.product, m), Rate(cfg', line.product, m'), line.quantity as real);
    FloorMonotone(Rate(cfg, line.product, m) * line.quantity as real, Rate(cfg', line.product, m') * line.quantity as real);
  }

  lemma RateFollowsPrice(cfg: Settings, lower: PriceBasis, higher: PriceBasis, p: Product, m: real)
    requires cfg.factor >= 0.0 && p.coefficient >= 0.0
    requires PriceBasisAmount(cfg.(basis := lower), p) <= PriceBasisAmount(cfg.(basis := higher), p)
    ensures Rate(cfg.(basis := lower), p, m) <= Rate(cfg.(basis := higher), p, m)
  {
    var a, b := PriceBasisAmount(cfg.(basis := lower), p), PriceBasisAmount(cfg.(basis := higher), p);
    RateMonotone(a, b, cfg.factor);
    var a1, b1 := a * cfg.factor, b * cfg.factor;
    RateMonotone(a1, b1, p.coefficient);
    var a2, b2 := a1 * p.coefficient, b1 * p.coefficient;
    if cfg.tierMultiplierEnabled && m > 1.0 {
      RateMonotone(a2, b2, m);
    }
  }

  lemma PointsFollowPrice(cfg: Settings, lower: PriceBasis, higher: PriceBasis, line: Line, m: real)
    requires cfg.factor >= 0.0 && line.product.coefficient >= 0.0
    requires PriceBasisAmount(cfg.(basis := lower), line.product) <= PriceBasisAmount(cfg.(basis := higher), line.product)
    ensures ItemPoints(cfg.(basis := lower), line, m) <= ItemPoints(cfg.(basis := higher), line, m)
  {
    RateFollowsPrice(cfg, lower, higher, line.product, m);
    PointsFollowRate(cfg.(basis := lower), cfg.(basis := higher), line, m, m);
  }

  /**
   * How the choice of price basis matters: counting a discount never raises the points, counting VAT never
   * lowers them, and the final price, with both, lies between the discounted net and the full gross price.
   */
  lemma BasesOrdered(cfg: Settings, line: Line, m: real)
    requires cfg.factor >= 0.0 && line.product.coefficient >= 0.0
    requires var p := line.product;
      p.discount >= 0.0 && p.vat >= 0.0 && p.finalPrice == p.price + p.vat - p.discount
    ensures
      var points := (b: PriceBasis) => ItemPoints(cfg.(basis := b), line, m);
      points(ExclVatWithDiscount) <= points(ExclVatNoDiscount) <= points(InclVatNoDiscount) &&
      points(ExclVatWithDiscount) <= points(FinalPrice) <= points(InclVatNoDiscount)
  {
    PointsFollowPrice(cfg, ExclVatWithDiscount, ExclVatNoDiscount, line, m);
    PointsFollowPrice(cfg, ExclVatNoDiscount, InclVatNoDiscount, line, m);
    PointsFollowPrice(cfg, ExclVatWithDiscount, FinalPrice, line, m);
    PointsFollowPrice(cfg, FinalPrice, InclVatNoDiscount, line, m);
  }

  /** A tier never costs points, and a multiplier up to one, or with the setting off, makes no difference. */
  lemma TierNeverCosts(cfg: Settings, line: Line, m: real)
    requires PriceBasisAmount(cfg, line.product) >= 0.0 && cfg.factor >= 0.0 && line.product.coefficient >= 0.0
    ensures ItemPoints(cfg, line, 1.0) <= ItemPoints(cfg, line, m)
    ensures !cfg.tierMultiplierEnabled || m <= 1.0 ==> ItemPoints(cfg, line, m) == ItemPoints(cfg, line, 1.0)
  {
    if cfg.tierMultiplierEnabled && m > 1.0 {
      var base := Rate(cfg, line.product, 1.0);
      RateMonotone(0.0, PriceBasisAmount(cfg, line.product), cfg.factor);
      RateMonotone(0.0, PriceBasisAmount(cfg, line.product) * cfg.factor, line.product.coefficient);
      RateMonotone(1.0, m, base);
      assert Rate(cfg, line.product, m) == m * base;
      PointsFollowRate(cfg, cfg, line, 1.0, m);
    }
  }
}
