/**
  * Compounding and discounting at a percentage rate: the factor
  * `(1 + rate/100) ** year` that both the yearly free cash flows and the
  * terminal value are divided by.
  */
module Discounting {

  /** `b` raised to the natural power `n`, as Python's `**` with an int exponent. */
  function Pow(b: real, n: nat): (r: real)
    ensures b != 0.0 ==> r != 0.0
    ensures b > 0.0 ==> r > 0.0
    ensures b == 0.0 && n > 0 ==> r == 0.0
  {
    if n == 0 then 1.0 else b * Pow(b, n - 1)
  }

  /** `amount` grown by `pct` percent: `amount * (1 + pct/100)`. */
  function Compound(amount: real, pct: real): real
  {
    amount * (1.0 + pct / 100.0)
  }


  /** The compounding base `1 + rate/100` is not zero, so no discount factor is. */
  predicate Discountable(ratePct: real)
  {
    1.0 + ratePct / 100.0 != 0.0
  }

  /** The discount factor `(1 + rate/100) ** year`. */
  function DiscountFactor(ratePct: real, year: nat): (f: real)
    ensures f != 0.0 <==> (year == 0 || Discountable(ratePct))
    ensures ratePct > -100.0 ==> f > 0.0
  {
    Pow(1.0 + ratePct / 100.0, year)
  }

  /** `amount` discounted back `year` years at `ratePct`. */
  function PresentValue(amount: real, ratePct: real, year: nat): (pv: real)
    requires DiscountFactor(ratePct, year) != 0.0
    ensures pv * DiscountFactor(ratePct, year) == amount
    ensures ratePct > -100.0 ==> (pv > 0.0 <==> amount > 0.0)
  {
    amount / DiscountFactor(ratePct, year)
  }

  /** A product of two positive factors is positive. */
  lemma MulPositive(x: real, y: real)
    requires x > 0.0 && y > 0.0
    ensures x * y > 0.0
  {
  }

  /** If a product with a positive factor is positive, so is the other factor. */
  lemma FactorPositive(x: real, y: real)
    requires y > 0.0 && x * y > 0.0
    ensures x > 0.0
  {
  }

  /** At a rate above -100 percent, discounting keeps the order of amounts strict. */
  lemma PresentValueIncreases(x: real, y: real, ratePct: real, year: nat)
    requires ratePct > -100.0 && x < y
    ensures PresentValue(x, ratePct, year) < PresentValue(y, ratePct, year)
  {
    var f := DiscountFactor(ratePct, year);
    var px, py := PresentValue(x, ratePct, year), PresentValue(y, ratePct, year);
    assert (py - px) * f == y - x;
    FactorPositive(py - px, f);
  }

  /** Dividing by a positive number keeps the order strict. */
  lemma QuotientIncreases(x: real, y: real, d: real)
    requires x < y && d > 0.0
    ensures x / d < y / d
  {
    assert (y / d - x / d) * d == y - x;
    FactorPositive(y / d - x / d, d);
  }

  /** Compounding `base` grown over `n - 1` years once more gives `base` grown over `n` years. */
  lemma CompoundPow(prev: real, base: real, pct: real, n: nat)
    requires n > 0 && prev == base * Pow(1.0 + pct / 100.0, n - 1)
    ensures Compound(prev, pct) == base * Pow(1.0 + pct / 100.0, n)
  {
    var b := 1.0 + pct / 100.0;
    var p := Pow(b, n - 1);
    assert Pow(b, n) == b * p;
    assert Compound(prev, pct) == (base * p) * b;
    assert (base * p) * b == base * (b * p);
  }
}
