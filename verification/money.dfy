/** Currency amounts. Prices are stored as Decimal128 and computed through
    JavaScript numbers; here every amount is an exact whole number of cents
    and the one rounding step the code performs (`toFixed(2)`) is explicit. */
module Money {

  /** An amount of money in cents. */
  type Cents = int

  /** `n / d` rounded to the nearest integer, halves away from zero: the
      effect of `toFixed(2)` on an exact amount of `n / d` cents. */
  function RoundDiv(n: int, d: int): (r: int)
    requires d > 0
    ensures n >= 0 ==> -d <= 2 * (n - d * r) < d
    ensures n < 0 ==> -d < 2 * (n - d * r) <= d
    ensures n >= 0 ==> r >= 0
  {
    if n >= 0 then HalfUp(n, d)
    else
      var q: int := HalfUp(-n, d);
      assert d * (-q) == -(d * q);
      -q
  }

  /** `n / d` rounded to the nearest integer, halves upwards, for `n >= 0`. */
  function HalfUp(n: nat, d: int): (r: nat)
    requires d > 0
    ensures -d <= 2 * (n - d * r) < d
  {
    var t := 2 * n + d;
    var q := t / (2 * d);
    assert t == (2 * d) * q + t % (2 * d);
    assert (2 * d) * q == 2 * (d * q);
    q
  }

  /** The price after taking `percentage` per cent off `base`, rounded to
      cents: `base - base * percentage / 100`, then `toFixed(2)`. */
  function DiscountedPrice(base: Cents, percentage: int): Cents {
    RoundDiv(base * (100 - percentage), 100)
  }

  /** A discount within the accepted range moves the price towards zero
      and never past it: it never raises a non-negative price nor makes it
      negative, and never lowers a negative price nor makes it positive. */
  lemma DiscountedPriceBounds(base: Cents, percentage: int)
    requires 0 <= percentage <= 100
    ensures base >= 0 ==> 0 <= DiscountedPrice(base, percentage) <= base
    ensures base < 0 ==> base <= DiscountedPrice(base, percentage) <= 0
  {
    if base >= 0 {
      NonNegativeBaseBounds(base, percentage);
    } else {
      NegativeBaseBounds(base, percentage);
    }
  }

  /** The bounds for a base price of zero or more. */
  lemma NonNegativeBaseBounds(base: Cents, percentage: int)
    requires base >= 0 && 0 <= percentage <= 100
    ensures 0 <= DiscountedPrice(base, percentage) <= base
  {
    var n := base * (100 - percentage);
    assert n == 100 * base - base * percentage;
    assert base * percentage >= 0;
    var r := RoundDiv(n, 100);
    assert -100 <= 2 * (n - 100 * r);
    assert 100 * r <= 100 * base + 50;
  }

  /** The bounds for a negative base price, by symmetry: rounding halves
      away from zero makes the discounted price of `-base` the negation of
      that of `base`. */
  lemma NegativeBaseBounds(base: Cents, percentage: int)
    requires base < 0 && 0 <= percentage <= 100
    ensures base <= DiscountedPrice(base, percentage) <= 0
  {
    var m := -base;
    var k := m * (100 - percentage);
    assert base * (100 - percentage) == -k;
    assert k >= 0;
    NonNegativeBaseBounds(m, percentage);
    if k == 0 {
      assert DiscountedPrice(base, percentage) == RoundDiv(0, 100);
    } else {
      var h: int := HalfUp(k, 100);
      assert DiscountedPrice(base, percentage) == RoundDiv(-k, 100) == -h;
      assert DiscountedPrice(m, percentage) == h;
    }
  }

  /** Taking 0 per cent off leaves the price unchanged; taking 100 per cent
      off makes it free. */
  lemma DiscountedPriceExtremes(base: Cents)
    ensures DiscountedPrice(base, 0) == base
    ensures DiscountedPrice(base, 100) == 0
  {
    var r := RoundDiv(base * 100, 100);
    assert -100 <= 2 * (base * 100 - 100 * r) <= 100;
  }
}
