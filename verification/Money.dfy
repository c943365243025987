/** Amounts in units of 1e-8 and their rounding, half to even, to a currency's minor unit. */
module Money {

  /** One minor unit of a currency, in units of 1e-8: two digits in general, none for JPY, three for BHD. */
  function Quantum(currency: string): (q: int)
    ensures q > 0 && q % 2 == 0
  {
    if currency == "JPY" then 100_000_000 else if currency == "BHD" then 100_000 else 1_000_000
  }

  /** The minor units: no digits for JPY, three for BHD and two for the other known currencies. */
  lemma MinorUnits(currency: string)
    requires currency in ["USD", "EUR", "GBP", "JPY", "CAD", "AUD", "CHF", "CNY", "BHD"]
    ensures Quantum(currency) * (if currency == "JPY" then 1 else if currency == "BHD" then 1000 else 100) == 100_000_000
  {
  }

  /** The number of whole units nearest to `a`; of two equally near ones, the even one. */
  function HalfEven(a: int, unit: int): int
    requires unit > 0
  {
    var k, r := a / unit, a % unit;
    if 2 * r < unit then k else if 2 * r > unit then k + 1 else if k % 2 == 0 then k else k + 1
  }

  /** `quantize_to_currency` */
  function Quantize(a: int, currency: string): int {
    HalfEven(a, Quantum(currency)) * Quantum(currency)
  }

  predicate AtPrecision(a: int, currency: string) {
    a % Quantum(currency) == 0
  }

  function Abs(x: int): nat {
    if x < 0 then -x else x
  }

  // ----- What the rounding is: the nearest multiple, ties to even -----

  lemma HalfEvenNear(a: int, unit: int)
    requires unit > 0
    ensures var k := HalfEven(a, unit);
            2 * Abs(a - k * unit) <= unit && (2 * Abs(a - k * unit) == unit ==> k % 2 == 0)
  {
    var k, r := a / unit, a % unit;
    assert a == k * unit + r;
    assert (k + 1) * unit == k * unit + unit;
  }

  lemma TimesKeepsOrder(a: int, b: int, unit: int)
    requires unit > 0 && a <= b
    ensures a * unit <= b * unit
  {
  }

  /** The two conditions above determine the result. */
  lemma HalfEvenUnique(a: int, unit: int, k: int)
    requires unit > 0 && 2 * Abs(a - k * unit) <= unit && (2 * Abs(a - k * unit) == unit ==> k % 2 == 0)
    ensures HalfEven(a, unit) == k
  {
    HalfEvenNear(a, unit);
    var h := HalfEven(a, unit);
    NearIsUnique(a, unit, h, k);
    NearIsUnique(a, unit, k, h);
  }

  lemma NearIsUnique(a: int, unit: int, h: int, k: int)
    requires unit > 0
    requires 2 * Abs(a - h * unit) <= unit && (2 * Abs(a - h * unit) == unit ==> h % 2 == 0)
    requires 2 * Abs(a - k * unit) <= unit && (2 * Abs(a - k * unit) == unit ==> k % 2 == 0)
    ensures h <= k
  {
    if h > k {
      assert (k + 1) * unit == k * unit + unit && (k + 2) * unit == k * unit + 2 * unit;
      if h >= k + 2 {
        TimesKeepsOrder(k + 2, h, unit);
      }
    }
  }

  /** Rounding keeps the sign and is symmetric around zero. */
  lemma QuantizeNegates(a: int, currency: string)
    ensures Quantize(-a, currency) == -Quantize(a, currency)
  {
    var q, k := Quantum(currency), HalfEven(a, Quantum(currency));
    HalfEvenNear(a, q);
    assert (-k) * q == -(k * q);
    HalfEvenUnique(-a, q, -k);
  }

  lemma QuantizeNear(a: int, currency: string)
    ensures 2 * Abs(Quantize(a, currency) - a) <= Quantum(currency)
    ensures AtPrecision(Quantize(a, currency), currency)
    ensures AtPrecision(a, currency) <==> Quantize(a, currency) == a
  {
    var q, k := Quantum(currency), HalfEven(a, Quantum(currency));
    HalfEvenNear(a, q);
    MultipleRemainder(k, q);
    if AtPrecision(a, currency) {
      assert a == (a / q) * q;
      HalfEvenUnique(a, q, a / q);
    }
  }

  lemma MultipleRemainder(k: int, q: int)
    requires q > 0
    ensures (k * q) % q == 0
  {
    var d, r := (k * q) / q, (k * q) % q;
    assert k * q == d * q + r;
    assert (d + 1) * q == d * q + q;
    if k > d {
      TimesKeepsOrder(d + 1, k, q);
    } else {
      TimesKeepsOrder(k, d, q);
    }
  }

  lemma SumAtPrecision(a: int, b: int, currency: string)
    requires AtPrecision(a, currency) && AtPrecision(b, currency)
    ensures AtPrecision(a + b, currency) && AtPrecision(-a, currency)
  {
    var q := Quantum(currency);
    assert a == (a / q) * q && b == (b / q) * q;
    assert a + b == (a / q + b / q) * q && -a == (-(a / q)) * q;
    MultipleRemainder(a / q + b / q, q);
    MultipleRemainder(-(a / q), q);
  }
}
