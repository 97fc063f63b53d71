// What the five- and nine-point maps share: fractions that may be 0/0, and placing a fraction in
// its part of the 0..32766 output square.
module Calibration {
  import opened Wrappers
  import opened Lines

  const MAX_VALUE := 32767
  const HALF: real := (MAX_VALUE / 2) as real
  const QUARTER: real := (MAX_VALUE / 4) as real
  const THREE_QUARTERS: real := (MAX_VALUE * 3 / 4) as real

  // The real coordinates a touch is mapped to; None where the code divides zero by zero.
  // Off is a touch that is reported as absent.
  datatype Mapped = Off | At(x: Option<real>, y: Option<real>)

  // base + n / d * span
  function Place(base: real, n: real, d: real, span: real): Option<real> {
    if d == 0.0 then None else Some(base + Quot(n, d) * span)
  }

  predicate Within(r: Option<real>, lo: real, hi: real) {
    r.Some? ==> lo <= r.value <= hi
  }

  // A fraction of ordered parts lands in its span, at the ends when it is 0 or 1.
  lemma PlaceWithin(base: real, n: real, d: real, span: real)
    requires 0.0 <= n <= d && span >= 0.0
    ensures Within(Place(base, n, d, span), base, base + span)
    ensures n == 0.0 && d != 0.0 ==> Place(base, n, d, span) == Some(base)
    ensures n == d && d != 0.0 ==> Place(base, n, d, span) == Some(base + span)
  {
    if d != 0.0 {
      var q := Quot(n, d);
      QuotUnit(n, d);
      Scaled(q, span);
      if n == 0.0 {
        DivUnique(n, d, 0.0);
        assert q == 0.0;
      }
      if n == d {
        DivUnique(n, d, 1.0);
        assert q == 1.0;
      }
    }
  }

  // Part of a span.
  lemma Scaled(q: real, span: real)
    requires 0.0 <= q <= 1.0 && span >= 0.0
    ensures 0.0 <= q * span <= span
    ensures q == 0.0 ==> q * span == 0.0
    ensures q == 1.0 ==> q * span == span
  {
    assert q * span >= 0.0;
    assert (1.0 - q) * span >= 0.0;
    assert (1.0 - q) * span == span - q * span;
  }

  lemma PlaceMonotone(base: real, n: real, n': real, d: real, span: real)
    requires n <= n' && d > 0.0 && span >= 0.0
    ensures Place(base, n, d, span).value <= Place(base, n', d, span).value
  {
    var q, q' := Quot(n, d), Quot(n', d);
    MulDiv(n, d);
    MulDiv(n', d);
    assert (q' - q) * d == n' - n;
    assert q <= q';
    assert (q' - q) * span >= 0.0;
  }

  // A numerator in proportion between two others is placed in proportion between their places.
  lemma PlaceBetween(base: real, n: real, n': real, t: real, d: real, span: real)
    requires d != 0.0
    ensures var (p, p') := (Place(base, n, d, span).value, Place(base, n', d, span).value);
            Place(base, n + Times(t, n' - n), d, span).value == p + Times(t, p' - p)
  {
    var q, q' := Quot(n, d), Quot(n', d);
    MulDiv(n, d);
    MulDiv(n', d);
    Proportional(q, q', t, d);
    DivUnique(n + Times(t, n' - n), d, q + Times(t, q' - q));
    Proportional(q, q', t, span);
    var p, p' := base + q * span, base + q' * span;
    assert p' - p == q' * span - q * span;
    assert Place(base, n + Times(t, n' - n), d, span).value == p + Times(t, p' - p);
  }

  lemma Proportional(q: real, q': real, t: real, k: real)
    ensures (q + Times(t, q' - q)) * k == q * k + Times(t, q' * k - q * k)
  {
    assert (t * (q' - q)) * k == t * ((q' - q) * k);
    assert (q' - q) * k == q' * k - q * k;
  }

  // Equal places over the same denominator are equal numerators.
  lemma PlaceInjective(base: real, n: real, n': real, d: real, span: real)
    requires d != 0.0 && span > 0.0 && Place(base, n, d, span) == Place(base, n', d, span)
    ensures n == n'
  {
    var q, q' := Quot(n, d), Quot(n', d);
    MulDiv(n, d);
    MulDiv(n', d);
    assert (q - q') * span == 0.0;
  }
}
