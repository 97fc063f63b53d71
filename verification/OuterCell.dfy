// One outer cell of the nine-point map in coordinates of its inner edge: X is the distance from that
// edge outwards.  The side leans, X = e + s * Y, and so do the lines above and below, which leave the
// inner edge at t and b with slopes m and n.  The cell sends (X, Y) to the two fractions
// X / (e + s * Y) and (Y - (t + m * X)) / ((b + n * X) - (t + m * X)).
module OuterCell {
  import opened Lines

  datatype Cell = Cell(e: real, s: real, t: real, m: real, b: real, n: real) {
    // The lines above and below do not meet on the inner edge.
    predicate Proper() {
      t < b
    }

    function Side(Y: real): real { e + Times(s, Y) }
    function Top(X: real): real { t + Times(m, X) }
    function Bottom(X: real): real { b + Times(n, X) }

    predicate Contains(X: real, Y: real) {
      0.0 <= X <= Side(Y) && Top(X) <= Y <= Bottom(X)
    }

    // Contained, and neither fraction is 0/0.
    predicate Defined(X: real, Y: real) {
      Contains(X, Y) && 0.0 < Side(Y) && Top(X) < Bottom(X)
    }

    function U(X: real, Y: real): real
      requires Defined(X, Y)
    {
      Quot(X, Side(Y))
    }

    function V(X: real, Y: real): real
      requires Defined(X, Y)
    {
      Quot(Y - Top(X), Bottom(X) - Top(X))
    }

    // Where the side meets the inner edge, and how far down that edge.
    function Crossing(): real
      requires s != 0.0
    {
      Quot(-e, s)
    }

    function Share(): real
      requires s != 0.0 && Proper()
    {
      Quot(Crossing() - t, b - t)
    }

    // The slope at which the lines between top and bottom leave the inner edge there.
    function Slope(): real
      requires s != 0.0 && Proper()
    {
      Mix(Share(), m, n)
    }

    // The side meets the inner edge within the cell, and that line runs inside the cell from there.
    predicate Folds()
      requires Proper()
    {
      s != 0.0 && t <= Crossing() <= b && Times(s, Slope()) >= 1.0
    }
  }

  function Mix(v: real, p: real, q: real): real {
    p + Times(v, q - p)
  }

  // ---------- two points with the same fractions ----------

  // The fractions tie the point to two lines.
  predicate Solves(c: Cell, u: real, v: real, X: real, Y: real) {
    X == Times(u, c.Side(Y)) && Y == Mix(v, c.Top(X), c.Bottom(X))
  }

  lemma Equations(c: Cell, X: real, Y: real, u: real, v: real)
    requires c.Defined(X, Y) && u == c.U(X, Y) && v == c.V(X, Y)
    ensures 0.0 <= u <= 1.0 && 0.0 <= v <= 1.0 && Solves(c, u, v, X, Y)
  {
    QuotUnit(X, c.Side(Y));
    QuotUnit(Y - c.Top(X), c.Bottom(X) - c.Top(X));
  }

  // A point between two lines moves along a line between them.
  lemma MixLines(v: real, t: real, m: real, b: real, n: real, X: real)
    ensures Mix(v, t + Times(m, X), b + Times(n, X)) == Mix(v, t, b) + Times(Mix(v, m, n), X)
  {
    var p, q := m * X, n * X;
    assert v * ((b + q) - (t + p)) == v * (b - t) + (v * q - v * p);
    assert (m + v * (n - m)) * X == p + (v * q - v * p) by {
      assert (v * (n - m)) * X == v * (n * X) - v * (m * X);
    }
  }

  // On the line with slope k the side is tied to X by u * s * k.
  lemma SideAlong(u: real, e: real, s: real, y: real, k: real, X: real)
    ensures Times(u, e + Times(s, y + Times(k, X))) ==
            Times(u, e + Times(s, y)) + Times(Times(u, Times(s, k)), X)
  {
    assert s * (y + k * X) == s * y + (s * k) * X;
    assert u * ((s * k) * X) == (u * (s * k)) * X;
    assert u * ((e + s * y) + (s * k) * X) == u * (e + s * y) + u * ((s * k) * X);
  }

  lemma Fixed(a: real, g: real, X: real, X': real)
    requires X == a + Times(g, X) && X' == a + Times(g, X')
    ensures X == X' || (g == 1.0 && a == 0.0)
  {
    assert (1.0 - g) * (X - X') == (X - X') - (g * X - g * X');
    if X != X' {
      ZeroFactor(X - X', 1.0 - g);
      assert g == 1.0;
      Unit(g, X);
    }
  }

  lemma Unit(g: real, X: real)
    requires g == 1.0
    ensures Times(g, X) == X
  {
  }

  lemma ZeroFactor(u: real, a: real)
    requires Times(u, a) == 0.0 && u != 0.0
    ensures a == 0.0
  {
  }

  lemma InverseAtLeastOne(u: real, q: real)
    requires Times(u, q) == 1.0 && 0.0 <= u <= 1.0
    ensures u != 0.0 && q >= 1.0
  {
    assert u == 0.0 ==> u * q == 0.0;
    assert u == 1.0 ==> u * q == q;
    assert u * (1.0 - q) == u - u * q;
    assert q < 1.0 ==> Times(u, 1.0 - q) >= 0.0 by {
      if q < 1.0 {
        NotNegative(u, 1.0 - q);
      }
    }
  }

  // Two points with the same fractions coincide unless the cell folds.
  lemma SameImage(c: Cell, X: real, Y: real, X': real, Y': real)
    requires c.Proper() && c.Defined(X, Y) && c.Defined(X', Y') && !c.Folds()
    requires c.U(X, Y) == c.U(X', Y') && c.V(X, Y) == c.V(X', Y')
    ensures X == X' && Y == Y'
  {
    var u, v := c.U(X, Y), c.V(X, Y);
    Equations(c, X, Y, u, v);
    Equations(c, X', Y', u, v);
    SameSolution(c, u, v, X, Y, X', Y');
  }

  lemma SameSolution(c: Cell, u: real, v: real, X: real, Y: real, X': real, Y': real)
    requires c.Proper() && !c.Folds() && 0.0 <= u <= 1.0 && 0.0 <= v <= 1.0
    requires Solves(c, u, v, X, Y) && Solves(c, u, v, X', Y')
    ensures X == X' && Y == Y'
  {
    var y, k := Mix(v, c.t, c.b), Mix(v, c.m, c.n);
    OnMixed(c, u, v, X, Y, y, k);
    OnMixed(c, u, v, X', Y', y, k);
    Fixed(Times(u, c.e + Times(c.s, y)), Times(u, Times(c.s, k)), X, X');
    if X != X' {
      Singular(c, u, v, y, k);
    }
  }

  lemma OnMixed(c: Cell, u: real, v: real, X: real, Y: real, y: real, k: real)
    requires Solves(c, u, v, X, Y) && y == Mix(v, c.t, c.b) && k == Mix(v, c.m, c.n)
    ensures Y == y + Times(k, X)
    ensures X == Times(u, c.e + Times(c.s, y)) + Times(Times(u, Times(c.s, k)), X)
  {
    MixLines(v, c.t, c.m, c.b, c.n, X);
    SideAlong(u, c.e, c.s, y, k, X);
  }

  lemma Singular(c: Cell, u: real, v: real, y: real, k: real)
    requires c.Proper() && 0.0 <= u <= 1.0 && 0.0 <= v <= 1.0
    requires y == Mix(v, c.t, c.b) && k == Mix(v, c.m, c.n)
    requires Times(u, c.e + Times(c.s, y)) == 0.0 && Times(u, Times(c.s, k)) == 1.0
    ensures c.Folds()
  {
    InverseAtLeastOne(u, Times(c.s, k));
    ZeroFactor(u, c.e + Times(c.s, y));
    assert c.s == 0.0 ==> Times(c.s, k) == 0.0;
    DivUnique(-c.e, c.s, y);
    DivUnique(y - c.t, c.b - c.t, v);
    MixBetween(v, c.t, c.b);
  }

  lemma MixBetween(v: real, p: real, q: real)
    requires 0.0 <= v <= 1.0 && p <= q
    ensures p <= Mix(v, p, q) <= q
  {
    NotNegative(v, q - p);
    NotNegative(1.0 - v, q - p);
    assert (1.0 - v) * (q - p) == (q - p) - v * (q - p);
  }

  lemma NotNegative(a: real, b: real)
    requires a >= 0.0 && b >= 0.0
    ensures Times(a, b) >= 0.0
  {
  }

  // A side that turns properly into both lines, the slopes multiplying to less than one, never folds.
  lemma TurnsNotFold(c: Cell)
    requires c.Proper() && Times(c.s, c.m) < 1.0 && Times(c.s, c.n) < 1.0
    ensures !c.Folds()
  {
    if c.s != 0.0 && c.t <= c.Crossing() <= c.b {
      var v := c.Share();
      QuotUnit(c.Crossing() - c.t, c.b - c.t);
      MixScaled(v, c.s, c.m, c.n);
      MixBelow(v, Times(c.s, c.m), Times(c.s, c.n));
    }
  }

  lemma MixScaled(v: real, s: real, m: real, n: real)
    ensures Times(s, Mix(v, m, n)) == Mix(v, Times(s, m), Times(s, n))
  {
    assert s * (v * (n - m)) == v * (s * n - s * m);
  }

  lemma MixBelow(v: real, p: real, q: real)
    requires 0.0 <= v <= 1.0 && p < 1.0 && q < 1.0
    ensures Mix(v, p, q) < 1.0
  {
    if p <= q {
      MixBetween(v, p, q);
    } else {
      NotNegative(v, p - q);
      assert v * (q - p) == -(v * (p - q));
    }
  }

  // ---------- a folded cell ----------

  // The point at distance X on the line that starts where the side meets the inner edge.
  function FoldPoint(c: Cell, X: real): (real, real)
    requires c.Proper() && c.Folds()
  {
    (X, c.Crossing() + Times(c.Slope(), X))
  }

  // Up to this distance the lines above and below have not met.
  function Reach(c: Cell): (d: real)
    requires c.Proper()
    ensures d > 0.0
    ensures forall X :: 0.0 < X <= d ==> c.Top(X) < c.Bottom(X)
  {
    if c.m <= c.n then
      assert forall X :: 0.0 < X <= 1.0 ==> c.Top(X) < c.Bottom(X) by {
        forall X | 0.0 < X <= 1.0
          ensures c.Top(X) < c.Bottom(X)
        {
          Parting(c.t, c.m, c.b, c.n, X);
        }
      }
      1.0
    else
      var d := Quot(c.b - c.t, 2.0 * (c.m - c.n));
      MulDiv(c.b - c.t, 2.0 * (c.m - c.n));
      assert d <= 0.0 ==> d * (2.0 * (c.m - c.n)) <= 0.0;
      assert forall X :: 0.0 < X <= d ==> c.Top(X) < c.Bottom(X) by {
        forall X | 0.0 < X <= d
          ensures c.Top(X) < c.Bottom(X)
        {
          NotYetMet(c.t, c.m, c.b, c.n, X, d);
        }
      }
      d
  }

  lemma Parting(t: real, m: real, b: real, n: real, X: real)
    requires t < b && m <= n && X > 0.0
    ensures t + Times(m, X) < b + Times(n, X)
  {
    NotNegative(n - m, X);
    assert Times(n - m, X) == n * X - m * X;
  }

  lemma NotYetMet(t: real, m: real, b: real, n: real, X: real, d: real)
    requires t < b && m > n && 0.0 < X <= d && d * (2.0 * (m - n)) == b - t
    ensures t + Times(m, X) < b + Times(n, X)
  {
    NotNegative(d - X, m - n);
    assert Times(d - X, m - n) == d * (m - n) - X * (m - n);
    assert d * (2.0 * (m - n)) == 2.0 * (d * (m - n));
    assert X * (m - n) == m * X - n * X;
  }

  // Every point of that line within reach is in the cell and has the same image.
  lemma FoldCollapses(c: Cell, X: real)
    requires c.Proper() && c.Folds() && 0.0 < X <= Reach(c)
    ensures var p := FoldPoint(c, X);
            && c.Defined(p.0, p.1) && c.U(p.0, p.1) == Quot(1.0, Times(c.s, c.Slope())) && c.V(p.0, p.1) == c.Share()
  {
    var y, v, k := c.Crossing(), c.Share(), c.Slope();
    var Y := FoldPoint(c, X).1;
    QuotUnit(y - c.t, c.b - c.t);
    MulDiv(-c.e, c.s);
    assert y == Mix(v, c.t, c.b);
    assert Y == Mix(v, c.Top(X), c.Bottom(X)) by {
      MixLines(v, c.t, c.m, c.b, c.n, X);
    }
    assert c.Side(Y) == Times(Times(c.s, k), X) by {
      SideOnFold(c.e, c.s, y, k, X);
    }
    HasImage(c, X, Y, Times(c.s, k), v);
  }

  lemma SideOnFold(e: real, s: real, y: real, k: real, X: real)
    requires y * s == -e
    ensures e + Times(s, y + Times(k, X)) == Times(Times(s, k), X)
  {
    assert s * (y + k * X) == s * y + (s * k) * X;
  }

  lemma HasImage(c: Cell, X: real, Y: real, q: real, v: real)
    requires X > 0.0 && q >= 1.0 && c.Side(Y) == Times(q, X) && c.Top(X) < c.Bottom(X)
    requires 0.0 <= v <= 1.0 && Y == Mix(v, c.Top(X), c.Bottom(X))
    ensures c.Defined(X, Y) && c.U(X, Y) == Quot(1.0, q) && c.V(X, Y) == v
  {
    MixBetween(v, c.Top(X), c.Bottom(X));
    assert q * X >= 1.0 * X;
    MulDiv(1.0, q);
    Scaling(Quot(1.0, q), q, X);
    DivUnique(X, c.Side(Y), Quot(1.0, q));
    DivUnique(Y - c.Top(X), c.Bottom(X) - c.Top(X), v);
  }

  lemma Scaling(i: real, q: real, X: real)
    requires i * q == 1.0
    ensures i * Times(q, X) == X
  {
    assert i * (q * X) == (i * q) * X;
  }
}
