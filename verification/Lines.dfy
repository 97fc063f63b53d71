// Straight lines Ax + By + C = 0 as the calibration code of TouchscreenFilterDriver.c builds and
// evaluates them.  DOUBLE is modelled by exact reals.
module Lines {
  type UInt16 = n: int | 0 <= n < 0x1_0000

  datatype Point = Point(x: UInt16, y: UInt16)

  datatype Line = Line(a: real, b: real, c: real)

  function DoCalcCoeff(p: Point, q: Point): Line {
    var a := (q.y - p.y) as real;
    var b := (p.x - q.x) as real;
    Line(a, b, -a * p.x as real - b * p.y as real)
  }

  function Quot(n: real, d: real): real
    requires d != 0.0
  {
    n / d
  }

  function Times(a: real, b: real): real {
    a * b
  }

  function Fx(l: Line, y: real): real
    requires l.a != 0.0
  {
    Quot(-(l.b * y + l.c), l.a)
  }

  function Fy(l: Line, x: real): real
    requires l.b != 0.0
  {
    Quot(-(l.a * x + l.c), l.b)
  }

  // How far the line moves in x for a unit of y, and in y for a unit of x.
  function SlopeX(l: Line): real
    requires l.a != 0.0
  {
    Quot(-l.b, l.a)
  }

  function SlopeY(l: Line): real
    requires l.b != 0.0
  {
    Quot(-l.a, l.b)
  }

  lemma DivUnique(n: real, d: real, q: real)
    requires d != 0.0 && n == q * d
    ensures Quot(n, d) == q
  {
  }

  lemma MulDiv(n: real, d: real)
    requires d != 0.0
    ensures Quot(n, d) * d == n
  {
  }

  lemma QuotUnit(n: real, d: real)
    requires 0.0 <= n <= d && 0.0 < d
    ensures 0.0 <= Quot(n, d) <= 1.0 && Quot(n, d) * d == n
  {
  }

  lemma FxAffine(l: Line, y: real, y0: real)
    requires l.a != 0.0
    ensures Fx(l, y) == Fx(l, y0) + SlopeX(l) * (y - y0)
  {
    MulDiv(-(l.b * y + l.c), l.a);
    MulDiv(-(l.b * y0 + l.c), l.a);
    MulDiv(-l.b, l.a);
    var d := Fx(l, y) - Fx(l, y0) - SlopeX(l) * (y - y0);
    assert d * l.a == Fx(l, y) * l.a - Fx(l, y0) * l.a - (SlopeX(l) * l.a) * (y - y0);
    assert d * l.a == 0.0;
  }

  lemma FyAffine(l: Line, x: real, x0: real)
    requires l.b != 0.0
    ensures Fy(l, x) == Fy(l, x0) + SlopeY(l) * (x - x0)
  {
    var t := Line(l.b, l.a, l.c);
    assert Fx(t, x) == Fy(l, x) && Fx(t, x0) == Fy(l, x0) && SlopeX(t) == SlopeY(l);
    FxAffine(t, x, x0);
  }

  lemma OnLine(l: Line, x: real, y: real)
    requires l.a * x + l.b * y + l.c == 0.0
    ensures l.a != 0.0 ==> Fx(l, y) == x
    ensures l.b != 0.0 ==> Fy(l, x) == y
  {
    if l.a != 0.0 {
      DivUnique(-(l.b * y + l.c), l.a, x);
    }
    if l.b != 0.0 {
      DivUnique(-(l.a * x + l.c), l.b, y);
    }
  }

  lemma EndsOnLine(px: real, py: real, qx: real, qy: real, a: real, b: real, c: real)
    requires a == qy - py && b == px - qx && c == -a * px - b * py
    ensures a * px + b * py + c == 0.0 && a * qx + b * qy + c == 0.0
  {
    assert a * qx + b * qy + c == a * (qx - px) + b * (qy - py);
    assert a * (qx - px) == -(a * b);
    assert b * (qy - py) == b * a;
  }

  // The line passes through both points it was built from.
  lemma ThroughPoints(p: Point, q: Point)
    ensures var l := DoCalcCoeff(p, q);
            && (l.a != 0.0 ==> Fx(l, p.y as real) == p.x as real && Fx(l, q.y as real) == q.x as real)
            && (l.b != 0.0 ==> Fy(l, p.x as real) == p.y as real && Fy(l, q.x as real) == q.y as real)
  {
    var l := DoCalcCoeff(p, q);
    EndsOnLine(p.x as real, p.y as real, q.x as real, q.y as real, l.a, l.b, l.c);
    OnLine(l, p.x as real, p.y as real);
    OnLine(l, q.x as real, q.y as real);
  }

  // Twice the signed area of the triangle: positive when the path turns right at b on a screen whose
  // y axis points down, that is, when c lies on the inner side of an edge a, b walked clockwise.
  function Turn(a: Point, b: Point, c: Point): int {
    (b.x - a.x) * (c.y - a.y) - (b.y - a.y) * (c.x - a.x)
  }

  lemma RealTurn(a: Point, b: Point, c: Point)
    ensures var l := DoCalcCoeff(a, b);
            l.a * c.x as real + l.b * c.y as real + l.c == -(Turn(a, b, c) as real)
  {
    var l := DoCalcCoeff(a, b);
    var dx, dy := (c.x - a.x) as real, (c.y - a.y) as real;
    Spread(l.a, l.b, a.x as real, a.y as real, c.x as real, c.y as real);
    RealProduct(b.y - a.y, c.x - a.x);
    RealProduct(b.x - a.x, c.y - a.y);
    assert Times(l.a, dx) + Times(l.b, dy) == -(Turn(a, b, c) as real);
  }

  lemma RealProduct(m: int, n: int)
    ensures Times(m as real, n as real) == (m * n) as real
    ensures Times((-m) as real, n as real) == -((m * n) as real)
  {
  }

  lemma Spread(a: real, b: real, px: real, py: real, x: real, y: real)
    ensures a * x + b * y + (-a * px - b * py) == Times(a, x - px) + Times(b, y - py)
  {
  }

  // e / d is the signed distance between a point and a line, with e the line's expression there.
  lemma SignOfQuot(n: real, d: real, v: real, e: real)
    requires d != 0.0 && e == n + d * v
    ensures d > 0.0 ==> (Quot(-n, d) < v <==> e > 0.0) && (v < Quot(-n, d) <==> e < 0.0)
    ensures d < 0.0 ==> (Quot(-n, d) < v <==> e < 0.0) && (v < Quot(-n, d) <==> e > 0.0)
  {
    var q := Quot(-n, d);
    MulDiv(-n, d);
    assert e == (v - q) * d;
    assert v > q && d > 0.0 ==> e > 0.0;
    assert v < q && d > 0.0 ==> e < 0.0;
    assert v > q && d < 0.0 ==> e < 0.0;
    assert v < q && d < 0.0 ==> e > 0.0;
  }

  // On which side of the line through two points a third one lies, read off either coordinate.
  lemma SideIsTurn(p: Point, q: Point, c: Point)
    ensures p.y < q.y ==> (c.x as real < Fx(DoCalcCoeff(p, q), c.y as real) <==> Turn(p, q, c) > 0)
    ensures p.y < q.y ==> (Fx(DoCalcCoeff(p, q), c.y as real) < c.x as real <==> Turn(q, p, c) > 0)
    ensures p.x < q.x ==> (Fy(DoCalcCoeff(p, q), c.x as real) < c.y as real <==> Turn(p, q, c) > 0)
    ensures q.x < p.x ==> (c.y as real < Fy(DoCalcCoeff(p, q), c.x as real) <==> Turn(p, q, c) > 0)
  {
    var l := DoCalcCoeff(p, q);
    RealTurn(p, q, c);
    TurnBack(p, q, c);
    if p.y < q.y {
      SignOfQuot(l.b * c.y as real + l.c, l.a, c.x as real, -(Turn(p, q, c) as real));
    }
    if p.x != q.x {
      SignOfQuot(l.a * c.x as real + l.c, l.b, c.y as real, -(Turn(p, q, c) as real));
    }
  }

  lemma TurnBack(p: Point, q: Point, c: Point)
    ensures Turn(q, p, c) == -Turn(p, q, c)
  {
  }

  // A point strictly inside an upright rectangle, given clockwise from the top left.
  lemma Rectangle(a: Point, b: Point, c: Point, d: Point, p: Point)
    requires a.x == d.x < p.x < b.x == c.x && a.y == b.y < p.y < c.y == d.y
    ensures Turn(a, b, p) > 0 && Turn(b, c, p) > 0 && Turn(c, d, p) > 0 && Turn(d, a, p) > 0
  {
    PositiveArea(b.x - a.x, p.y - a.y);
    PositiveArea(c.y - b.y, b.x - p.x);
    PositiveArea(c.x - d.x, c.y - p.y);
    PositiveArea(d.y - a.y, p.x - a.x);
    assert Turn(a, b, p) == (b.x - a.x) * (p.y - a.y) - 0;
    assert Turn(b, c, p) == -((c.y - b.y) * (p.x - b.x));
    assert Turn(c, d, p) == (d.x - c.x) * (p.y - c.y) - 0;
    assert Turn(d, a, p) == -((a.y - d.y) * (p.x - d.x));
  }

  lemma PositiveArea(m: int, n: int)
    requires m > 0 && n > 0
    ensures m * n > 0 && m * -n < 0 && -m * n < 0 && -m * -n > 0
  {
  }

  // A line strictly above another at both ends of an interval stays above in between.
  lemma AboveBetween(l: Line, r: Line, lo: real, hi: real, x: real)
    requires l.b != 0.0 && r.b != 0.0
    requires lo <= x <= hi
    requires Fy(l, lo) < Fy(r, lo) && Fy(l, hi) < Fy(r, hi)
    ensures Fy(l, x) < Fy(r, x)
  {
    FyAffine(l, x, lo);
    FyAffine(r, x, lo);
    FyAffine(l, hi, lo);
    FyAffine(r, hi, lo);
    var d, k := Fy(r, lo) - Fy(l, lo), SlopeY(r) - SlopeY(l);
    assert Fy(r, x) - Fy(l, x) == d + k * (x - lo);
    assert Fy(r, hi) - Fy(l, hi) == d + k * (hi - lo);
    Convex(d, k, x - lo, hi - lo);
  }

  lemma Convex(d: real, k: real, t: real, u: real)
    requires d > 0.0 && 0.0 <= t <= u && d + k * u > 0.0
    ensures d + k * t > 0.0
  {
    if k < 0.0 {
      assert k * t >= k * u;
    } else {
      assert k * t >= 0.0;
    }
  }
}
