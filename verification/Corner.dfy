// One cell of the five-point map in the coordinates of its corner.  The cell lies between the
// calibration centre (a, b), the vertical edge X = s * Y and the horizontal edge Y = m * X, and
// sends (X, Y) to the two fractions (X - a) / (s * Y - a) and (Y - m * X) / (b - m * X).
module Corner {
  import opened Lines

  datatype Corner = Corner(s: real, m: real, a: real, b: real) {
    // The centre lies strictly on the inner side of both edges.
    predicate Proper() {
      a < s * b && m * a < b
    }

    // The edges fold over each other as seen from the centre.
    predicate Folds() {
      s > 0.0 && s * m >= 1.0 && (s * m == 1.0 || a <= 0.0 <= b)
    }

    // The vertical edge as a function of Y and the horizontal edge as a function of X.
    function R(Y: real): real { s * Y }
    function T(X: real): real { m * X }

    // How far inside its edge the centre lies, in x and in y.
    function K(): real { s * b - a }
    function L(): real { b - m * a }

    predicate Contains(X: real, Y: real) {
      a <= X <= R(Y) && T(X) <= Y <= b
    }

    // Contained, and neither fraction is 0/0.
    predicate Defined(X: real, Y: real) {
      Contains(X, Y) && a < R(Y) && T(X) < b
    }

    function U(X: real, Y: real): real
      requires Defined(X, Y)
    {
      Quot(X - a, R(Y) - a)
    }

    function V(X: real, Y: real): real
      requires Defined(X, Y)
    {
      Quot(Y - T(X), b - T(X))
    }
  }

  lemma MulPos(x: real, y: real)
    requires x >= 0.0 && y >= 0.0
    ensures x * y >= 0.0
  {
  }

  lemma MulStrict(x: real, y: real)
    requires x > 0.0 && y > 0.0
    ensures x * y > 0.0
  {
  }

  // u and w solve the equations that tie the point to its fractions.
  predicate Solves(c: Corner, u: real, w: real, X: real, Y: real) {
    X == c.a * (1.0 - u) + (u * c.s) * Y && Y == c.b * (1.0 - w) + (w * c.m) * X
  }

  // The fractions determine the point by two linear equations.
  lemma Equations(c: Corner, X: real, Y: real, u: real, w: real)
    requires c.Defined(X, Y) && u == c.U(X, Y) && w == 1.0 - c.V(X, Y)
    ensures 0.0 <= u <= 1.0 && 0.0 <= w <= 1.0 && Solves(c, u, w, X, Y)
  {
    QuotUnit(X - c.a, c.R(Y) - c.a);
    QuotUnit(Y - c.T(X), c.b - c.T(X));
    assert u * (c.R(Y) - c.a) == X - c.a;
    assert (1.0 - w) * (c.b - c.T(X)) == Y - c.T(X);
    Rearrange(c.s, c.a, u, X, Y);
    Rearrange(c.m, c.b, w, Y, X);
  }

  lemma Rearrange(s: real, a: real, u: real, X: real, Y: real)
    requires u * (s * Y - a) == X - a
    ensures X == a * (1.0 - u) + (u * s) * Y
  {
  }

  lemma ProductOne(p: real, k: real)
    requires 0.0 <= p <= 1.0 && p * k == 1.0
    ensures k >= 1.0 && (k > 1.0 ==> p < 1.0)
  {
    if k < 0.0 {
      MulPos(p, -k);
    } else {
      MulPos(1.0 - p, k);
      assert (1.0 - p) * k == k - p * k;
    }
  }

  lemma NonPositive(x: real, y: real)
    requires x * y <= 0.0 && y > 0.0
    ensures x <= 0.0
  {
  }

  // The second equation solved for the first unknown: the singular case is symmetric.
  lemma Other(c: Corner, u: real, w: real)
    requires (u * w) * (c.s * c.m) == 1.0
    requires c.a * (1.0 - u) + u * (c.s * c.b) * (1.0 - w) == 0.0
    ensures c.b * (1.0 - w) + w * (c.m * c.a) * (1.0 - u) == 0.0
  {
    var wm := w * c.m;
    assert wm * (c.a * (1.0 - u)) + wm * (u * (c.s * c.b) * (1.0 - w)) == 0.0;
    assert wm * (u * (c.s * c.b) * (1.0 - w)) == ((u * w) * (c.s * c.m)) * (c.b * (1.0 - w));
    assert wm * (c.a * (1.0 - u)) == w * (c.m * c.a) * (1.0 - u);
  }

  lemma SlopesPositive(c: Corner)
    requires c.Proper() && c.s * c.m >= 1.0
    requires c.s * c.m > 1.0 ==> c.a <= 0.0
    ensures c.s > 0.0
  {
    var k := c.s * c.m;
    assert c.s <= 0.0 ==> c.s * (c.b - c.m * c.a) <= 0.0;
    assert c.s * (c.b - c.m * c.a) == c.s * c.b - k * c.a;
    assert c.a <= 0.0 ==> (k - 1.0) * c.a <= 0.0;
  }

  // When the equations are singular and solvable, the edges fold.
  lemma SingularFolds(c: Corner, u: real, w: real)
    requires c.Proper() && 0.0 <= u <= 1.0 && 0.0 <= w <= 1.0
    requires (u * w) * (c.s * c.m) == 1.0
    requires c.a * (1.0 - u) + u * (c.s * c.b) * (1.0 - w) == 0.0
    ensures c.Folds()
  {
    var p, k := u * w, c.s * c.m;
    MulPos(u, 1.0 - w);
    MulPos(u, w);
    ProductOne(p, k);
    // replacing s * b by the smaller a
    assert c.a * (1.0 - p) <= 0.0 by {
      MulPos(u * (1.0 - w), c.s * c.b - c.a);
      assert c.a * (1.0 - u) + u * (1.0 - w) * c.a == c.a * (1.0 - p);
      assert u * (1.0 - w) * (c.s * c.b - c.a) == u * (c.s * c.b) * (1.0 - w) - u * (1.0 - w) * c.a;
    }
    // replacing m * a by the larger b
    assert c.b * (1.0 - p) >= 0.0 by {
      Other(c, u, w);
      MulPos(w, 1.0 - u);
      MulPos(w * (1.0 - u), c.b - c.m * c.a);
      assert c.b * (1.0 - w) + w * (1.0 - u) * c.b == c.b * (1.0 - p);
      assert w * (1.0 - u) * (c.b - c.m * c.a) == w * (1.0 - u) * c.b - w * (c.m * c.a) * (1.0 - u);
    }
    if k > 1.0 {
      NonPositive(c.a, 1.0 - p);
      NonPositive(-c.b, 1.0 - p);
    }
    SlopesPositive(c);
  }

  // Two solutions of the same pair of equations: equal, or the pair is singular.
  lemma TwoSolutions(us: real, wm: real, p: real, q: real, X: real, Y: real, X': real, Y': real)
    requires X == p + us * Y && Y == q + wm * X
    requires X' == p + us * Y' && Y' == q + wm * X'
    ensures (X == X' && Y == Y') || (us * wm == 1.0 && p + us * q == 0.0)
  {
    assert X - X' == us * (Y - Y');
    assert Y - Y' == wm * (X - X');
    assert X - X' == us * (wm * (X - X'));
    assert (1.0 - us * wm) * (X - X') == 0.0;
    assert X == p + us * q + (us * wm) * X;
  }

  // Two points with the same fractions coincide unless the edges fold.
  lemma SameImage(c: Corner, X: real, Y: real, X': real, Y': real)
    requires c.Proper() && c.Defined(X, Y) && c.Defined(X', Y') && !c.Folds()
    requires c.U(X, Y) == c.U(X', Y') && c.V(X, Y) == c.V(X', Y')
    ensures X == X' && Y == Y'
  {
    var u, w := c.U(X, Y), 1.0 - c.V(X, Y);
    Equations(c, X, Y, u, w);
    Equations(c, X', Y', u, w);
    SameSolution(c, u, w, X, Y, X', Y');
  }

  lemma SameSolution(c: Corner, u: real, w: real, X: real, Y: real, X': real, Y': real)
    requires c.Proper() && !c.Folds() && 0.0 <= u <= 1.0 && 0.0 <= w <= 1.0
    requires Solves(c, u, w, X, Y) && Solves(c, u, w, X', Y')
    ensures X == X' && Y == Y'
  {
    TwoSolutions(u * c.s, w * c.m, c.a * (1.0 - u), c.b * (1.0 - w), X, Y, X', Y');
    if X != X' || Y != Y' {
      Regroup(c, u, w);
      SingularFolds(c, u, w);
    }
  }

  lemma Regroup(c: Corner, u: real, w: real)
    ensures (u * c.s) * (w * c.m) == (u * w) * (c.s * c.m)
    ensures u * c.s * (c.b * (1.0 - w)) == u * (c.s * c.b) * (1.0 - w)
  {
  }

  // The fractions at which a folded cell collapses.
  function FoldU(c: Corner): (u: real)
    requires c.Proper() && c.Folds()
    ensures u * (c.m * c.K()) == c.L()
  {
    FoldPositive(c);
    MulDiv(c.L(), c.m * c.K());
    Quot(c.L(), c.m * c.K())
  }

  function FoldW(c: Corner): (w: real)
    requires c.Proper() && c.Folds()
    ensures w * (c.s * c.L()) == c.K()
  {
    FoldPositive(c);
    MulDiv(c.K(), c.s * c.L());
    Quot(c.K(), c.s * c.L())
  }

  lemma FoldNotZero(c: Corner)
    requires c.Proper() && c.Folds()
    ensures FoldU(c) != 0.0 && FoldW(c) != 0.0
  {
    var u, w := FoldU(c), FoldW(c);
    assert u == 0.0 ==> u * (c.m * c.K()) == 0.0;
    assert w == 0.0 ==> w * (c.s * c.L()) == 0.0;
  }

  // The point that lies the given part of the way along the collapsed segment.
  function FoldPoint(c: Corner, part: real): (p: (real, real))
    requires c.Proper() && c.Folds()
    ensures p.1 * c.s == c.a + part * c.K()
  {
    MulDiv(c.a + part * c.K(), c.s);
    (c.a + FoldU(c) * (part * c.K()), Quot(c.a + part * c.K(), c.s))
  }

  lemma FoldPointsDiffer(c: Corner, part: real, part': real)
    requires c.Proper() && c.Folds() && part < part'
    ensures FoldPoint(c, part).1 != FoldPoint(c, part').1
  {
    MulStrict(part' - part, c.K());
    assert FoldPoint(c, part').1 * c.s - FoldPoint(c, part).1 * c.s == (part' - part) * c.K();
  }

  // A point given by its two fractions.
  lemma HasImage(c: Corner, X: real, Y: real, u: real, w: real, t: real, r: real)
    requires t == c.s * Y - c.a > 0.0 && r == c.b - c.m * X > 0.0
    requires 0.0 <= u <= 1.0 && 0.0 <= w <= 1.0
    requires X - c.a == u * t && c.b - Y == w * r
    ensures c.Defined(X, Y) && c.U(X, Y) == u && c.V(X, Y) == 1.0 - w
  {
    MulPos(u, t);
    MulPos(1.0 - u, t);
    MulPos(w, r);
    MulPos(1.0 - w, r);
    assert (1.0 - u) * t == t - u * t;
    assert (1.0 - w) * r == r - w * r;
    DivUnique(X - c.a, c.R(Y) - c.a, u);
    DivUnique(Y - c.T(X), c.b - c.T(X), 1.0 - w);
  }

  // Every point of that segment has the same image.
  lemma FoldCollapses(c: Corner, part: real)
    requires c.Proper() && c.Folds() && 0.0 < part < 1.0
    ensures var (X, Y) := FoldPoint(c, part);
            c.Defined(X, Y) && c.U(X, Y) == FoldU(c) && c.V(X, Y) == 1.0 - FoldW(c)
  {
    FoldSlope(c);
    var p, u, w := FoldPoint(c, part), FoldU(c), FoldW(c);
    Collapsing(c, c.K(), c.L(), u, w, part, p);
  }

  lemma Collapsing(c: Corner, K: real, L: real, u: real, w: real, part: real, p: (real, real))
    requires c.Proper() && c.Folds() && c.m > 0.0 && 0.0 < part < 1.0
    requires K == c.K() && L == c.L() && u == FoldU(c) && w == FoldW(c) && p == FoldPoint(c, part)
    ensures c.Defined(p.0, p.1) && c.U(p.0, p.1) == u && c.V(p.0, p.1) == 1.0 - w
  {
    assert p.0 == c.a + u * (part * K);
    Collapse(c, K, L, u, w, part, p.0, p.1);
  }

  lemma Collapse(c: Corner, K: real, L: real, u: real, w: real, part: real, X: real, Y: real)
    requires c.Proper() && c.Folds() && c.m > 0.0 && 0.0 < part < 1.0
    requires K == c.K() && L == c.L()
    requires u * (c.m * K) == L && w * (c.s * L) == K
    requires X == c.a + u * (part * K) && Y * c.s == c.a + part * K
    ensures c.Defined(X, Y) && c.U(X, Y) == u && c.V(X, Y) == 1.0 - w
  {
    FoldFractions(c.s, c.m, c.a, c.b, K, L, u, w);
    var t, r := FoldSegment(c.s, c.m, c.a, c.b, K, L, u, w, part, X, Y);
    HasImage(c, X, Y, u, w, t, r);
  }

  lemma FoldSlope(c: Corner)
    requires c.Folds()
    ensures c.m > 0.0
  {
    assert c.m <= 0.0 ==> c.s * c.m <= 0.0;
  }

  lemma FoldPositive(c: Corner)
    requires c.Proper() && c.Folds()
    ensures c.m > 0.0 && c.m * c.K() > 0.0 && c.s * c.L() > 0.0
  {
    assert c.m <= 0.0 ==> c.s * c.m <= 0.0;
  }

  lemma FoldSegment(s: real, m: real, a: real, b: real, K: real, L: real, u: real, w: real, part: real, X: real,
                    Y: real)
    returns (t: real, r: real)
    requires s > 0.0 && K == s * b - a > 0.0 && L == b - m * a > 0.0 && 0.0 < part < 1.0
    requires u * (m * K) == L && w * (s * L) == K
    requires X == a + u * (part * K) && Y * s == a + part * K
    ensures t == s * Y - a > 0.0 && X - a == u * t
    ensures r == b - m * X > 0.0 && b - Y == w * r
  {
    t, r := part * K, L * (1.0 - part);
    MulStrict(part, K);
    MulStrict(L, 1.0 - part);
    assert m * (u * (part * K)) == part * (u * (m * K));
    assert m * X == m * a + m * (u * (part * K));
    assert s * (w * r) == (w * (s * L)) * (1.0 - part);
    assert s * (b - Y) == K * (1.0 - part);
    assert s * (b - Y - w * r) == s * (b - Y) - s * (w * r);
  }

  lemma FoldFractions(s: real, m: real, a: real, b: real, K: real, L: real, u: real, w: real)
    requires s > 0.0 && m > 0.0 && s * m >= 1.0 && (s * m == 1.0 || a <= 0.0 <= b)
    requires K == s * b - a > 0.0 && L == b - m * a > 0.0
    requires u * (m * K) == L && w * (s * L) == K
    ensures 0.0 <= u <= 1.0 && 0.0 <= w <= 1.0
  {
    var k := s * m - 1.0;
    assert m * K - L == k * b;
    assert s * L - K == k * (-a);
    if k > 0.0 {
      MulPos(k, b);
      MulPos(k, -a);
    }
    UnitFraction(u, m * K, L);
    UnitFraction(w, s * L, K);
  }

  lemma UnitFraction(q: real, d: real, n: real)
    requires q * d == n && 0.0 < n <= d
    ensures 0.0 <= q <= 1.0
  {
    if q < 0.0 {
      MulPos(-q, d);
    } else if q > 1.0 {
      MulPos(q - 1.0, d);
      assert (q - 1.0) * d == n - d;
    }
  }
}
