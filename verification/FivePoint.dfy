// The five-point calibration of TouchscreenFilterDriver.c: four corner points, clockwise from the
// top left, and a centre.  Each quadrant maps the region between the centre and two edges onto a
// quarter of the output square.
module FivePoint {
  import opened Wrappers
  import opened Lines
  import opened Calibration
  import C = Corner

  // CheckPointsLayoutFive.
  predicate Layout(p: seq<Point>)
    requires |p| >= 5
  {
    && p[0].x < p[1].x
    && p[0].y < p[3].y
    && p[2].y > p[1].y
    && p[2].x > p[3].x
    && Inside(DoCalcCoeff(p[0], p[3]), DoCalcCoeff(p[1], p[2]), DoCalcCoeff(p[0], p[1]), DoCalcCoeff(p[2], p[3]),
              p[4].x as real, p[4].y as real)
  }

  predicate Inside(left: Line, right: Line, top: Line, bottom: Line, x: real, y: real)
    requires left.a != 0.0 && right.a != 0.0 && top.b != 0.0 && bottom.b != 0.0
  {
    && !(Fx(left, y) >= x || Fx(right, y) <= x)
    && !(Fy(top, x) >= y || Fy(bottom, x) <= y)
  }

  datatype Frame = Frame(left: Line, right: Line, top: Line, bottom: Line, rx: real, ry: real)

  function FrameOf(p: seq<Point>): Frame
    requires |p| >= 5
  {
    Frame(DoCalcCoeff(p[0], p[3]), DoCalcCoeff(p[1], p[2]), DoCalcCoeff(p[0], p[1]), DoCalcCoeff(p[2], p[3]),
          p[4].x as real, p[4].y as real)
  }

  predicate Divisible(f: Frame) {
    f.left.a != 0.0 && f.right.a != 0.0 && f.top.b != 0.0 && f.bottom.b != 0.0
  }

  // First is the top right quadrant; the others follow counterclockwise.
  datatype Quadrant = First | Second | Third | Fourth {
    predicate East() { First? || Fourth? }
    predicate North() { First? || Second? }
  }

  predicate Guard(f: Frame, q: Quadrant, x: real, y: real)
    requires Divisible(f)
  {
    && (if q.East() then f.rx <= x && Fx(f.right, y) >= x else Fx(f.left, y) <= x && f.rx >= x)
    && (if q.North() then Fy(f.top, x) <= y && f.ry >= y else f.ry <= y && Fy(f.bottom, x) >= y)
  }

  function OutX(f: Frame, q: Quadrant, x: real, y: real): Option<real>
    requires Divisible(f)
  {
    if q.East() then Place(HALF, x - f.rx, Fx(f.right, y) - f.rx, HALF)
    else Place(0.0, x - Fx(f.left, y), f.rx - Fx(f.left, y), HALF)
  }

  function OutY(f: Frame, q: Quadrant, x: real, y: real): Option<real>
    requires Divisible(f)
  {
    if q.North() then Place(0.0, y - Fy(f.top, x), f.ry - Fy(f.top, x), HALF)
    else Place(HALF, y - f.ry, Fy(f.bottom, x) - f.ry, HALF)
  }

  function Image(f: Frame, q: Quadrant, x: real, y: real): Mapped
    requires Divisible(f)
  {
    At(OutX(f, q, x, y), OutY(f, q, x, y))
  }

  // The chain of tests of DoFloatingPointCalculationForCalibrationFive.
  function Map(f: Frame, x: real, y: real): Mapped
    requires Divisible(f)
  {
    if Guard(f, First, x, y) then Image(f, First, x, y)
    else if Guard(f, Second, x, y) then Image(f, Second, x, y)
    else if Guard(f, Third, x, y) then Image(f, Third, x, y)
    else if Guard(f, Fourth, x, y) then Image(f, Fourth, x, y)
    else Off
  }

  // ---------- division and ranges ----------

  // Strictly inside the quadrilateral of the corners, walked clockwise.
  predicate InQuadrilateral(p: seq<Point>, c: Point)
    requires |p| >= 5
  {
    && Turn(p[0], p[1], c) > 0 && Turn(p[1], p[2], c) > 0
    && Turn(p[2], p[3], c) > 0 && Turn(p[3], p[0], c) > 0
  }

  // The check accepts exactly the corners that are in order around a centre strictly inside their
  // quadrilateral: the divisions and comparisons of the code decide a fact about integers.
  lemma LayoutIff(p: seq<Point>)
    requires |p| >= 5
    ensures Layout(p) <==>
              && p[0].x < p[1].x && p[3].x < p[2].x && p[0].y < p[3].y && p[1].y < p[2].y
              && InQuadrilateral(p, p[4])
  {
    SideIsTurn(p[0], p[3], p[4]);
    SideIsTurn(p[1], p[2], p[4]);
    SideIsTurn(p[0], p[1], p[4]);
    SideIsTurn(p[2], p[3], p[4]);
  }

  // Every upright rectangle with a point strictly inside is accepted.
  lemma RectangleAccepted(p: seq<Point>)
    requires |p| >= 5
    requires p[0].x == p[3].x < p[4].x < p[1].x == p[2].x && p[0].y == p[1].y < p[4].y < p[2].y == p[3].y
    ensures Layout(p)
  {
    LayoutIff(p);
    Rectangle(p[0], p[1], p[2], p[3], p[4]);
  }

  // An accepted layout leaves no zero divisor and puts the centre strictly between the edges.
  lemma LayoutGivesFrame(p: seq<Point>)
    requires |p| >= 5 && Layout(p)
    ensures var f := FrameOf(p);
            && Divisible(f)
            && Fx(f.left, f.ry) < f.rx < Fx(f.right, f.ry)
            && Fy(f.top, f.rx) < f.ry < Fy(f.bottom, f.rx)
  {
  }

  lemma OutXRange(f: Frame, q: Quadrant, x: real, y: real)
    requires Divisible(f) && Guard(f, q, x, y)
    ensures var r := OutX(f, q, x, y);
            && (r.None? ==> x == f.rx)
            && (x <= f.rx ==> Within(r, 0.0, HALF))
            && (x >= f.rx ==> Within(r, HALF, HALF + HALF))
  {
    if q.East() {
      PlaceWithin(HALF, x - f.rx, Fx(f.right, y) - f.rx, HALF);
    } else {
      PlaceWithin(0.0, x - Fx(f.left, y), f.rx - Fx(f.left, y), HALF);
    }
  }

  lemma OutYRange(f: Frame, q: Quadrant, x: real, y: real)
    requires Divisible(f) && Guard(f, q, x, y)
    ensures var r := OutY(f, q, x, y);
            && (r.None? ==> y == f.ry)
            && (y <= f.ry ==> Within(r, 0.0, HALF))
            && (y >= f.ry ==> Within(r, HALF, HALF + HALF))
  {
    if q.North() {
      PlaceWithin(0.0, y - Fy(f.top, x), f.ry - Fy(f.top, x), HALF);
    } else {
      PlaceWithin(HALF, y - f.ry, Fy(f.bottom, x) - f.ry, HALF);
    }
  }

  // Every mapped coordinate lies in its side's half of [0, 32766], and is undefined only for a
  // touch on the line through the centre that bounds the cell.
  lemma MapRange(f: Frame, x: real, y: real)
    requires Divisible(f) && Map(f, x, y).At?
    ensures var m := Map(f, x, y);
            && (m.x.None? ==> x == f.rx) && (m.y.None? ==> y == f.ry)
            && (x <= f.rx ==> Within(m.x, 0.0, HALF)) && (x >= f.rx ==> Within(m.x, HALF, 32766.0))
            && (y <= f.ry ==> Within(m.y, 0.0, HALF)) && (y >= f.ry ==> Within(m.y, HALF, 32766.0))
  {
    var q := if Guard(f, First, x, y) then First else if Guard(f, Second, x, y) then Second
             else if Guard(f, Third, x, y) then Third else Fourth;
    OutXRange(f, q, x, y);
    OutYRange(f, q, x, y);
  }

  // Between a side and the centre in x, and between an edge and the centre in y.
  predicate Reached(f: Frame, x: real, y: real)
    requires Divisible(f)
  {
    && (Fx(f.left, y) <= x <= f.rx || f.rx <= x <= Fx(f.right, y))
    && (Fy(f.top, x) <= y <= f.ry || f.ry <= y <= Fy(f.bottom, x))
  }

  // A touch is mapped if and only if it lies in that region: the four branches leave nothing out.
  lemma MappedIff(f: Frame, x: real, y: real)
    requires Divisible(f)
    ensures Map(f, x, y).At? <==> Reached(f, x, y)
    ensures Fx(f.left, y) <= x <= Fx(f.right, y) && Fy(f.top, x) <= y <= Fy(f.bottom, x) ==> Map(f, x, y).At?
  {
    var q := if x >= f.rx then if y <= f.ry then First else Fourth else if y <= f.ry then Second else Third;
    assert Guard(f, q, x, y) ==> Map(f, x, y).At?;
    if x == f.rx {
      assert Guard(f, if y <= f.ry then Second else Third, x, y) ==> Map(f, x, y).At?;
    }
    if y == f.ry {
      assert Guard(f, if x >= f.rx then Fourth else Third, x, y) ==> Map(f, x, y).At?;
      assert Guard(f, Third, x, y) ==> Map(f, x, y).At?;
    }
  }

  // The centre of an accepted layout maps to the middle of the output square.
  lemma CentreMapsToMiddle(p: seq<Point>)
    requires |p| >= 5 && Layout(p)
    ensures Divisible(FrameOf(p))
    ensures Map(FrameOf(p), p[4].x as real, p[4].y as real) == At(Some(16383.0), Some(16383.0))
  {
    var f := FrameOf(p);
    LayoutGivesFrame(p);
    assert Guard(f, First, f.rx, f.ry);
    PlaceWithin(HALF, 0.0, Fx(f.right, f.ry) - f.rx, HALF);
    PlaceWithin(0.0, f.ry - Fy(f.top, f.rx), f.ry - Fy(f.top, f.rx), HALF);
  }

  // Where several quadrants accept a touch, they agree wherever they are defined.
  lemma SeamsAgree(f: Frame, q: Quadrant, q': Quadrant, x: real, y: real)
    requires Divisible(f) && Guard(f, q, x, y) && Guard(f, q', x, y)
    ensures OutX(f, q, x, y).Some? && OutX(f, q', x, y).Some? ==> OutX(f, q, x, y) == OutX(f, q', x, y)
    ensures OutY(f, q, x, y).Some? && OutY(f, q', x, y).Some? ==> OutY(f, q, x, y) == OutY(f, q', x, y)
  {
    OutXRange(f, q, x, y);
    OutXRange(f, q', x, y);
    OutYRange(f, q, x, y);
    OutYRange(f, q', x, y);
  }

  // ---------- monotonicity ----------

  // Off the vertical seam the column alone decides the formula for x.
  lemma ColumnFormula(f: Frame, x: real, y: real)
    requires Divisible(f) && Map(f, x, y).At?
    ensures x < f.rx ==> Map(f, x, y).x == OutX(f, Second, x, y) && Fx(f.left, y) <= x
    ensures x > f.rx ==> Map(f, x, y).x == OutX(f, First, x, y)
  {
  }

  lemma RowFormula(f: Frame, x: real, y: real)
    requires Divisible(f) && Map(f, x, y).At?
    ensures y < f.ry ==> Map(f, x, y).y == OutY(f, First, x, y) && Fy(f.top, x) <= y
    ensures y > f.ry ==> Map(f, x, y).y == OutY(f, Third, x, y) && y <= Fy(f.bottom, x)
  {
  }

  // Along a row the output x never decreases as x grows.
  lemma RowMonotone(f: Frame, x: real, x': real, y: real)
    requires Divisible(f) && x <= x'
    requires Map(f, x, y).At? && Map(f, x', y).At? && Map(f, x, y).x.Some? && Map(f, x', y).x.Some?
    ensures Map(f, x, y).x.value <= Map(f, x', y).x.value
    ensures Map(f, x, y).x.value.Floor <= Map(f, x', y).x.value.Floor
  {
    MapRange(f, x, y);
    MapRange(f, x', y);
    ColumnFormula(f, x, y);
    ColumnFormula(f, x', y);
    if x' < f.rx {
      PlaceMonotone(0.0, x - Fx(f.left, y), x' - Fx(f.left, y), f.rx - Fx(f.left, y), HALF);
    } else if x > f.rx {
      PlaceMonotone(HALF, x - f.rx, x' - f.rx, Fx(f.right, y) - f.rx, HALF);
    }
  }

  // Along a column the output y never decreases as y grows.
  lemma ColumnMonotone(f: Frame, x: real, y: real, y': real)
    requires Divisible(f) && y <= y'
    requires Map(f, x, y).At? && Map(f, x, y').At? && Map(f, x, y).y.Some? && Map(f, x, y').y.Some?
    ensures Map(f, x, y).y.value <= Map(f, x, y').y.value
    ensures Map(f, x, y).y.value.Floor <= Map(f, x, y').y.value.Floor
  {
    MapRange(f, x, y);
    MapRange(f, x, y');
    RowFormula(f, x, y);
    RowFormula(f, x, y');
    if y' < f.ry {
      PlaceMonotone(0.0, y - Fy(f.top, x), y' - Fy(f.top, x), f.ry - Fy(f.top, x), HALF);
    } else if y > f.ry {
      PlaceMonotone(HALF, y - f.ry, y' - f.ry, Fy(f.bottom, x) - f.ry, HALF);
    }
  }

  // ---------- injectivity ----------

  // Both coordinates of the quadrant's image are defined.
  predicate Covers(f: Frame, q: Quadrant, x: real, y: real)
    requires Divisible(f)
  {
    Guard(f, q, x, y) && OutX(f, q, x, y).Some? && OutY(f, q, x, y).Some?
  }

  ghost predicate Injective(f: Frame, q: Quadrant)
    requires Divisible(f)
  {
    forall x, y, x', y' ::
      Covers(f, q, x, y) && Covers(f, q, x', y') && Image(f, q, x, y) == Image(f, q, x', y') ==> x == x' && y == y'
  }

  function CornerPoint(p: seq<Point>, q: Quadrant): Point
    requires |p| >= 5
  {
    match q
    case First => p[1]
    case Second => p[0]
    case Third => p[3]
    case Fourth => p[2]
  }

  function Vertical(f: Frame, q: Quadrant): Line {
    if q.East() then f.right else f.left
  }

  function Horizontal(f: Frame, q: Quadrant): Line {
    if q.North() then f.top else f.bottom
  }

  // The quadrant's corner, mirrored so that the centre lies below and to the left of it.
  function CornerOf(p: seq<Point>, q: Quadrant): C.Corner
    requires |p| >= 5 && Divisible(FrameOf(p))
  {
    var f, c := FrameOf(p), CornerPoint(p, q);
    var s, m := SlopeX(Vertical(f, q)), SlopeY(Horizontal(f, q));
    var a, b := f.rx - c.x as real, f.ry - c.y as real;
    C.Corner(if q.East() == q.North() then s else -s, if q.East() == q.North() then m else -m,
             if q.East() then a else -a, if q.North() then b else -b)
  }

  // A screen point in the coordinates of the corner.
  function LocalX(p: seq<Point>, q: Quadrant, x: real): real
    requires |p| >= 5
  {
    Out(q.East(), x - CornerPoint(p, q).x as real)
  }

  function LocalY(p: seq<Point>, q: Quadrant, y: real): real
    requires |p| >= 5
  {
    Out(q.North(), y - CornerPoint(p, q).y as real)
  }

  lemma EdgesMeet(p: seq<Point>, q: Quadrant)
    requires |p| >= 5 && Divisible(FrameOf(p))
    ensures var (f, c) := (FrameOf(p), CornerPoint(p, q));
            Fx(Vertical(f, q), c.y as real) == c.x as real && Fy(Horizontal(f, q), c.x as real) == c.y as real
  {
    match q
    case First => ThroughPoints(p[1], p[2]); ThroughPoints(p[0], p[1]);
    case Second => ThroughPoints(p[0], p[3]); ThroughPoints(p[0], p[1]);
    case Third => ThroughPoints(p[0], p[3]); ThroughPoints(p[2], p[3]);
    case Fourth => ThroughPoints(p[1], p[2]); ThroughPoints(p[2], p[3]);
  }

  // The two edges of the quadrant are the two edges of its corner.
  lemma EdgesInCorner(p: seq<Point>, q: Quadrant, x: real, y: real)
    requires |p| >= 5 && Divisible(FrameOf(p))
    ensures CornerOf(p, q).R(LocalY(p, q, y)) == LocalX(p, q, Fx(Vertical(FrameOf(p), q), y))
    ensures CornerOf(p, q).T(LocalX(p, q, x)) == LocalY(p, q, Fy(Horizontal(FrameOf(p), q), x))
  {
    var f, c := FrameOf(p), CornerPoint(p, q);
    EdgesMeet(p, q);
    EdgeX(CornerOf(p, q), Vertical(f, q), c, y, q.East(), q.North());
    EdgeY(CornerOf(p, q), Horizontal(f, q), c, x, q.East(), q.North());
  }

  lemma EdgeX(k: C.Corner, l: Line, c: Point, y: real, east: bool, north: bool)
    requires l.a != 0.0 && Fx(l, c.y as real) == c.x as real
    requires k.s == if east == north then SlopeX(l) else -SlopeX(l)
    ensures k.R(if north then y - c.y as real else -(y - c.y as real)) ==
            if east then Fx(l, y) - c.x as real else -(Fx(l, y) - c.x as real)
  {
    FxAffine(l, y, c.y as real);
    Mirror(k.s, SlopeX(l), y - c.y as real, Fx(l, y) - c.x as real, east, north);
  }

  lemma EdgeY(k: C.Corner, l: Line, c: Point, x: real, east: bool, north: bool)
    requires l.b != 0.0 && Fy(l, c.x as real) == c.y as real
    requires k.m == if east == north then SlopeY(l) else -SlopeY(l)
    ensures k.T(if east then x - c.x as real else -(x - c.x as real)) ==
            if north then Fy(l, x) - c.y as real else -(Fy(l, x) - c.y as real)
  {
    FyAffine(l, x, c.x as real);
    Mirror(k.m, SlopeY(l), x - c.x as real, Fy(l, x) - c.y as real, north, east);
  }

  lemma Mirror(k: real, slope: real, d: real, e: real, out: bool, arg: bool)
    requires e == slope * d && k == if out == arg then slope else -slope
    ensures k * (if arg then d else -d) == if out then e else -e
  {
  }

  // The signed distance from a corner coordinate, towards the outside of the quadrant.
  function Out(positive: bool, d: real): real {
    if positive then d else -d
  }

  lemma Properness(k: C.Corner, ex: real, ey: real, a: real, b: real)
    requires k.a == a && k.b == b && k.R(b) == ex && k.T(a) == ey && a < ex && ey < b
    ensures k.Proper()
  {
  }

  // The centre of an accepted layout is properly inside every corner.
  lemma CornerProper(p: seq<Point>, q: Quadrant)
    requires |p| >= 5 && Layout(p)
    ensures CornerOf(p, q).Proper()
  {
    var f := FrameOf(p);
    LayoutGivesFrame(p);
    EdgesInCorner(p, q, f.rx, f.ry);
    Properness(CornerOf(p, q), LocalX(p, q, Fx(Vertical(f, q), f.ry)), LocalY(p, q, Fy(Horizontal(f, q), f.rx)),
               LocalX(p, q, f.rx), LocalY(p, q, f.ry));
  }

  lemma Complement(n: real, d: real, n': real, d': real)
    requires d != 0.0 && d' == d && n' == d - n
    ensures Quot(n', d') == 1.0 - Quot(n, d)
  {
    MulDiv(n, d);
    DivUnique(n', d', 1.0 - Quot(n, d));
  }

  // The output of one axis of a quadrant: point v, edge e and centre r, all seen from the corner
  // coordinate c.
  function Axis(outward: bool, v: real, e: real, r: real): Option<real> {
    if outward then Place(HALF, v - r, e - r, HALF) else Place(0.0, v - e, r - e, HALF)
  }

  // A fraction counted from the centre outwards, placed on the output axis.
  function Spread(outward: bool, u: real): real {
    if outward then HALF + u * HALF else (1.0 - u) * HALF
  }

  lemma SpreadInjective(outward: bool, u: real, u': real)
    ensures Spread(outward, u) == Spread(outward, u') <==> u == u'
  {
  }

  lemma SameQuot(n: real, d: real, n': real, d': real)
    requires n == n' && d == d' && d != 0.0
    ensures Quot(n, d) == Quot(n', d')
  {
  }

  lemma SameShare(u: real, u': real)
    requires u == u'
    ensures u * HALF == u' * HALF
  {
  }

  lemma AxisIsFraction(outward: bool, v: real, e: real, r: real, c: real, V: real, E: real, R: real)
    requires V == Out(outward, v - c) && E == Out(outward, e - c) && R == Out(outward, r - c)
    ensures (if outward then r <= v <= e else e <= v <= r) <==> R <= V <= E
    ensures Axis(outward, v, e, r).Some? <==> E != R
    ensures E != R ==> Axis(outward, v, e, r) == Some(Spread(outward, Quot(V - R, E - R)))
  {
    if E != R {
      if outward {
        SameQuot(v - r, e - r, V - R, E - R);
        assert Axis(outward, v, e, r).value == Spread(outward, Quot(V - R, E - R));
      } else {
        Complement(V - R, E - R, v - e, r - e);
        SameShare(Quot(v - e, r - e), 1.0 - Quot(V - R, E - R));
        assert Axis(outward, v, e, r).value == Spread(outward, Quot(V - R, E - R));
      }
    }
  }

  // The same for the vertical axis, where the fraction is counted from the edge.
  lemma VerticalAxis(north: bool, v: real, e: real, r: real, c: real, V: real, E: real, R: real)
    requires V == Out(north, v - c) && E == Out(north, e - c) && R == Out(north, r - c)
    ensures (if north then e <= v <= r else r <= v <= e) <==> E <= V <= R
    ensures Axis(!north, v, e, r).Some? <==> E != R
    ensures E != R ==> Axis(!north, v, e, r) == Some(Spread(!north, 1.0 - Quot(V - E, R - E)))
  {
    if E != R {
      if north {
        SameQuot(v - e, r - e, V - E, R - E);
        SameShare(Quot(v - e, r - e), 1.0 - (1.0 - Quot(V - E, R - E)));
        assert Axis(!north, v, e, r).value == Spread(!north, 1.0 - Quot(V - E, R - E));
      } else {
        Complement(V - E, R - E, v - r, e - r);
        SameShare(Quot(v - r, e - r), 1.0 - Quot(V - E, R - E));
        assert Axis(!north, v, e, r).value == Spread(!north, 1.0 - Quot(V - E, R - E));
      }
    }
  }

  // A quadrant is its corner's cell: the same domain, and outputs that are the corner's fractions,
  // counted from the centre outwards.
  lemma QuadrantIsCorner(p: seq<Point>, q: Quadrant, x: real, y: real)
    requires |p| >= 5 && Divisible(FrameOf(p))
    ensures Covers(FrameOf(p), q, x, y) <==> CornerOf(p, q).Defined(LocalX(p, q, x), LocalY(p, q, y))
    ensures CornerOf(p, q).Defined(LocalX(p, q, x), LocalY(p, q, y)) ==>
              Image(FrameOf(p), q, x, y) == CornerImage(CornerOf(p, q), q, LocalX(p, q, x), LocalY(p, q, y))
  {
    var f, c, k, X, Y := FrameOf(p), CornerPoint(p, q), CornerOf(p, q), LocalX(p, q, x), LocalY(p, q, y);
    EdgesInCorner(p, q, x, y);
    CornerCell(f, q, k, x, y, Fx(Vertical(f, q), y), Fy(Horizontal(f, q), x), c.x as real, c.y as real, X, Y);
  }

  function CornerImage(k: C.Corner, q: Quadrant, X: real, Y: real): Mapped
    requires k.Defined(X, Y)
  {
    At(Some(Spread(q.East(), k.U(X, Y))), Some(Spread(!q.North(), 1.0 - k.V(X, Y))))
  }

  lemma CornerCell(f: Frame, q: Quadrant, k: C.Corner, x: real, y: real, ex: real, ey: real,
                   cx: real, cy: real, X: real, Y: real)
    requires Divisible(f) && ex == Fx(Vertical(f, q), y) && ey == Fy(Horizontal(f, q), x)
    requires X == Out(q.East(), x - cx) && k.R(Y) == Out(q.East(), ex - cx) && k.a == Out(q.East(), f.rx - cx)
    requires Y == Out(q.North(), y - cy) && k.T(X) == Out(q.North(), ey - cy) && k.b == Out(q.North(), f.ry - cy)
    ensures Covers(f, q, x, y) <==> k.Defined(X, Y)
    ensures k.Defined(X, Y) ==> Image(f, q, x, y) == CornerImage(k, q, X, Y)
  {
    AxisIsFraction(q.East(), x, ex, f.rx, cx, X, k.R(Y), k.a);
    assert OutX(f, q, x, y) == Axis(q.East(), x, ex, f.rx);
    VerticalAxis(q.North(), y, ey, f.ry, cy, Y, k.T(X), k.b);
    assert OutY(f, q, x, y) == Axis(!q.North(), y, ey, f.ry);
  }

  lemma EqualImages(k: C.Corner, q: Quadrant, X: real, Y: real, X': real, Y': real)
    requires k.Defined(X, Y) && k.Defined(X', Y')
    ensures CornerImage(k, q, X, Y) == CornerImage(k, q, X', Y') <==>
            k.U(X, Y) == k.U(X', Y') && k.V(X, Y) == k.V(X', Y')
  {
    SpreadInjective(q.East(), k.U(X, Y), k.U(X', Y'));
    SpreadInjective(!q.North(), 1.0 - k.V(X, Y), 1.0 - k.V(X', Y'));
  }

  // A quadrant of an accepted layout is injective if and only if its two edges do not fold: the
  // slopes multiply to less than one, or the centre lies beyond the corner.
  lemma InjectiveIff(p: seq<Point>, q: Quadrant)
    requires |p| >= 5 && Layout(p)
    ensures Injective(FrameOf(p), q) <==> !CornerOf(p, q).Folds()
  {
    var f, k := FrameOf(p), CornerOf(p, q);
    CornerProper(p, q);
    if k.Folds() {
      FoldedNotInjective(p, q);
    } else {
      forall x, y, x', y' | Covers(f, q, x, y) && Covers(f, q, x', y') && Image(f, q, x, y) == Image(f, q, x', y')
        ensures x == x' && y == y'
      {
        QuadrantIsCorner(p, q, x, y);
        QuadrantIsCorner(p, q, x', y');
        EqualImages(k, q, LocalX(p, q, x), LocalY(p, q, y), LocalX(p, q, x'), LocalY(p, q, y'));
        C.SameImage(k, LocalX(p, q, x), LocalY(p, q, y), LocalX(p, q, x'), LocalY(p, q, y'));
      }
    }
  }

  // The screen point with the given coordinates at the corner.
  function Screen(p: seq<Point>, q: Quadrant, l: (real, real)): (s: (real, real))
    requires |p| >= 5
    ensures LocalX(p, q, s.0) == l.0 && LocalY(p, q, s.1) == l.1
  {
    var c := CornerPoint(p, q);
    (c.x as real + if q.East() then l.0 else -l.0, c.y as real + if q.North() then l.1 else -l.1)
  }

  lemma FoldedNotInjective(p: seq<Point>, q: Quadrant)
    requires |p| >= 5 && Layout(p) && CornerOf(p, q).Proper() && CornerOf(p, q).Folds()
    ensures !Injective(FrameOf(p), q)
  {
    var k := CornerOf(p, q);
    var l, l' := C.FoldPoint(k, 0.25), C.FoldPoint(k, 0.75);
    C.FoldCollapses(k, 0.25);
    C.FoldCollapses(k, 0.75);
    C.FoldPointsDiffer(k, 0.25, 0.75);
    EqualImages(k, q, l.0, l.1, l'.0, l'.1);
    Collide(p, q, l, l');
  }

  lemma Collide(p: seq<Point>, q: Quadrant, l: (real, real), l': (real, real))
    requires |p| >= 5 && Divisible(FrameOf(p)) && l.1 != l'.1
    requires CornerOf(p, q).Defined(l.0, l.1) && CornerOf(p, q).Defined(l'.0, l'.1)
    requires CornerImage(CornerOf(p, q), q, l.0, l.1) == CornerImage(CornerOf(p, q), q, l'.0, l'.1)
    ensures !Injective(FrameOf(p), q)
  {
    var s, s' := Screen(p, q, l), Screen(p, q, l');
    QuadrantIsCorner(p, q, s.0, s.1);
    QuadrantIsCorner(p, q, s'.0, s'.1);
    assert s.1 != s'.1;
  }

  // ---------- the whole map ----------

  predicate Defined(m: Mapped) {
    m.At? && m.x.Some? && m.y.Some?
  }

  ghost predicate MapInjective(f: Frame)
    requires Divisible(f)
  {
    forall x, y, x', y' ::
      Defined(Map(f, x, y)) && Map(f, x, y) == Map(f, x', y') ==> x == x' && y == y'
  }

  // The quadrant whose branch maps the touch.
  function Branch(f: Frame, x: real, y: real): (q: Quadrant)
    requires Divisible(f) && Map(f, x, y).At?
    ensures Guard(f, q, x, y) && Map(f, x, y) == Image(f, q, x, y)
  {
    if Guard(f, First, x, y) then First
    else if Guard(f, Second, x, y) then Second
    else if Guard(f, Third, x, y) then Third
    else Fourth
  }

  // An output in the middle comes from the line through the centre.
  lemma MiddleX(f: Frame, q: Quadrant, x: real, y: real)
    requires Divisible(f) && Guard(f, q, x, y) && OutX(f, q, x, y).Some?
    ensures OutX(f, q, x, y) == Some(HALF) <==> x == f.rx
  {
    if q.East() {
      var d := Fx(f.right, y) - f.rx;
      PlaceWithin(HALF, 0.0, d, HALF);
      if OutX(f, q, x, y) == Some(HALF) {
        PlaceInjective(HALF, x - f.rx, 0.0, d, HALF);
      }
    } else {
      var d := f.rx - Fx(f.left, y);
      PlaceWithin(0.0, d, d, HALF);
      if OutX(f, q, x, y) == Some(HALF) {
        PlaceInjective(0.0, x - Fx(f.left, y), d, d, HALF);
      }
    }
  }

  lemma MiddleY(f: Frame, q: Quadrant, x: real, y: real)
    requires Divisible(f) && Guard(f, q, x, y) && OutY(f, q, x, y).Some?
    ensures OutY(f, q, x, y) == Some(HALF) <==> y == f.ry
  {
    if q.North() {
      var d := f.ry - Fy(f.top, x);
      PlaceWithin(0.0, d, d, HALF);
      if OutY(f, q, x, y) == Some(HALF) {
        PlaceInjective(0.0, y - Fy(f.top, x), d, d, HALF);
      }
    } else {
      var d := Fy(f.bottom, x) - f.ry;
      PlaceWithin(HALF, 0.0, d, HALF);
      if OutY(f, q, x, y) == Some(HALF) {
        PlaceInjective(HALF, y - f.ry, 0.0, d, HALF);
      }
    }
  }

  // Two quadrants give the same image only on the lines through the centre, and there once.
  lemma AcrossQuadrants(f: Frame, q: Quadrant, q': Quadrant, x: real, y: real, x': real, y': real)
    requires Divisible(f) && q != q' && Covers(f, q, x, y) && Covers(f, q', x', y')
    requires Image(f, q, x, y) == Image(f, q', x', y')
    ensures x == x' && y == y'
  {
    OutXRange(f, q, x, y);
    OutXRange(f, q', x', y');
    OutYRange(f, q, x, y);
    OutYRange(f, q', x', y');
    if q.East() != q'.East() {
      MiddleX(f, q, x, y);
      MiddleX(f, q', x', y');
    }
    if q.North() != q'.North() {
      MiddleY(f, q, x, y);
      MiddleY(f, q', x', y');
    } else {
      SameSideY(f, q, q', x, y, y');
    }
    if q.East() == q'.East() {
      SameSideX(f, q, q', x, x', y);
    }
  }

  lemma SameSideY(f: Frame, q: Quadrant, q': Quadrant, x: real, y: real, y': real)
    requires Divisible(f) && q.North() == q'.North()
    requires OutY(f, q, x, y).Some? && OutY(f, q, x, y) == OutY(f, q', x, y')
    ensures y == y'
  {
    if q.North() {
      PlaceInjective(0.0, y - Fy(f.top, x), y' - Fy(f.top, x), f.ry - Fy(f.top, x), HALF);
    } else {
      PlaceInjective(HALF, y - f.ry, y' - f.ry, Fy(f.bottom, x) - f.ry, HALF);
    }
  }

  lemma SameSideX(f: Frame, q: Quadrant, q': Quadrant, x: real, x': real, y: real)
    requires Divisible(f) && q.East() == q'.East()
    requires OutX(f, q, x, y).Some? && OutX(f, q, x, y) == OutX(f, q', x', y)
    ensures x == x'
  {
    if q.East() {
      PlaceInjective(HALF, x - f.rx, x' - f.rx, Fx(f.right, y) - f.rx, HALF);
    } else {
      PlaceInjective(0.0, x - Fx(f.left, y), x' - Fx(f.left, y), f.rx - Fx(f.left, y), HALF);
    }
  }

  // Off the lines through the centre only one branch can map a touch.
  lemma OnlyBranch(f: Frame, q: Quadrant, x: real, y: real)
    requires Divisible(f) && Guard(f, q, x, y) && x != f.rx && y != f.ry
    ensures Map(f, x, y) == Image(f, q, x, y)
  {
  }

  // The points of a folded quadrant that collapse lie off those lines.
  lemma FoldedNotMapInjective(p: seq<Point>, q: Quadrant)
    requires |p| >= 5 && Layout(p) && CornerOf(p, q).Proper() && CornerOf(p, q).Folds()
    ensures !MapInjective(FrameOf(p))
  {
    var f, k := FrameOf(p), CornerOf(p, q);
    C.FoldPointsDiffer(k, 0.25, 0.75);
    var s := FoldScreen(p, q, 0.25);
    var t := FoldScreen(p, q, 0.75);
    assert Map(f, s.0, s.1) == Map(f, t.0, t.1);
  }

  lemma FoldScreen(p: seq<Point>, q: Quadrant, part: real) returns (s: (real, real))
    requires |p| >= 5 && Layout(p) && CornerOf(p, q).Proper() && CornerOf(p, q).Folds() && 0.0 < part < 1.0
    ensures LocalY(p, q, s.1) == C.FoldPoint(CornerOf(p, q), part).1
    ensures Defined(Map(FrameOf(p), s.0, s.1))
    ensures var k := CornerOf(p, q);
            Map(FrameOf(p), s.0, s.1) ==
            At(Some(Spread(q.East(), C.FoldU(k))), Some(Spread(!q.North(), C.FoldW(k))))
  {
    var f, k := FrameOf(p), CornerOf(p, q);
    var l := C.FoldPoint(k, part);
    C.FoldCollapses(k, part);
    s := Screen(p, q, l);
    QuadrantIsCorner(p, q, s.0, s.1);
    C.FoldNotZero(k);
    SpreadInjective(q.East(), C.FoldU(k), 0.0);
    SpreadInjective(!q.North(), C.FoldW(k), 0.0);
    MiddleX(f, q, s.0, s.1);
    MiddleY(f, q, s.0, s.1);
    OnlyBranch(f, q, s.0, s.1);
  }

  // The map of an accepted layout is injective wherever it is defined, across all quadrants, if and
  // only if no quadrant folds.
  lemma MapInjectiveIff(p: seq<Point>)
    requires |p| >= 5 && Layout(p)
    ensures MapInjective(FrameOf(p)) <==> forall q: Quadrant :: !CornerOf(p, q).Folds()
  {
    var f := FrameOf(p);
    if forall q: Quadrant :: !CornerOf(p, q).Folds() {
      forall x, y, x', y' | Defined(Map(f, x, y)) && Map(f, x, y) == Map(f, x', y')
        ensures x == x' && y == y'
      {
        UnfoldedInjective(p, x, y, x', y');
      }
    } else {
      var q: Quadrant :| CornerOf(p, q).Folds();
      CornerProper(p, q);
      FoldedNotMapInjective(p, q);
    }
  }

  lemma UnfoldedInjective(p: seq<Point>, x: real, y: real, x': real, y': real)
    requires |p| >= 5 && Layout(p) && forall q: Quadrant :: !CornerOf(p, q).Folds()
    requires Defined(Map(FrameOf(p), x, y)) && Map(FrameOf(p), x, y) == Map(FrameOf(p), x', y')
    ensures x == x' && y == y'
  {
    var f := FrameOf(p);
    var q, q' := Branch(f, x, y), Branch(f, x', y');
    if q == q' {
      InjectiveIff(p, q);
    } else {
      AcrossQuadrants(f, q, q', x, y, x', y');
    }
  }

  // An accepted layout whose right edge leans out under its top edge: the first quadrant folds, and
  // the touches (76, 40) and (88, 45) are reported at the same place.
  const LEANING: seq<Point> := [Point(0, 0), Point(50, 25), Point(150, 50), Point(0, 100), Point(25, 50)]

  lemma LeaningFrame()
    ensures var f := FrameOf(LEANING);
            && f.left == Line(100.0, 0.0, 0.0) && f.right == Line(25.0, -100.0, 1250.0)
            && f.top == Line(25.0, -50.0, 0.0) && f.bottom == Line(50.0, 150.0, -15000.0)
            && f.rx == 25.0 && f.ry == 50.0
  {
    assert LEANING[0] == Point(0, 0) && LEANING[1] == Point(50, 25) && LEANING[2] == Point(150, 50)
        && LEANING[3] == Point(0, 100) && LEANING[4] == Point(25, 50);
  }

  lemma LeaningEdges()
    ensures Fx(Line(25.0, -100.0, 1250.0), 40.0) == 110.0 && Fx(Line(25.0, -100.0, 1250.0), 45.0) == 130.0
    ensures Fy(Line(25.0, -50.0, 0.0), 76.0) == 38.0 && Fy(Line(25.0, -50.0, 0.0), 88.0) == 44.0
    ensures SlopeX(Line(25.0, -100.0, 1250.0)) == 4.0 && SlopeY(Line(25.0, -50.0, 0.0)) == 0.5
  {
  }

  lemma LeaningAccepted()
    ensures Layout(LEANING)
  {
    LeaningFrame();
  }

  lemma LeaningLayoutFolds()
    ensures Layout(LEANING) && CornerOf(LEANING, First).Folds()
    ensures Covers(FrameOf(LEANING), First, 76.0, 40.0) && Covers(FrameOf(LEANING), First, 88.0, 45.0)
    ensures Image(FrameOf(LEANING), First, 76.0, 40.0) == Image(FrameOf(LEANING), First, 88.0, 45.0)
  {
    assert Layout(LEANING) by {
      LeaningAccepted();
    }
    assert Divisible(FrameOf(LEANING)) && CornerOf(LEANING, First).Folds() by {
      LeaningFrame();
      LeaningCorner(LEANING, FrameOf(LEANING));
    }
    assert Covers(FrameOf(LEANING), First, 76.0, 40.0) && Covers(FrameOf(LEANING), First, 88.0, 45.0)
        && Image(FrameOf(LEANING), First, 76.0, 40.0) == Image(FrameOf(LEANING), First, 88.0, 45.0) by {
      LeaningFrame();
      LeaningTouches(FrameOf(LEANING));
    }
  }

  lemma LeaningCorner(p: seq<Point>, f: Frame)
    requires |p| >= 5 && p[1] == Point(50, 25) && f == FrameOf(p) && Divisible(f)
    requires f.right == Line(25.0, -100.0, 1250.0) && f.top == Line(25.0, -50.0, 0.0) && f.rx == 25.0 && f.ry == 50.0
    ensures CornerOf(p, First).Folds()
  {
    LeaningEdges();
    assert CornerOf(p, First) == C.Corner(4.0, 0.5, -25.0, 25.0);
  }

  lemma LeaningTouches(f: Frame)
    requires Divisible(f) && f.right == Line(25.0, -100.0, 1250.0) && f.top == Line(25.0, -50.0, 0.0)
    requires f.rx == 25.0 && f.ry == 50.0
    ensures Covers(f, First, 76.0, 40.0) && Covers(f, First, 88.0, 45.0)
    ensures Image(f, First, 76.0, 40.0) == Image(f, First, 88.0, 45.0)
  {
    LeaningEdges();
    DivUnique(51.0, 85.0, 0.6);
    DivUnique(63.0, 105.0, 0.6);
    var sixth := Quot(1.0, 6.0);
    MulDiv(1.0, 6.0);
    DivUnique(2.0, 12.0, sixth);
    assert OutX(f, First, 76.0, 40.0).value == HALF + 0.6 * HALF == OutX(f, First, 88.0, 45.0).value;
    assert OutY(f, First, 76.0, 40.0).value == 0.0 + sixth * HALF == OutY(f, First, 88.0, 45.0).value;
  }
}
