// The nine-point calibration of TouchscreenFilterDriver.c: the four corners and a middle polyline
// of five points.  The vertical lines through the inner points of the polyline cut the region into
// four columns, the polyline cuts each column into an upper and a lower cell.
module NinePoint {
  import opened Wrappers
  import opened Lines
  import opened Calibration

  // CheckPointsLayoutNine.
  predicate Layout(p: seq<Point>)
    requires |p| >= 9
  {
    && p[0].x < p[1].x
    && p[0].y < p[5].y
    && p[2].y > p[1].y
    && p[2].y < p[3].y
    && p[4].x < p[3].x
    && p[4].y > p[5].y
    && p[6].x > p[5].x
    && p[6].x < p[7].x
    && p[8].x > p[7].x
    && p[8].x < p[2].x
    && Inside(p, p[6]) && Inside(p, p[7]) && Inside(p, p[8])
  }

  predicate Inside(p: seq<Point>, c: Point)
    requires |p| >= 9
    requires p[0].y < p[4].y && p[1].y < p[3].y && p[0].x < p[1].x && p[4].x < p[3].x
  {
    var left, right := DoCalcCoeff(p[0], p[4]), DoCalcCoeff(p[1], p[3]);
    var top, bottom := DoCalcCoeff(p[0], p[1]), DoCalcCoeff(p[3], p[4]);
    var x, y := c.x as real, c.y as real;
    && !(Fx(left, y) >= x || Fx(right, y) <= x)
    && !(Fy(top, x) >= y || Fy(bottom, x) <= y)
  }

  // The lines of the map; mid[c] is the piece of the polyline in column c, and rx the x coordinates
  // of its inner points.
  datatype Frame = Frame(left: Line, right: Line, top: Line, bottom: Line, mid: seq<Line>, rx: seq<real>)

  type Column = c: nat | c < 4

  function FrameOf(p: seq<Point>): Frame
    requires |p| >= 9
  {
    Frame(DoCalcCoeff(p[0], p[4]), DoCalcCoeff(p[1], p[3]), DoCalcCoeff(p[0], p[1]), DoCalcCoeff(p[3], p[4]),
          [DoCalcCoeff(p[5], p[6]), DoCalcCoeff(p[6], p[7]), DoCalcCoeff(p[7], p[8]), DoCalcCoeff(p[8], p[2])],
          [p[6].x as real, p[7].x as real, p[8].x as real])
  }

  // All divisors of the lines are nonzero and the columns are ordered.
  predicate Divisible(f: Frame) {
    && |f.mid| == 4 && |f.rx| == 3
    && f.left.a != 0.0 && f.right.a != 0.0 && f.top.b != 0.0 && f.bottom.b != 0.0
    && (forall c :: 0 <= c < 4 ==> f.mid[c].b != 0.0)
    && f.rx[0] < f.rx[1] < f.rx[2]
  }

  function Mid(f: Frame, c: Column, x: real): real
    requires Divisible(f)
  {
    Fy(f.mid[c], x)
  }

  // The column's two sides at height y; the outer sides lean.
  function West(f: Frame, c: Column, y: real): real
    requires Divisible(f)
  {
    if c == 0 then Fx(f.left, y) else f.rx[c - 1]
  }

  function East(f: Frame, c: Column, y: real): real
    requires Divisible(f)
  {
    if c == 3 then Fx(f.right, y) else f.rx[c]
  }

  // Where the column's quarter of the output starts.  The integer constants truncate, so the four
  // quarters do not quite abut.
  function Base(c: Column): real {
    [0.0, QUARTER, HALF, THREE_QUARTERS][c]
  }

  predicate Guard(f: Frame, c: Column, upper: bool, x: real, y: real)
    requires Divisible(f)
  {
    && West(f, c, y) <= x <= East(f, c, y)
    && (if upper then Fy(f.top, x) <= y && Mid(f, c, x) >= y else Mid(f, c, x) <= y && Fy(f.bottom, x) >= y)
  }

  function OutX(f: Frame, c: Column, x: real, y: real): Option<real>
    requires Divisible(f)
  {
    Place(Base(c), x - West(f, c, y), East(f, c, y) - West(f, c, y), QUARTER)
  }

  function OutY(f: Frame, c: Column, upper: bool, x: real, y: real): Option<real>
    requires Divisible(f)
  {
    if upper then Place(0.0, y - Fy(f.top, x), Mid(f, c, x) - Fy(f.top, x), HALF)
    else Place(HALF, y - Mid(f, c, x), Fy(f.bottom, x) - Mid(f, c, x), HALF)
  }

  function Image(f: Frame, c: Column, upper: bool, x: real, y: real): Mapped
    requires Divisible(f)
  {
    At(OutX(f, c, x, y), OutY(f, c, upper, x, y))
  }

  // The chain of tests of DoFloatingPointCalculationForCalibrationNine: the upper cells from right
  // to left, then the lower cells from left to right.
  function Cell(f: Frame, x: real, y: real): Option<(Column, bool)>
    requires Divisible(f)
  {
    if Guard(f, 3, true, x, y) then Some((3, true))
    else if Guard(f, 2, true, x, y) then Some((2, true))
    else if Guard(f, 1, true, x, y) then Some((1, true))
    else if Guard(f, 0, true, x, y) then Some((0, true))
    else if Guard(f, 0, false, x, y) then Some((0, false))
    else if Guard(f, 1, false, x, y) then Some((1, false))
    else if Guard(f, 2, false, x, y) then Some((2, false))
    else if Guard(f, 3, false, x, y) then Some((3, false))
    else None
  }

  function Map(f: Frame, x: real, y: real): Mapped
    requires Divisible(f)
  {
    match Cell(f, x, y)
    case None => Off
    case Some((c, upper)) => Image(f, c, upper, x, y)
  }

  // ---------- division and ranges ----------

  // The middle polyline is connected, and stays strictly between the top and bottom lines at its
  // inner points.
  predicate Sound(f: Frame)
  {
    && Divisible(f)
    && (forall c :: 0 <= c < 3 ==> Fy(f.mid[c], f.rx[c]) == Fy(f.mid[c + 1], f.rx[c]))
    && (forall c :: 0 <= c < 3 ==> Fy(f.top, f.rx[c]) < Fy(f.mid[c], f.rx[c]) < Fy(f.bottom, f.rx[c]))
  }

  // The order of the points along the edges and along the polyline.
  predicate InOrder(p: seq<Point>)
    requires |p| >= 9
  {
    && p[0].x < p[1].x && p[4].x < p[3].x
    && p[0].y < p[5].y < p[4].y && p[1].y < p[2].y < p[3].y
    && p[5].x < p[6].x < p[7].x < p[8].x < p[2].x
  }

  // Strictly inside the quadrilateral of the corners, walked clockwise.
  predicate InQuadrilateral(p: seq<Point>, c: Point)
    requires |p| >= 9
  {
    && Turn(p[0], p[1], c) > 0 && Turn(p[1], p[3], c) > 0
    && Turn(p[3], p[4], c) > 0 && Turn(p[4], p[0], c) > 0
  }

  lemma InsideIff(p: seq<Point>, c: Point)
    requires |p| >= 9 && p[0].y < p[4].y && p[1].y < p[3].y && p[0].x < p[1].x && p[4].x < p[3].x
    ensures Inside(p, c) <==> InQuadrilateral(p, c)
  {
    SideIsTurn(p[0], p[4], c);
    SideIsTurn(p[1], p[3], c);
    SideIsTurn(p[0], p[1], c);
    SideIsTurn(p[3], p[4], c);
  }

  // The check accepts exactly the nine points that are in order and whose three inner points lie
  // strictly inside the quadrilateral of the corners: the divisions and comparisons of the code
  // decide a fact about integers, whatever the shape of the corners.
  lemma LayoutIff(p: seq<Point>)
    requires |p| >= 9
    ensures Layout(p) <==> InOrder(p) && (forall i :: 6 <= i <= 8 ==> InQuadrilateral(p, p[i]))
  {
    if InOrder(p) {
      InsideIff(p, p[6]);
      InsideIff(p, p[7]);
      InsideIff(p, p[8]);
    }
  }

  // Every grid of five columns and three rows is accepted.
  lemma GridAccepted(p: seq<Point>, xs: seq<UInt16>, ys: seq<UInt16>)
    requires |xs| == 5 && |ys| == 3 && xs[0] < xs[1] < xs[2] < xs[3] < xs[4] && ys[0] < ys[1] < ys[2]
    requires p == [Point(xs[0], ys[0]), Point(xs[4], ys[0]), Point(xs[4], ys[1]), Point(xs[4], ys[2]),
                   Point(xs[0], ys[2]), Point(xs[0], ys[1]), Point(xs[1], ys[1]), Point(xs[2], ys[1]),
                   Point(xs[3], ys[1])]
    ensures Layout(p)
  {
    LayoutIff(p);
    forall i | 6 <= i <= 8
      ensures InQuadrilateral(p, p[i])
    {
      assert p[i].y == ys[1] && p[i].x == xs[i - 5];
      Rectangle(p[0], p[1], p[3], p[4], p[i]);
    }
  }

  // An accepted layout leaves no zero divisor and gives a sound frame, whose polyline reaches from
  // a point left of the inner ones to a point right of them.
  lemma LayoutGivesFrame(p: seq<Point>)
    requires |p| >= 9 && Layout(p)
    ensures var f := FrameOf(p);
            && Sound(f)
            && p[5].x as real < f.rx[0] && f.rx[2] < p[2].x as real
            && Mid(f, 0, p[5].x as real) == p[5].y as real && Mid(f, 3, p[2].x as real) == p[2].y as real
  {
    ThroughPoints(p[5], p[6]);
    ThroughPoints(p[6], p[7]);
    ThroughPoints(p[7], p[8]);
    ThroughPoints(p[8], p[2]);
  }

  lemma CellGuard(f: Frame, x: real, y: real)
    requires Divisible(f) && Cell(f, x, y).Some?
    ensures var (c, upper) := Cell(f, x, y).value; Guard(f, c, upper, x, y)
  {
  }

  // In every cell 0 <= numerator <= denominator: the outputs lie in the cell's part of the square,
  // and are undefined only for a touch on the cell's inner edge.
  lemma OutRange(f: Frame, c: Column, upper: bool, x: real, y: real)
    requires Divisible(f) && Guard(f, c, upper, x, y)
    ensures Within(OutX(f, c, x, y), Base(c), Base(c) + QUARTER)
    ensures OutX(f, c, x, y).None? ==> (c == 0 && x == f.rx[0]) || (c == 3 && x == f.rx[2])
    ensures Within(OutY(f, c, upper, x, y), if upper then 0.0 else HALF, if upper then HALF else HALF + HALF)
    ensures OutY(f, c, upper, x, y).None? ==> y == Mid(f, c, x)
    ensures x == West(f, c, y) ==> Within(OutX(f, c, x, y), Base(c), Base(c))
    ensures x == East(f, c, y) ==> Within(OutX(f, c, x, y), Base(c) + QUARTER, Base(c) + QUARTER)
    ensures y == Mid(f, c, x) ==> Within(OutY(f, c, upper, x, y), HALF, HALF)
  {
    PlaceWithin(Base(c), x - West(f, c, y), East(f, c, y) - West(f, c, y), QUARTER);
    if upper {
      PlaceWithin(0.0, y - Fy(f.top, x), Mid(f, c, x) - Fy(f.top, x), HALF);
    } else {
      PlaceWithin(HALF, y - Mid(f, c, x), Fy(f.bottom, x) - Mid(f, c, x), HALF);
    }
  }

  // Every mapped coordinate is in [0, 32766].
  lemma MapRange(f: Frame, x: real, y: real)
    requires Divisible(f) && Map(f, x, y).At?
    ensures Within(Map(f, x, y).x, 0.0, 32766.0) && Within(Map(f, x, y).y, 0.0, 32766.0)
  {
    CellGuard(f, x, y);
    var (c, upper) := Cell(f, x, y).value;
    OutRange(f, c, upper, x, y);
    Quarters(c);
  }

  lemma Quarters(c: Column)
    ensures 0.0 <= Base(c) && Base(c) + QUARTER <= 32766.0
    ensures c < 3 ==> 0.0 <= Base(c + 1) - Base(c) - QUARTER <= 1.0
  {
  }

  // Between the outer inner points the polyline runs strictly between the top and bottom lines.
  lemma MiddleBetween(f: Frame, c: Column, x: real)
    requires Sound(f) && 1 <= c <= 2 && f.rx[c - 1] <= x <= f.rx[c]
    ensures Fy(f.top, x) < Mid(f, c, x) < Fy(f.bottom, x)
  {
    assert Fy(f.mid[c - 1], f.rx[c - 1]) == Fy(f.mid[c - 1 + 1], f.rx[c - 1]);
    AboveBetween(f.top, f.mid[c], f.rx[c - 1], f.rx[c], x);
    AboveBetween(f.mid[c], f.bottom, f.rx[c - 1], f.rx[c], x);
  }

  // ---------- which touches are mapped, and where to ----------

  // The column that x lies in; an inner point's own x counts to the inner columns.
  function ColumnOf(f: Frame, x: real): Column
    requires Divisible(f)
  {
    if x < f.rx[0] then 0 else if x <= f.rx[1] then 1 else if x <= f.rx[2] then 2 else 3
  }

  // Between the outer lines, as far as x is in an outer column, and between the top or bottom line
  // and the polyline.
  predicate Reached(f: Frame, x: real, y: real)
    requires Divisible(f)
  {
    var mid := Mid(f, ColumnOf(f, x), x);
    && (x < f.rx[0] ==> Fx(f.left, y) <= x) && (x > f.rx[2] ==> x <= Fx(f.right, y))
    && (Fy(f.top, x) <= y <= mid || mid <= y <= Fy(f.bottom, x))
  }

  lemma GuardCell(f: Frame, c: Column, upper: bool, x: real, y: real)
    requires Divisible(f) && Guard(f, c, upper, x, y)
    ensures Cell(f, x, y).Some?
  {
    match c
    case 0 =>
    case 1 =>
    case 2 =>
    case 3 =>
  }

  // A column whose sides reach x is the column of x, or the one beside it when they meet there.
  lemma OwnColumn(f: Frame, c: Column, x: real, y: real)
    requires Sound(f) && West(f, c, y) <= x <= East(f, c, y)
    ensures var k := ColumnOf(f, x);
            && Mid(f, c, x) == Mid(f, k, x)
            && (c == k || (c == k - 1 && x == f.rx[c]) || (c == k + 1 && x == f.rx[k]))
  {
    assert forall i :: 0 <= i < 3 ==> Fy(f.mid[i], f.rx[i]) == Fy(f.mid[i + 1], f.rx[i]);
  }

  // A touch is mapped if and only if it lies in the region above: no branch is missing, in the
  // outer columns or in the inner ones.
  lemma MappedIff(f: Frame, x: real, y: real)
    requires Sound(f)
    ensures Map(f, x, y).At? <==> Reached(f, x, y)
  {
    var k := ColumnOf(f, x);
    if Cell(f, x, y).Some? {
      CellGuard(f, x, y);
      OwnColumn(f, Cell(f, x, y).value.0, x, y);
    }
    if Reached(f, x, y) {
      GuardCell(f, k, Fy(f.top, x) <= y <= Mid(f, k, x), x, y);
    }
  }

  // A mapped touch is placed in the quarter of the output that its column has.  Only on an inner
  // point's x may it be either side's quarter, at the end where the two quarters meet, and only
  // there may x be undefined.
  lemma MappedInQuarter(f: Frame, x: real, y: real)
    requires Sound(f) && Map(f, x, y).At?
    ensures var (m, k) := (Map(f, x, y).x, ColumnOf(f, x));
            && ((forall j :: 0 <= j < 3 ==> x != f.rx[j]) ==> m.Some? && Base(k) <= m.value <= Base(k) + QUARTER)
            && (forall j :: 0 <= j < 3 && x == f.rx[j] && m.Some? ==>
                  m.value == Base(j) + QUARTER || m.value == Base(j + 1))
            && (m.None? ==> x == f.rx[0] || x == f.rx[2])
  {
    CellGuard(f, x, y);
    var (c, upper) := Cell(f, x, y).value;
    OwnColumn(f, c, x, y);
    OutRange(f, c, upper, x, y);
  }

  // And in the half on its side of the polyline.
  lemma MappedInHalf(f: Frame, x: real, y: real)
    requires Sound(f) && Map(f, x, y).At?
    ensures var (m, mid) := (Map(f, x, y).y, Mid(f, ColumnOf(f, x), x));
            && (y != mid ==> m.Some?)
            && (y < mid ==> Within(m, 0.0, HALF))
            && (y > mid ==> Within(m, HALF, HALF + HALF))
            && (y == mid ==> Within(m, HALF, HALF))
  {
    CellGuard(f, x, y);
    var (c, upper) := Cell(f, x, y).value;
    OwnColumn(f, c, x, y);
    OutRange(f, c, upper, x, y);
  }

  // Off the inner points' x and off the polyline it is the cell of its own column and its own half
  // whose formulas place the touch.
  lemma MappedByOwnCell(f: Frame, x: real, y: real)
    requires Sound(f) && Map(f, x, y).At? && y != Mid(f, ColumnOf(f, x), x)
    requires forall j :: 0 <= j < 3 ==> x != f.rx[j]
    ensures Map(f, x, y) == Image(f, ColumnOf(f, x), y < Mid(f, ColumnOf(f, x), x), x, y)
  {
    CellGuard(f, x, y);
    OwnColumn(f, Cell(f, x, y).value.0, x, y);
  }

  // Every touch between the left and right and between the top and bottom lines is mapped.
  lemma RegionMapped(f: Frame, x: real, y: real)
    requires Sound(f) && Fx(f.left, y) <= x <= Fx(f.right, y) && Fy(f.top, x) <= y <= Fy(f.bottom, x)
    ensures Map(f, x, y).At?
  {
    MappedIff(f, x, y);
  }

  // Every touch strictly between the outer inner points and between the top and bottom lines is
  // accepted, divides by no zero, and lands in its own column's quarter and its own half.
  lemma InnerAccepted(p: seq<Point>, x: real, y: real)
    requires |p| >= 9 && Layout(p)
    requires p[6].x as real < x < p[8].x as real
    ensures Divisible(FrameOf(p))
    ensures var f := FrameOf(p);
            Fy(f.top, x) <= y <= Fy(f.bottom, x) ==>
              && Cell(f, x, y).Some? && Map(f, x, y).x.Some? && Map(f, x, y).y.Some?
              && var (c, upper) := Cell(f, x, y).value;
                 && 1 <= c <= 2 && f.rx[c - 1] <= x <= f.rx[c]
                 && (if upper then y <= Mid(f, c, x) else Mid(f, c, x) <= y)
                 && Base(c) <= Map(f, x, y).x.value <= Base(c) + QUARTER
                 && (if upper then 0.0 <= Map(f, x, y).y.value <= HALF else HALF <= Map(f, x, y).y.value <= HALF + HALF)
  {
    var f := FrameOf(p);
    LayoutGivesFrame(p);
    if Fy(f.top, x) <= y <= Fy(f.bottom, x) {
      var k: Column := if x <= f.rx[1] then 1 else 2;
      assert Guard(f, k, y <= Mid(f, k, x), x, y);
      CellGuard(f, x, y);
      var (c, upper) := Cell(f, x, y).value;
      InnerColumn(f, x, y, c, upper);
      MiddleBetween(f, c, x);
      OutRange(f, c, upper, x, y);
    }
  }

  lemma InnerColumn(f: Frame, x: real, y: real, c: Column, upper: bool)
    requires Divisible(f) && f.rx[0] < x < f.rx[2] && Guard(f, c, upper, x, y)
    ensures 1 <= c <= 2 && f.rx[c - 1] <= x <= f.rx[c]
  {
  }

  // Between two touches of one cell, a touch in proportion is placed in proportion: along a row in
  // x and along a column in y.
  lemma CellProportional(f: Frame, c: Column, upper: bool, x: real, y: real, x': real, y': real, t: real)
    requires Divisible(f)
    ensures OutX(f, c, x, y).Some? ==>
              var (o, o') := (OutX(f, c, x, y).value, OutX(f, c, x', y).value);
              OutX(f, c, x + Times(t, x' - x), y).value == o + Times(t, o' - o)
    ensures OutY(f, c, upper, x, y).Some? ==>
              var (o, o') := (OutY(f, c, upper, x, y).value, OutY(f, c, upper, x, y').value);
              OutY(f, c, upper, x, y + Times(t, y' - y)).value == o + Times(t, o' - o)
  {
    Shifted(Base(c), x, x', West(f, c, y), t, East(f, c, y) - West(f, c, y), QUARTER);
    var top, mid, bottom := Fy(f.top, x), Mid(f, c, x), Fy(f.bottom, x);
    if upper {
      Shifted(0.0, y, y', top, t, mid - top, HALF);
    } else {
      Shifted(HALF, y, y', mid, t, bottom - mid, HALF);
    }
  }

  lemma Shifted(base: real, v: real, v': real, edge: real, t: real, d: real, span: real)
    ensures d != 0.0 ==>
              var (o, o') := (Place(base, v - edge, d, span).value, Place(base, v' - edge, d, span).value);
              Place(base, v + Times(t, v' - v) - edge, d, span).value == o + Times(t, o' - o)
  {
    if d != 0.0 {
      PlaceBetween(base, v - edge, v' - edge, t, d, span);
      assert (v' - edge) - (v - edge) == v' - v;
    }
  }

  // ---------- seams and monotonicity ----------

  // Two columns that both reach a point are the same or meet there at an inner point, where the
  // two pieces of the polyline meet as well.
  lemma SharedColumns(f: Frame, c: Column, c': Column, x: real, y: real, y': real)
    requires Sound(f) && c < c'
    requires x <= East(f, c, y) && West(f, c', y') <= x
    ensures c' == c + 1 && x == f.rx[c] && Mid(f, c, x) == Mid(f, c', x)
  {
    assert f.rx[c] <= f.rx[c' - 1];
    assert Fy(f.mid[c], f.rx[c]) == Fy(f.mid[c + 1], f.rx[c]);
  }

  // Where several cells accept a touch, the vertical outputs agree and the horizontal outputs
  // differ exactly by the gap the truncated constants leave, at most one unit.
  lemma SeamsAgree(f: Frame, c: Column, c': Column, u: bool, u': bool, x: real, y: real)
    requires Sound(f) && c <= c' && Guard(f, c, u, x, y) && Guard(f, c', u', x, y)
    ensures OutY(f, c, u, x, y).Some? && OutY(f, c', u', x, y).Some? ==> OutY(f, c, u, x, y) == OutY(f, c', u', x, y)
    ensures OutX(f, c, x, y).Some? && OutX(f, c', x, y).Some? ==>
              var gap := OutX(f, c', x, y).value - OutX(f, c, x, y).value;
              0.0 <= gap <= 1.0 && gap == if c == c' then 0.0 else Base(c') - Base(c) - QUARTER
  {
    if c < c' {
      SharedColumns(f, c, c', x, y, y);
    }
    Quarters(c);
    OutRange(f, c, u, x, y);
    OutRange(f, c', u', x, y);
  }

  // Along a row the output x never decreases as x grows.
  lemma RowMonotone(f: Frame, x: real, x': real, y: real)
    requires Sound(f) && x <= x'
    requires Map(f, x, y).At? && Map(f, x', y).At? && Map(f, x, y).x.Some? && Map(f, x', y).x.Some?
    ensures Map(f, x, y).x.value <= Map(f, x', y).x.value
    ensures Map(f, x, y).x.value.Floor <= Map(f, x', y).x.value.Floor
  {
    CellGuard(f, x, y);
    CellGuard(f, x', y);
    var (c, u) := Cell(f, x, y).value;
    var (c', u') := Cell(f, x', y).value;
    OutRange(f, c, u, x, y);
    OutRange(f, c', u', x', y);
    Quarters(c);
    if c == c' {
      PlaceMonotone(Base(c), x - West(f, c, y), x' - West(f, c, y), East(f, c, y) - West(f, c, y), QUARTER);
    }
  }

  // Along a column the output y never decreases as y grows.
  lemma ColumnMonotone(f: Frame, x: real, y: real, y': real)
    requires Sound(f) && y <= y'
    requires Map(f, x, y).At? && Map(f, x, y').At? && Map(f, x, y).y.Some? && Map(f, x, y').y.Some?
    ensures Map(f, x, y).y.value <= Map(f, x, y').y.value
    ensures Map(f, x, y).y.value.Floor <= Map(f, x, y').y.value.Floor
  {
    CellGuard(f, x, y);
    CellGuard(f, x, y');
    var (c, u) := Cell(f, x, y).value;
    var (c', u') := Cell(f, x, y').value;
    OutRange(f, c, u, x, y);
    OutRange(f, c', u', x, y');
    if c < c' {
      SharedColumns(f, c, c', x, y, y');
    } else if c' < c {
      SharedColumns(f, c', c, x, y', y);
    }
    var top, mid, bottom := Fy(f.top, x), Mid(f, c, x), Fy(f.bottom, x);
    assert mid == Mid(f, c', x);
    if u && u' {
      PlaceMonotone(0.0, y - top, y' - top, mid - top, HALF);
    } else if !u && !u' {
      PlaceMonotone(HALF, y - mid, y' - mid, bottom - mid, HALF);
    }
  }

  // ---------- injectivity ----------

  // The real map is injective on each of the four inner cells.
  lemma InnerInjective(f: Frame, c: Column, upper: bool, x: real, y: real, x': real, y': real)
    requires Sound(f) && 1 <= c <= 2
    requires Guard(f, c, upper, x, y) && Guard(f, c, upper, x', y')
    requires Image(f, c, upper, x, y) == Image(f, c, upper, x', y')
    ensures x == x' && y == y'
  {
    PlaceInjective(Base(c), x - f.rx[c - 1], x' - f.rx[c - 1], f.rx[c] - f.rx[c - 1], QUARTER);
    MiddleBetween(f, c, x);
    var top, mid, bottom := Fy(f.top, x), Mid(f, c, x), Fy(f.bottom, x);
    if upper {
      PlaceInjective(0.0, y - top, y' - top, mid - top, HALF);
    } else {
      PlaceInjective(HALF, y - mid, y' - mid, bottom - mid, HALF);
    }
  }
}
