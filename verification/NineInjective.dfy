// When the nine-point map sends different touches to different places.  The four inner cells always
// do; an outer cell does exactly when it does not fold.
module NineInjective {
  import opened Wrappers
  import opened Lines
  import opened Calibration
  import opened NinePoint
  import O = OuterCell

  predicate Outer(c: Column) {
    c == 0 || c == 3
  }

  // The column's edge towards the middle of the screen, and the distance of x from it outwards.
  function InnerEdge(f: Frame, c: Column): real
    requires Divisible(f)
  {
    if c == 0 then f.rx[0] else f.rx[2]
  }

  function Outwards(c: Column, d: real): real {
    if c == 0 then -d else d
  }

  function Side(f: Frame, c: Column): Line {
    if c == 0 then f.left else f.right
  }

  function Upper(f: Frame, c: Column, upper: bool): Line
    requires |f.mid| == 4
  {
    if upper then f.top else f.mid[c]
  }

  function Lower(f: Frame, c: Column, upper: bool): Line
    requires |f.mid| == 4
  {
    if upper then f.mid[c] else f.bottom
  }

  function CellOf(f: Frame, c: Column, upper: bool): O.Cell
    requires Divisible(f)
  {
    var r := InnerEdge(f, c);
    O.Cell(Outwards(c, Fx(Side(f, c), 0.0) - r), Outwards(c, SlopeX(Side(f, c))),
           Fy(Upper(f, c, upper), r), Outwards(c, SlopeY(Upper(f, c, upper))),
           Fy(Lower(f, c, upper), r), Outwards(c, SlopeY(Lower(f, c, upper))))
  }

  function Local(f: Frame, c: Column, x: real): real
    requires Divisible(f)
  {
    Outwards(c, x - InnerEdge(f, c))
  }

  // ---------- the cell in its own coordinates ----------

  lemma CellProper(f: Frame, c: Column, upper: bool)
    requires Sound(f) && Outer(c)
    ensures CellOf(f, c, upper).Proper()
  {
    var i := if c == 0 then 0 else 2;
    assert Fy(f.top, f.rx[i]) < Fy(f.mid[i], f.rx[i]) < Fy(f.bottom, f.rx[i]);
    assert Fy(f.mid[i], f.rx[i]) == Fy(f.mid[i + 1], f.rx[i]);
  }

  lemma TwoSigns(c: Column, k: real, d: real)
    ensures Times(Outwards(c, k), Outwards(c, d)) == k * d == Times(k, d)
    ensures Times(Outwards(c, k), d) == Outwards(c, k * d)
  {
  }

  lemma EdgeLocal(f: Frame, c: Column, l: Line, x: real)
    requires Divisible(f) && l.b != 0.0
    ensures Fy(l, InnerEdge(f, c)) + Times(Outwards(c, SlopeY(l)), Local(f, c, x)) == Fy(l, x)
  {
    FyAffine(l, x, InnerEdge(f, c));
    TwoSigns(c, SlopeY(l), x - InnerEdge(f, c));
  }

  lemma SideLocal(f: Frame, c: Column, y: real)
    requires Divisible(f)
    ensures Outwards(c, Fx(Side(f, c), 0.0) - InnerEdge(f, c)) + Times(Outwards(c, SlopeX(Side(f, c))), y) ==
            Outwards(c, Fx(Side(f, c), y) - InnerEdge(f, c))
  {
    FxAffine(Side(f, c), y, 0.0);
    TwoSigns(c, SlopeX(Side(f, c)), y);
  }

  lemma EdgesOfCell(f: Frame, c: Column, upper: bool, x: real, y: real)
    requires Divisible(f)
    ensures var k := CellOf(f, c, upper);
            && k.Side(y) == Outwards(c, Fx(Side(f, c), y) - InnerEdge(f, c))
            && k.Top(Local(f, c, x)) == Fy(Upper(f, c, upper), x)
            && k.Bottom(Local(f, c, x)) == Fy(Lower(f, c, upper), x)
  {
    SideLocal(f, c, y);
    EdgeLocal(f, c, Upper(f, c, upper), x);
    EdgeLocal(f, c, Lower(f, c, upper), x);
  }

  // Both coordinates of the cell's image are defined.
  predicate Covers(f: Frame, c: Column, upper: bool, x: real, y: real)
    requires Divisible(f)
  {
    Guard(f, c, upper, x, y) && OutX(f, c, x, y).Some? && OutY(f, c, upper, x, y).Some?
  }

  lemma CoversIsDefined(f: Frame, c: Column, upper: bool, x: real, y: real)
    requires Divisible(f) && Outer(c)
    ensures Guard(f, c, upper, x, y) <==> CellOf(f, c, upper).Contains(Local(f, c, x), y)
    ensures Covers(f, c, upper, x, y) <==> CellOf(f, c, upper).Defined(Local(f, c, x), y)
  {
    EdgesOfCell(f, c, upper, x, y);
  }

  // A fraction counted outwards, placed in the column's quarter, and one counted down, in the half.
  function PlaceX(c: Column, u: real): real {
    if c == 0 then (1.0 - u) * QUARTER else THREE_QUARTERS + u * QUARTER
  }

  function PlaceY(upper: bool, v: real): real {
    if upper then v * HALF else HALF + v * HALF
  }

  lemma PlacesInjective(c: Column, u: real, u': real, upper: bool, v: real, v': real)
    ensures PlaceX(c, u) == PlaceX(c, u') <==> u == u'
    ensures PlaceY(upper, v) == PlaceY(upper, v') <==> v == v'
  {
  }

  lemma XOfCell(f: Frame, c: Column, upper: bool, x: real, y: real)
    requires Divisible(f) && Outer(c) && CellOf(f, c, upper).Side(y) != 0.0
    ensures OutX(f, c, x, y).Some?
    ensures OutX(f, c, x, y).value == PlaceX(c, Quot(Local(f, c, x), CellOf(f, c, upper).Side(y)))
  {
    EdgesOfCell(f, c, upper, x, y);
    var n, d := Local(f, c, x), CellOf(f, c, upper).Side(y);
    if c == 0 {
      Rest(n, d, x - West(f, c, y), East(f, c, y) - West(f, c, y));
    }
  }

  lemma Rest(n: real, d: real, n': real, d': real)
    requires d != 0.0 && d' == d && n' == d - n
    ensures Quot(n', d') == 1.0 - Quot(n, d)
  {
    MulDiv(n, d);
    DivUnique(n', d', 1.0 - Quot(n, d));
  }

  lemma ImageOfCell(f: Frame, c: Column, upper: bool, x: real, y: real)
    requires Divisible(f) && Outer(c) && Covers(f, c, upper, x, y)
    ensures CellOf(f, c, upper).Defined(Local(f, c, x), y)
    ensures var k := CellOf(f, c, upper);
            && OutX(f, c, x, y).value == PlaceX(c, k.U(Local(f, c, x), y))
            && OutY(f, c, upper, x, y).value == PlaceY(upper, k.V(Local(f, c, x), y))
  {
    CoversIsDefined(f, c, upper, x, y);
    EdgesOfCell(f, c, upper, x, y);
    XOfCell(f, c, upper, x, y);
  }

  // ---------- one cell ----------

  ghost predicate Injective(f: Frame, c: Column, upper: bool)
    requires Divisible(f)
  {
    forall x, y, x', y' ::
      Covers(f, c, upper, x, y) && Covers(f, c, upper, x', y') && Image(f, c, upper, x, y) == Image(f, c, upper, x', y')
      ==> x == x' && y == y'
  }

  lemma UnfoldedCell(f: Frame, c: Column, upper: bool, x: real, y: real, x': real, y': real)
    requires Sound(f) && Outer(c) && CellOf(f, c, upper).Proper() && !CellOf(f, c, upper).Folds()
    requires Covers(f, c, upper, x, y) && Covers(f, c, upper, x', y')
    requires OutX(f, c, x, y) == OutX(f, c, x', y') && OutY(f, c, upper, x, y) == OutY(f, c, upper, x', y')
    ensures x == x' && y == y'
  {
    var k := CellOf(f, c, upper);
    ImageOfCell(f, c, upper, x, y);
    ImageOfCell(f, c, upper, x', y');
    var X, X' := Local(f, c, x), Local(f, c, x');
    PlacesInjective(c, k.U(X, y), k.U(X', y'), upper, k.V(X, y), k.V(X', y'));
    O.SameImage(k, X, y, X', y');
  }

  // The screen point on the collapsed line at a distance from the inner edge.
  function FoldX(f: Frame, c: Column, X: real): real
    requires Divisible(f)
  {
    InnerEdge(f, c) + Outwards(c, X)
  }

  lemma FoldedPoint(f: Frame, c: Column, upper: bool, X: real) returns (x: real, y: real)
    requires Sound(f) && Outer(c) && CellOf(f, c, upper).Proper() && CellOf(f, c, upper).Folds()
    requires 0.0 < X <= O.Reach(CellOf(f, c, upper))
    ensures x == FoldX(f, c, X) && Covers(f, c, upper, x, y)
    ensures CellOf(f, c, upper).Defined(Local(f, c, x), y)
    ensures CellOf(f, c, upper).V(Local(f, c, x), y) == CellOf(f, c, upper).Share()
    ensures var k := CellOf(f, c, upper);
            && OutX(f, c, x, y).value == PlaceX(c, Quot(1.0, Times(k.s, k.Slope())))
            && OutY(f, c, upper, x, y).value == PlaceY(upper, k.Share())
  {
    var k := CellOf(f, c, upper);
    x, y := FoldX(f, c, X), O.FoldPoint(k, X).1;
    O.FoldCollapses(k, X);
    assert Local(f, c, x) == X;
    CoversIsDefined(f, c, upper, x, y);
    ImageOfCell(f, c, upper, x, y);
  }

  lemma FoldedCell(f: Frame, c: Column, upper: bool)
    requires Sound(f) && Outer(c) && CellOf(f, c, upper).Proper() && CellOf(f, c, upper).Folds()
    ensures !Injective(f, c, upper)
  {
    var d := O.Reach(CellOf(f, c, upper));
    var x, y := FoldedPoint(f, c, upper, d);
    var x', y' := FoldedPoint(f, c, upper, d / 2.0);
    assert x != x';
    assert Image(f, c, upper, x, y) == Image(f, c, upper, x', y');
  }

  // An outer cell is injective if and only if it does not fold: its side meets the inner edge within
  // the cell, and leaves it so flat that a line from there on which both fractions stay the same runs
  // inside the cell.
  lemma OuterInjectiveIff(f: Frame, c: Column, upper: bool)
    requires Sound(f) && Outer(c)
    ensures CellOf(f, c, upper).Proper()
    ensures Injective(f, c, upper) <==> !CellOf(f, c, upper).Folds()
  {
    CellProper(f, c, upper);
    if CellOf(f, c, upper).Folds() {
      FoldedCell(f, c, upper);
    } else {
      forall x, y, x', y' | Covers(f, c, upper, x, y) && Covers(f, c, upper, x', y') &&
                            Image(f, c, upper, x, y) == Image(f, c, upper, x', y')
        ensures x == x' && y == y'
      {
        UnfoldedCell(f, c, upper, x, y, x', y');
      }
    }
  }

  // In particular a side that turns properly into the lines above and below leaves its cell injective.
  lemma OuterInjective(f: Frame, c: Column, upper: bool)
    requires Sound(f) && Outer(c)
    requires Times(SlopeX(Side(f, c)), SlopeY(Upper(f, c, upper))) < 1.0
    requires Times(SlopeX(Side(f, c)), SlopeY(Lower(f, c, upper))) < 1.0
    ensures Injective(f, c, upper)
  {
    OuterInjectiveIff(f, c, upper);
    TwoSigns(c, SlopeX(Side(f, c)), SlopeY(Upper(f, c, upper)));
    TwoSigns(c, SlopeX(Side(f, c)), SlopeY(Lower(f, c, upper)));
    O.TurnsNotFold(CellOf(f, c, upper));
  }

  // ---------- the whole map ----------

  predicate Defined(m: Mapped) {
    m.At? && m.x.Some? && m.y.Some?
  }

  ghost predicate MapInjective(f: Frame)
    requires Divisible(f)
  {
    forall x, y, x', y' :: Defined(Map(f, x, y)) && Map(f, x, y) == Map(f, x', y') ==> x == x' && y == y'
  }

  ghost predicate Unfolded(f: Frame)
    requires Sound(f)
  {
    forall c: Column, upper: bool | Outer(c) ::
      CellOf(f, c, upper).Proper() && !CellOf(f, c, upper).Folds()
  }

  lemma MapCell(f: Frame, x: real, y: real) returns (c: Column, upper: bool)
    requires Divisible(f) && Defined(Map(f, x, y))
    ensures Covers(f, c, upper, x, y) && Map(f, x, y) == Image(f, c, upper, x, y)
  {
    CellGuard(f, x, y);
    c, upper := Cell(f, x, y).value.0, Cell(f, x, y).value.1;
  }

  // An output on the border of the two halves comes from the polyline.
  lemma HalfIsMid(f: Frame, c: Column, upper: bool, x: real, y: real)
    requires Divisible(f) && Guard(f, c, upper, x, y) && OutY(f, c, upper, x, y) == Some(HALF)
    ensures y == Mid(f, c, x)
  {
    var top, mid, bottom := Fy(f.top, x), Mid(f, c, x), Fy(f.bottom, x);
    if upper {
      WholeQuot(y - top, mid - top);
    } else {
      NoQuot(y - mid, bottom - mid);
    }
  }

  lemma WholeQuot(n: real, d: real)
    requires d != 0.0 && Place(0.0, n, d, HALF) == Some(HALF)
    ensures n == d
  {
    MulDiv(n, d);
    assert Quot(n, d) * HALF == HALF;
    assert Quot(n, d) == 1.0;
  }

  lemma NoQuot(n: real, d: real)
    requires d != 0.0 && Place(HALF, n, d, HALF) == Some(HALF)
    ensures n == 0.0
  {
    MulDiv(n, d);
    assert Quot(n, d) * HALF == 0.0;
  }

  // Outputs in different halves that are equal come from the polyline both.
  lemma AcrossHalves(f: Frame, c: Column, c': Column, x: real, y: real, x': real, y': real)
    requires Divisible(f) && Covers(f, c, true, x, y) && Covers(f, c', false, x', y')
    requires OutY(f, c, true, x, y) == OutY(f, c', false, x', y')
    ensures y == Mid(f, c, x) && y' == Mid(f, c', x')
  {
    OutRange(f, c, true, x, y);
    OutRange(f, c', false, x', y');
    var v, v' := OutY(f, c, true, x, y).value, OutY(f, c', false, x', y').value;
    assert v <= HALF && HALF <= v';
    HalfIsMid(f, c, true, x, y);
    HalfIsMid(f, c', false, x', y');
  }

  // Touches of one x with the same output y, from the same half or not.
  lemma SameX(f: Frame, c: Column, upper: bool, c': Column, upper': bool, x: real, y: real, y': real)
    requires Sound(f) && Covers(f, c, upper, x, y) && Covers(f, c', upper', x, y')
    requires Mid(f, c, x) == Mid(f, c', x)
    requires OutY(f, c, upper, x, y) == OutY(f, c', upper', x, y')
    ensures y == y'
  {
    var top, mid, bottom := Fy(f.top, x), Mid(f, c, x), Fy(f.bottom, x);
    if upper && upper' {
      PlaceInjective(0.0, y - top, y' - top, mid - top, HALF);
    } else if !upper && !upper' {
      PlaceInjective(HALF, y - mid, y' - mid, bottom - mid, HALF);
    } else if upper {
      AcrossHalves(f, c, c', x, y, x, y');
    } else {
      AcrossHalves(f, c', c, x, y', x, y);
    }
  }

  // Different columns only share an output where the first inner point's x meets itself.
  lemma AcrossColumns(f: Frame, c: Column, upper: bool, c': Column, upper': bool, x: real, y: real, x': real, y': real)
    requires Sound(f) && c < c' && Covers(f, c, upper, x, y) && Covers(f, c', upper', x', y')
    requires OutX(f, c, x, y) == OutX(f, c', x', y')
    ensures x == x' && Mid(f, c, x) == Mid(f, c', x)
  {
    OutRange(f, c, upper, x, y);
    OutRange(f, c', upper', x', y');
    assert c == 0 && c' == 1;
    AtEnd(Base(0), x - West(f, 0, y), East(f, 0, y) - West(f, 0, y));
    AtStart(Base(1), x' - f.rx[0], f.rx[1] - f.rx[0]);
    assert Fy(f.mid[0], f.rx[0]) == Fy(f.mid[0 + 1], f.rx[0]);
  }

  lemma AtEnd(base: real, n: real, d: real)
    requires d != 0.0 && Place(base, n, d, QUARTER) == Some(base + QUARTER)
    ensures n == d
  {
    MulDiv(n, d);
    assert Quot(n, d) * QUARTER == QUARTER;
    assert Quot(n, d) == 1.0;
  }

  lemma AtStart(base: real, n: real, d: real)
    requires d != 0.0 && Place(base, n, d, QUARTER) == Some(base)
    ensures n == 0.0
  {
    MulDiv(n, d);
    assert Quot(n, d) * QUARTER == 0.0;
  }

  // In an inner column the output x determines x.
  lemma InnerX(f: Frame, c: Column, x: real, y: real, x': real, y': real)
    requires Divisible(f) && !Outer(c) && OutX(f, c, x, y).Some? && OutX(f, c, x, y) == OutX(f, c, x', y')
    ensures x == x'
  {
    PlaceInjective(Base(c), x - f.rx[c - 1], x' - f.rx[c - 1], f.rx[c] - f.rx[c - 1], QUARTER);
  }

  // A touch on the polyline lies on the top of the lower cell.
  lemma PolylineSolves(f: Frame, c: Column, upper: bool, x: real, y: real) returns (u: real)
    requires Divisible(f) && Outer(c) && Covers(f, c, upper, x, y) && y == Mid(f, c, x)
    ensures 0.0 <= u <= 1.0 && OutX(f, c, x, y).value == PlaceX(c, u)
    ensures O.Solves(CellOf(f, c, false), u, 0.0, Local(f, c, x), y)
  {
    var k, X := CellOf(f, c, false), Local(f, c, x);
    EdgesOfCell(f, c, false, x, y);
    CoversIsDefined(f, c, upper, x, y);
    assert CellOf(f, c, upper).Side(y) == k.Side(y);
    XOfCell(f, c, false, x, y);
    u := Quot(X, k.Side(y));
    QuotUnit(X, k.Side(y));
    OnTop(k, u, X, y);
  }

  // Two touches on the polyline in an outer column with the same output x.
  lemma OnPolyline(f: Frame, c: Column, x: real, y: real, x': real, y': real)
    requires Sound(f) && Outer(c) && CellOf(f, c, false).Proper() && !CellOf(f, c, false).Folds()
    requires Covers(f, c, true, x, y) && Covers(f, c, false, x', y')
    requires OutX(f, c, x, y) == OutX(f, c, x', y') && y == Mid(f, c, x) && y' == Mid(f, c, x')
    ensures x == x' && y == y'
  {
    var u := PolylineSolves(f, c, true, x, y);
    var u' := PolylineSolves(f, c, false, x', y');
    PlacesInjective(c, u, u', true, 0.0, 0.0);
    O.SameSolution(CellOf(f, c, false), u, 0.0, Local(f, c, x), y, Local(f, c, x'), y');
  }

  lemma OnTop(k: O.Cell, u: real, X: real, Y: real)
    requires X == u * k.Side(Y) && Y == k.Top(X)
    ensures O.Solves(k, u, 0.0, X, Y)
  {
    assert Times(0.0, k.Bottom(X) - k.Top(X)) == 0.0;
  }

  lemma SameColumn(f: Frame, c: Column, upper: bool, upper': bool, x: real, y: real, x': real, y': real)
    requires Sound(f) && Unfolded(f) && Covers(f, c, upper, x, y) && Covers(f, c, upper', x', y')
    requires OutX(f, c, x, y) == OutX(f, c, x', y') && OutY(f, c, upper, x, y) == OutY(f, c, upper', x', y')
    ensures x == x' && y == y'
  {
    if !Outer(c) {
      InnerX(f, c, x, y, x', y');
      SameX(f, c, upper, c, upper', x, y, y');
    } else if upper == upper' {
      UnfoldedCell(f, c, upper, x, y, x', y');
    } else if upper {
      AcrossHalves(f, c, c, x, y, x', y');
      OnPolyline(f, c, x, y, x', y');
    } else {
      AcrossHalves(f, c, c, x', y', x, y);
      OnPolyline(f, c, x', y', x, y);
    }
  }

  lemma UnfoldedInjective(f: Frame, x: real, y: real, x': real, y': real)
    requires Sound(f) && Unfolded(f) && Defined(Map(f, x, y)) && Map(f, x, y) == Map(f, x', y')
    ensures x == x' && y == y'
  {
    var c, upper := MapCell(f, x, y);
    var c', upper' := MapCell(f, x', y');
    if c == c' {
      SameColumn(f, c, upper, upper', x, y, x', y');
    } else if c < c' {
      AcrossColumns(f, c, upper, c', upper', x, y, x', y');
      SameX(f, c, upper, c', upper', x, y, y');
    } else {
      AcrossColumns(f, c', upper', c, upper, x', y', x, y);
      SameX(f, c', upper', c, upper, x, y', y);
    }
  }

  // In an outer column, off the inner point's x, the upper cell is tried before the lower one.
  lemma MappedByFold(f: Frame, c: Column, upper: bool, x: real, y: real)
    requires Sound(f) && Outer(c) && Covers(f, c, upper, x, y) && x != InnerEdge(f, c)
    requires upper || y != Mid(f, c, x)
    ensures Map(f, x, y) == Image(f, c, upper, x, y)
  {
    GuardCell(f, c, upper, x, y);
    CellGuard(f, x, y);
    OwnColumn(f, Cell(f, x, y).value.0, x, y);
  }

  // When the lower cell folds along the polyline, so does the upper one.
  lemma FoldOnPolyline(f: Frame, c: Column)
    requires Sound(f) && Outer(c) && CellOf(f, c, true).Proper() && CellOf(f, c, false).Proper()
    requires CellOf(f, c, false).Folds() && CellOf(f, c, false).Share() == 0.0
    ensures CellOf(f, c, true).Folds()
  {
    var a, b := CellOf(f, c, true), CellOf(f, c, false);
    MulDiv(b.Crossing() - b.t, b.b - b.t);
    assert b.Crossing() == b.t == a.b;
    DivUnique(a.Crossing() - a.t, a.b - a.t, 1.0);
    Ends(a.m, a.n, b.m, b.n);
    assert a.Slope() == b.Slope();
  }

  lemma Ends(p: real, q: real, p': real, q': real)
    ensures O.Mix(1.0, p, q) == q && O.Mix(0.0, p', q') == p'
  {
  }

  lemma FoldedNotInjective(f: Frame, c: Column, upper: bool)
    requires Sound(f) && Outer(c) && CellOf(f, c, upper).Proper() && CellOf(f, c, upper).Folds()
    requires upper || CellOf(f, c, upper).Share() != 0.0
    ensures !MapInjective(f)
  {
    var d := O.Reach(CellOf(f, c, upper));
    var x, y := FoldedTouch(f, c, upper, d);
    var x', y' := FoldedTouch(f, c, upper, d / 2.0);
    assert x != x';
    assert Map(f, x, y) == Map(f, x', y');
  }

  lemma FoldedTouch(f: Frame, c: Column, upper: bool, X: real) returns (x: real, y: real)
    requires Sound(f) && Outer(c) && CellOf(f, c, upper).Proper() && CellOf(f, c, upper).Folds()
    requires upper || CellOf(f, c, upper).Share() != 0.0
    requires 0.0 < X <= O.Reach(CellOf(f, c, upper))
    ensures x == FoldX(f, c, X) && Defined(Map(f, x, y))
    ensures var k := CellOf(f, c, upper);
            Map(f, x, y) == At(Some(PlaceX(c, Quot(1.0, Times(k.s, k.Slope())))), Some(PlaceY(upper, k.Share())))
  {
    x, y := FoldedPoint(f, c, upper, X);
    if !upper {
      OffPolyline(f, c, x, y);
    }
    MappedByFold(f, c, upper, x, y);
  }

  lemma OffPolyline(f: Frame, c: Column, x: real, y: real)
    requires Sound(f) && Outer(c) && CellOf(f, c, false).Defined(Local(f, c, x), y)
    requires CellOf(f, c, false).V(Local(f, c, x), y) != 0.0
    ensures y != Mid(f, c, x)
  {
    var k := CellOf(f, c, false);
    EdgesOfCell(f, c, false, x, y);
    if y == Mid(f, c, x) {
      DivUnique(0.0, k.Bottom(Local(f, c, x)) - k.Top(Local(f, c, x)), 0.0);
    }
  }

  // The whole map is injective, wherever it is defined and across all eight branches, if and only if
  // none of the four outer cells folds.
  lemma MapInjectiveIff(f: Frame)
    requires Sound(f)
    ensures MapInjective(f) <==> Unfolded(f)
  {
    forall c: Column, upper: bool | Outer(c)
      ensures CellOf(f, c, upper).Proper()
    {
      CellProper(f, c, upper);
    }
    if Unfolded(f) {
      forall x, y, x', y' | Defined(Map(f, x, y)) && Map(f, x, y) == Map(f, x', y')
        ensures x == x' && y == y'
      {
        UnfoldedInjective(f, x, y, x', y');
      }
    } else {
      var c: Column, upper: bool :| Outer(c) && CellOf(f, c, upper).Folds();
      if !upper && CellOf(f, c, false).Share() == 0.0 {
        FoldOnPolyline(f, c);
        FoldedNotInjective(f, c, true);
      } else {
        FoldedNotInjective(f, c, upper);
      }
    }
  }

  // ---------- a layout that folds ----------

  // An accepted layout whose right side leans out under its top edge.
  const LEANING: seq<Point> :=
    [Point(0, 0), Point(50, 25), Point(110, 40), Point(150, 50), Point(0, 100), Point(0, 50), Point(10, 50),
     Point(20, 50), Point(30, 50)]

  lemma LeaningAccepted()
    ensures Layout(LEANING)
  {
    assert LEANING[3] == Point(150, 50) && LEANING[4] == Point(0, 100);
    LayoutIff(LEANING);
  }

  // Its right upper cell folds, so that it sends different touches to one place.
  lemma LeaningLayoutFolds()
    ensures Layout(LEANING) && Sound(FrameOf(LEANING))
    ensures CellOf(FrameOf(LEANING), 3, true).Proper() && CellOf(FrameOf(LEANING), 3, true).Folds()
    ensures !MapInjective(FrameOf(LEANING))
  {
    assert Layout(LEANING) by {
      LeaningAccepted();
    }
    assert Sound(FrameOf(LEANING)) by {
      LayoutGivesFrame(LEANING);
    }
    var f := FrameOf(LEANING);
    assert CellOf(f, 3, true).Proper() && CellOf(f, 3, true).Folds() by {
      CellProper(f, 3, true);
      LeaningCell(f);
    }
    FoldedNotInjective(f, 3, true);
  }

  lemma LeaningCell(f: Frame)
    requires f == FrameOf(LEANING) && Divisible(f) && CellOf(f, 3, true).Proper()
    ensures CellOf(f, 3, true).Folds()
  {
    assert f.right == Line(25.0, -100.0, 1250.0) && f.top == Line(25.0, -50.0, 0.0) && f.rx[2] == 30.0;
    assert f.mid[3] == Line(-10.0, -80.0, 4300.0);
    DivUnique(-1250.0, 25.0, -50.0);
    DivUnique(100.0, 25.0, 4.0);
    DivUnique(-750.0, -50.0, 15.0);
    DivUnique(-25.0, -50.0, 0.5);
    DivUnique(-4000.0, -80.0, 50.0);
    DivUnique(10.0, -80.0, -0.125);
    var k := CellOf(f, 3, true);
    assert k == O.Cell(-80.0, 4.0, 15.0, 0.5, 50.0, -0.125);
    LeaningFolds(k);
  }

  lemma LeaningFolds(k: O.Cell)
    requires k == O.Cell(-80.0, 4.0, 15.0, 0.5, 50.0, -0.125)
    ensures k.Folds()
  {
    DivUnique(80.0, 4.0, 20.0);
    assert k.Crossing() == 20.0;
    MulDiv(5.0, 35.0);
    assert k.Share() == Quot(5.0, 35.0);
  }
}
