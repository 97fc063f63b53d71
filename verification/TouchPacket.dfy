// The completion of a read in TouchscreenFilterDriver.c: the six touches of a packet are
// rewritten in place by the calibration map, or all reported absent for a disabled device.
module TouchPacket {
  import opened Wrappers
  import opened Lines
  import opened Calibration
  import FivePoint
  import NinePoint

  const SIX_POINTS_IN_PACKET := 6
  const MAX_WIDTH := 600
  const MAX_HEIGHT := 1050

  type UInt8 = n: int | 0 <= n < 0x100

  datatype Touch = Touch(unknownFlag: UInt8, id: UInt8, x: UInt16, y: UInt16, width: UInt16, height: UInt16)

  predicate Present(t: Touch) {
    t.id != 0xFF
  }

  predicate Oversized(t: Touch, activeLarge: bool) {
    !activeLarge && (t.width > MAX_WIDTH || t.height > MAX_HEIGHT)
  }

  // What the calibration says about a touch at integer coordinates.
  function Calibrate(p: seq<Point>, nine: bool, x: int, y: int): Mapped
    requires |p| == 9 && if nine then NinePoint.Layout(p) else FivePoint.Layout(p)
  {
    if nine then
      NinePoint.LayoutGivesFrame(p);
      NinePoint.Map(NinePoint.FrameOf(p), x as real, y as real)
    else
      FivePoint.LayoutGivesFrame(p);
      FivePoint.Map(FivePoint.FrameOf(p), x as real, y as real)
  }

  // t' is the touch that t may become.  A 0/0 coordinate converts to an unspecified value; every
  // other field is left alone.
  ghost predicate Rewritten(m: Mapped, activeLarge: bool, t: Touch, t': Touch) {
    if !Present(t) then t' == t
    else if Oversized(t, activeLarge) then t' == t.(unknownFlag := 4)
    else match m
      case Off => t' == t.(unknownFlag := 4)
      case At(x, y) =>
        && t' == t.(x := t'.x, y := t'.y)
        && (x.Some? ==> t'.x == x.value.Floor)
        && (y.Some? ==> t'.y == y.value.Floor)
  }

  lemma CalibrateRange(p: seq<Point>, nine: bool, x: int, y: int)
    requires |p| == 9 && if nine then NinePoint.Layout(p) else FivePoint.Layout(p)
    requires Calibrate(p, nine, x, y).At?
    ensures Within(Calibrate(p, nine, x, y).x, 0.0, 32766.0) && Within(Calibrate(p, nine, x, y).y, 0.0, 32766.0)
  {
    if nine {
      NinePoint.LayoutGivesFrame(p);
      NinePoint.MapRange(NinePoint.FrameOf(p), x as real, y as real);
    } else {
      FivePoint.LayoutGivesFrame(p);
      FivePoint.MapRange(FivePoint.FrameOf(p), x as real, y as real);
    }
  }

  // The conversion of a DOUBLE to UINT16.
  method ToUInt16(r: Option<real>) returns (n: UInt16)
    requires Within(r, 0.0, 32766.0)
    ensures r.Some? ==> n == r.value.Floor
  {
    match r
    case Some(v) => n := v.Floor;
    case None => n := *;
  }

  // DoFloatingPointCalculationForCalibrationFive and ...Nine.
  method Transform(packet: array<Touch>, p: seq<Point>, nine: bool, activeLarge: bool)
    requires packet.Length == SIX_POINTS_IN_PACKET
    requires |p| == 9 && if nine then NinePoint.Layout(p) else FivePoint.Layout(p)
    modifies packet
    ensures forall i :: 0 <= i < packet.Length ==>
              Rewritten(Calibrate(p, nine, old(packet[i]).x, old(packet[i]).y), activeLarge, old(packet[i]), packet[i])
  {
    for index := 0 to SIX_POINTS_IN_PACKET
      invariant forall i :: 0 <= i < index ==>
                  Rewritten(Calibrate(p, nine, old(packet[i]).x, old(packet[i]).y), activeLarge, old(packet[i]),
                            packet[i])
      invariant forall i :: index <= i < packet.Length ==> packet[i] == old(packet[i])
    {
      var touch := packet[index];
      if !Present(touch) {
      } else if Oversized(touch, activeLarge) {
        packet[index] := touch.(unknownFlag := 4);
      } else {
        var m := Calibrate(p, nine, touch.x, touch.y);
        match m
        case At(x, y) =>
          CalibrateRange(p, nine, touch.x, touch.y);
          var x16 := ToUInt16(x);
          var y16 := ToUInt16(y);
          packet[index] := touch.(x := x16, y := y16);
        case Off =>
          packet[index] := touch.(unknownFlag := 4);
      }
    }
  }

  method ResetInputData(packet: array<Touch>)
    requires packet.Length == SIX_POINTS_IN_PACKET
    modifies packet
    ensures forall i :: 0 <= i < packet.Length ==>
              packet[i] == if Present(old(packet[i])) then old(packet[i]).(unknownFlag := 4) else old(packet[i])
  {
    for index := 0 to SIX_POINTS_IN_PACKET
      invariant forall i :: 0 <= i < index ==>
                  packet[i] == if Present(old(packet[i])) then old(packet[i]).(unknownFlag := 4) else old(packet[i])
      invariant forall i :: index <= i < packet.Length ==> packet[i] == old(packet[i])
    {
      if Present(packet[index]) {
        packet[index] := packet[index].(unknownFlag := 4);
      }
    }
  }

  // For every accepted nine-point layout, a live touch that is not oversized, strictly between the
  // outer inner points and between the top and bottom lines, is never reported absent: it is moved
  // to the floors of two defined coordinates.
  lemma InnerTouchMoves(p: seq<Point>, activeLarge: bool, t: Touch, t': Touch)
    requires |p| == 9 && NinePoint.Layout(p)
    requires Present(t) && !Oversized(t, activeLarge) && p[6].x < t.x < p[8].x
    requires var f := NinePoint.FrameOf(p); NinePoint.Divisible(f) ==>
               Fy(f.top, t.x as real) <= t.y as real <= Fy(f.bottom, t.x as real)
    requires Rewritten(Calibrate(p, true, t.x, t.y), activeLarge, t, t')
    ensures var m := Calibrate(p, true, t.x, t.y);
            && m.At? && m.x.Some? && m.y.Some?
            && t' == t.(x := m.x.value.Floor, y := m.y.value.Floor)
            && 8191 <= t'.x <= 24574 && t'.y <= 32766
  {
    NinePoint.InnerAccepted(p, t.x as real, t.y as real);
    CalibrateRange(p, true, t.x, t.y);
  }

  // Which touches are looked up at all: not the absent ones, and of the others, unless large touches
  // are let through, only those at most 600 wide and 1050 high.
  lemma TouchesLookedUp(m: Mapped, activeLarge: bool, t: Touch, t': Touch)
    requires Rewritten(m, activeLarge, t, t')
    ensures t.id == 0xFF ==> t' == t
    ensures t.id != 0xFF && !activeLarge && (t.width > 600 || t.height > 1050) ==> t' == t.(unknownFlag := 4)
    ensures t.id != 0xFF && (activeLarge || (t.width <= 600 && t.height <= 1050)) ==>
              if m.At? then Moved(t, t') else t' == t.(unknownFlag := 4)
  {
  }

  predicate Moved(t: Touch, t': Touch) {
    t' == t.(x := t'.x, y := t'.y)
  }

  // A live touch that is not oversized is moved if and only if it lies in the region of the map, and
  // is reported absent otherwise.
  lemma TouchMovesIff(p: seq<Point>, nine: bool, activeLarge: bool, t: Touch, t': Touch)
    requires |p| == 9 && if nine then NinePoint.Layout(p) else FivePoint.Layout(p)
    requires Present(t) && !Oversized(t, activeLarge)
    requires Rewritten(Calibrate(p, nine, t.x, t.y), activeLarge, t, t')
    ensures if nine then NinePoint.Sound(NinePoint.FrameOf(p)) else FivePoint.Divisible(FivePoint.FrameOf(p))
    ensures if (if nine then NinePoint.Reached(NinePoint.FrameOf(p), t.x as real, t.y as real)
                else FivePoint.Reached(FivePoint.FrameOf(p), t.x as real, t.y as real))
            then Calibrate(p, nine, t.x, t.y).At? && Moved(t, t')
            else t' == t.(unknownFlag := 4)
  {
    if nine {
      NinePoint.LayoutGivesFrame(p);
      NinePoint.MappedIff(NinePoint.FrameOf(p), t.x as real, t.y as real);
    } else {
      FivePoint.LayoutGivesFrame(p);
      FivePoint.MappedIff(FivePoint.FrameOf(p), t.x as real, t.y as real);
    }
  }

  // With nine points a touch that is mapped is moved into its column's quarter of the output, outer
  // columns included, and into the half on its side of the polyline.  Only on an inner point's x or
  // on the polyline itself may the code have divided zero by zero.
  lemma TouchPlacedNine(f: NinePoint.Frame, m: Mapped, activeLarge: bool, t: Touch, t': Touch)
    requires NinePoint.Sound(f) && m == NinePoint.Map(f, t.x as real, t.y as real) && m.At?
    requires Present(t) && !Oversized(t, activeLarge) && Rewritten(m, activeLarge, t, t')
    ensures var k := NinePoint.ColumnOf(f, t.x as real); var mid := NinePoint.Mid(f, k, t.x as real);
            && ((forall j :: 0 <= j < 3 ==> t.x as real != f.rx[j]) ==>
                  NinePoint.Base(k) <= t'.x as real <= NinePoint.Base(k) + QUARTER)
            && (t.y as real < mid ==> 0 <= t'.y <= 16383)
            && (t.y as real > mid ==> 16383 <= t'.y <= 32766)
  {
    var x, y := t.x as real, t.y as real;
    if forall j :: 0 <= j < 3 ==> x != f.rx[j] {
      PlacedInQuarter(f, m.x, x, y, t'.x);
    }
    PlacedInHalf(f, m.y, x, y, t'.y);
  }

  lemma PlacedInQuarter(f: NinePoint.Frame, m: Option<real>, x: real, y: real, n: int)
    requires NinePoint.Sound(f) && NinePoint.Map(f, x, y).At? && m == NinePoint.Map(f, x, y).x
    requires m.Some? ==> n == m.value.Floor
    requires forall j :: 0 <= j < 3 ==> x != f.rx[j]
    ensures var k := NinePoint.ColumnOf(f, x); NinePoint.Base(k) <= n as real <= NinePoint.Base(k) + QUARTER
  {
    NinePoint.MappedInQuarter(f, x, y);
    match NinePoint.ColumnOf(f, x)
    case 0 => FloorWithin(m.value, 0, 8191);
    case 1 => FloorWithin(m.value, 8191, 16382);
    case 2 => FloorWithin(m.value, 16383, 24574);
    case 3 => FloorWithin(m.value, 24575, 32766);
  }

  lemma PlacedInHalf(f: NinePoint.Frame, m: Option<real>, x: real, y: real, n: int)
    requires NinePoint.Sound(f) && NinePoint.Map(f, x, y).At? && m == NinePoint.Map(f, x, y).y
    requires m.Some? ==> n == m.value.Floor
    ensures var mid := NinePoint.Mid(f, NinePoint.ColumnOf(f, x), x);
            (y < mid ==> 0 <= n <= 16383) && (y > mid ==> 16383 <= n <= 32766)
  {
    NinePoint.MappedInHalf(f, x, y);
    if y < NinePoint.Mid(f, NinePoint.ColumnOf(f, x), x) {
      FloorWithin(m.value, 0, 16383);
    } else if y > NinePoint.Mid(f, NinePoint.ColumnOf(f, x), x) {
      FloorWithin(m.value, 16383, 32766);
    }
  }

  lemma FloorWithin(v: real, lo: int, hi: int)
    requires lo as real <= v <= hi as real
    ensures lo <= v.Floor <= hi
  {
  }

  // With five points a moved touch is in the halves of the output on its side of the centre.
  lemma TouchPlacedFive(p: seq<Point>, activeLarge: bool, t: Touch, t': Touch)
    requires |p| == 9 && FivePoint.Layout(p)
    requires Present(t) && !Oversized(t, activeLarge)
    requires Rewritten(Calibrate(p, false, t.x, t.y), activeLarge, t, t')
    ensures FivePoint.Divisible(FivePoint.FrameOf(p))
    ensures FivePoint.Reached(FivePoint.FrameOf(p), t.x as real, t.y as real) ==>
              && (t.x < p[4].x ==> 0 <= t'.x <= 16383) && (t.x > p[4].x ==> 16383 <= t'.x <= 32766)
              && (t.y < p[4].y ==> 0 <= t'.y <= 16383) && (t.y > p[4].y ==> 16383 <= t'.y <= 32766)
  {
    FivePoint.LayoutGivesFrame(p);
    var f := FivePoint.FrameOf(p);
    FivePoint.MappedIff(f, t.x as real, t.y as real);
    if FivePoint.Reached(f, t.x as real, t.y as real) {
      FivePoint.MapRange(f, t.x as real, t.y as real);
    }
  }

  // So whatever lies between the outer lines is calibrated, and never reported absent.
  lemma RegionTouchMoves(p: seq<Point>, nine: bool, activeLarge: bool, t: Touch, t': Touch)
    requires |p| == 9 && if nine then NinePoint.Layout(p) else FivePoint.Layout(p)
    requires Present(t) && !Oversized(t, activeLarge)
    requires Rewritten(Calibrate(p, nine, t.x, t.y), activeLarge, t, t')
    requires Region(p, nine, t.x as real, t.y as real)
    ensures Calibrate(p, nine, t.x, t.y).At? && Moved(t, t')
  {
    if nine {
      NinePoint.LayoutGivesFrame(p);
      NinePoint.RegionMapped(NinePoint.FrameOf(p), t.x as real, t.y as real);
    } else {
      FivePoint.LayoutGivesFrame(p);
      FivePoint.MappedIff(FivePoint.FrameOf(p), t.x as real, t.y as real);
    }
  }

  // Between the left and the right line and between the top and the bottom line.
  predicate Region(p: seq<Point>, nine: bool, x: real, y: real)
    requires |p| == 9 && if nine then NinePoint.Layout(p) else FivePoint.Layout(p)
  {
    if nine then
      NinePoint.LayoutGivesFrame(p);
      var f := NinePoint.FrameOf(p);
      Fx(f.left, y) <= x <= Fx(f.right, y) && Fy(f.top, x) <= y <= Fy(f.bottom, x)
    else
      FivePoint.LayoutGivesFrame(p);
      var f := FivePoint.FrameOf(p);
      Fx(f.left, y) <= x <= Fx(f.right, y) && Fy(f.top, x) <= y <= Fy(f.bottom, x)
  }
}
