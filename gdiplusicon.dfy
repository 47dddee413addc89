/**
  The GDI+ drawing engine of the demo (gdiplusdemo/GdiPlusIcon.cpp): how it
  keeps the pen position, the open figure and the path counter while the
  interpreter calls it, how it turns quadratic Béziers into cubic ones, which
  paths it fills, the cache of off-screen buffers keyed by size, and the
  bottom-up row copy from the GDI+ bitmap into the GDI bitmap.

  GDI+ itself is represented by what the engine hands to it: the calls made
  on the `GraphicsPath` and the `FillPath` calls, with the brush colour and
  the path at that moment.
 */
module GdiPlusIcon {
  import opened Base
  import opened Coord
  import IconPack

  // ---------------------------------------------------------------------------
  // Values the engine works with

  /** `vectoricon::Point` / `Gdiplus::PointF`, with float coordinates taken as reals. */
  datatype PointF = PointF(x: real, y: real)

  /** The calls the engine makes on its `GraphicsPath`. */
  datatype PathCall = StartFigure | CloseFigure | AddLines(pts: seq<PointF>) | AddBeziers(pts: seq<PointF>)

  /** A `Gdiplus::Color`: alpha first. */
  datatype Argb = Argb(a: Byte, r: Byte, g: Byte, b: Byte)

  /** A `Gdiplus::Matrix(m11, m12, m21, m22, dx, dy)`: x' = m11 x + m21 y + dx, y' = m12 x + m22 y + dy. */
  datatype Matrix = Matrix(m11: real, m12: real, m21: real, m22: real, dx: real, dy: real)

  /** The world transform of the target; a zero-width or zero-height view box divides by zero in float. */
  datatype Transform = Affine(m: Matrix) | Degenerate

  const Identity := Matrix(1.0, 0.0, 0.0, 1.0, 0.0, 0.0)

  function MapPoint(m: Matrix, p: PointF): PointF
  {
    PointF(m.m11 * p.x + m.m21 * p.y + m.dx, m.m12 * p.x + m.m22 * p.y + m.dy)
  }

  /** A `FillPath` call: the brush colour, the path as it stood and the transform it is drawn under. */
  datatype FillCall = FillCall(brush: Argb, path: seq<PathCall>, transform: Transform)

  /** The virtual `Colorize` hook: the colour the brush gets for the colour the program asked for. */
  type Colorizer = (Byte, Byte, Byte) -> (Byte, Byte, Byte)

  /** `GdiPlusIconEngine::Colorize`, which the base engine leaves empty. */
  function NoColorize(r: Byte, g: Byte, b: Byte): (Byte, Byte, Byte)
  {
    (r, g, b)
  }

  /** The drawing box: origin and size, which `DrawIcon` and `DrawIconDirect` set. */
  datatype Box = Box(ox: int, oy: int, dx: int, dy: int)

  /** The engine fields the drawing calls read and write. */
  datatype State = State(
    box: Box,
    transform: Transform,
    cursor: PointF,
    hasPath: bool,
    currentPathIdx: int,
    debugPathIdx: nat,
    path: seq<PathCall>,
    ptbuf: seq<PointF>,
    brush: Argb,
    fills: seq<FillCall>)

  // ---------------------------------------------------------------------------
  // The drawing calls as functions of the engine state

  /** `convertPoints`: the buffer is the pen position followed by the points, and the pen moves to the last point. */
  function Converted(s: State, pts: seq<PointF>): (t: State)
    requires |pts| > 0
    ensures |t.ptbuf| == 1 + |pts| && t.ptbuf[0] == s.cursor && t.ptbuf[1..] == pts
    ensures t.cursor == pts[|pts| - 1]
    ensures t == s.(ptbuf := t.ptbuf, cursor := t.cursor)
  {
    s.(ptbuf := [s.cursor] + pts, cursor := pts[|pts| - 1])
  }

  /** `MoveTo`: closes the open figure if a segment was drawn, starts a new one and moves the pen. */
  function MovedTo(s: State, p: PointF): State
  {
    s.(path := s.path + (if s.hasPath then [CloseFigure] else []) + [StartFigure], cursor := p)
  }

  /** `LineTo`. */
  function LinedTo(s: State, pts: seq<PointF>): State
    requires |pts| > 0
  {
    var c := Converted(s, pts);
    c.(path := c.path + [AddLines(c.ptbuf)], hasPath := true)
  }

  /** `CubicBezierTo`. */
  function CubicTo(s: State, pts: seq<PointF>): State
    requires |pts| > 0
  {
    var c := Converted(s, pts);
    c.(path := c.path + [AddBeziers(c.ptbuf)], hasPath := true)
  }

  /** The point two thirds of the way from `p` to `q`. */
  function TwoThirds(p: PointF, q: PointF): PointF
  {
    PointF(p.x + (2.0 / 3.0) * (q.x - p.x), p.y + (2.0 / 3.0) * (q.y - p.y))
  }

  /** The cubic segment for the quadratic one from `q0` over the control point `q1` to `q2`. */
  function CubicOfQuad(q0: PointF, q1: PointF, q2: PointF): seq<PointF>
  {
    [TwoThirds(q0, q1), TwoThirds(q2, q1), q2]
  }

  /** Where a run of quadratic segments from `q0` ends. */
  function QuadEnd(q0: PointF, pts: seq<PointF>): PointF
  {
    if |pts| == 0 then q0 else pts[|pts| - 1]
  }

  /** The cubic control points `QuadraticBezierTo` pushes for the quadratic segments `pts` (pairs of control and end point) from `q0`. */
  function QuadCubics(q0: PointF, pts: seq<PointF>): (r: seq<PointF>)
    requires |pts| % 2 == 0
    ensures |r| == 3 * (|pts| / 2)
    decreases |pts|
  {
    if |pts| == 0 then []
    else
      var init := pts[..|pts| - 2];
      QuadCubics(q0, init) + CubicOfQuad(QuadEnd(q0, init), pts[|pts| - 2], pts[|pts| - 1])
  }

  /** `QuadraticBezierTo`. */
  function QuadTo(s: State, pts: seq<PointF>): State
    requires |pts| % 2 == 0
  {
    var buf := [s.cursor] + QuadCubics(s.cursor, pts);
    s.(ptbuf := buf, cursor := QuadEnd(s.cursor, pts), path := s.path + [AddBeziers(buf)], hasPath := true)
  }

  /** Whether `ClosePath` fills the path it closes. */
  predicate FillsNow(s: State)
  {
    s.hasPath && (s.debugPathIdx == 0 || s.currentPathIdx == s.debugPathIdx)
  }

  /** `ClosePath`: closes the figure; a path that holds a segment is filled (unless another one is singled out) and counted; the path is then emptied. */
  function Closed(s: State): State
  {
    var p := s.path + [CloseFigure];
    s.(fills := s.fills + (if FillsNow(s) then [FillCall(s.brush, p, s.transform)] else []),
       currentPathIdx := if s.hasPath then s.currentPathIdx + 1 else s.currentPathIdx,
       path := [], hasPath := false)
  }

  /** `SetSolidFill`: the brush takes the colorized colour and the given alpha. */
  function Filled(s: State, colorize: Colorizer, r: Byte, g: Byte, b: Byte, a: Byte): State
  {
    var c := colorize(r, g, b);
    s.(brush := Argb(a, c.0, c.1, c.2))
  }

  /**
    `ViewBox` as written: scale the view box to the box, then translate by
    `m_ox - xmin`, `m_oy - ymin` (unscaled).
   */
  function ViewBoxAsWritten(b: Box, xmin: real, ymin: real, xmax: real, ymax: real): (t: Transform)
    ensures t.Degenerate? <==> xmax == xmin || ymax == ymin
  {
    var vx := xmax - xmin;
    var vy := ymax - ymin;
    if vx == 0.0 || vy == 0.0 then Degenerate
    else
      var xs := b.dx as real / vx;
      var ys := b.dy as real / vy;
      Affine(Matrix(xs, 0.0, 0.0, ys, b.ox as real - xmin, b.oy as real - ymin))
  }

  /**
    With an 8..16 view box on a 32-pixel box at the origin, the view box
    corner (8, 8) lands at (24, 24) instead of the box corner.
   */
  lemma ViewBoxCornerMisplaced()
    ensures var t := ViewBoxAsWritten(Box(0, 0, 32, 32), 8.0, 8.0, 16.0, 16.0);
      t.Affine? && MapPoint(t.m, PointF(8.0, 8.0)) == PointF(24.0, 24.0)
  {
  }

  /** `ViewBox` as intended: the view box corner goes to the box origin, the translation scaled with it. */
  function ViewBoxed(b: Box, xmin: real, ymin: real, xmax: real, ymax: real): (t: Transform)
    ensures t.Degenerate? <==> xmax == xmin || ymax == ymin
  {
    var vx := xmax - xmin;
    var vy := ymax - ymin;
    if vx == 0.0 || vy == 0.0 then Degenerate
    else
      var xs := b.dx as real / vx;
      var ys := b.dy as real / vy;
      Affine(Matrix(xs, 0.0, 0.0, ys, b.ox as real - xmin * xs, b.oy as real - ymin * ys))
  }

  /** One axis of the intended view box: the minimum goes to the origin and the maximum to the far edge. */
  lemma AxisFits(o: real, lo: real, hi: real, d: real, sc: real)
    requires hi != lo && sc == d / (hi - lo)
    ensures sc * lo + (o - lo * sc) == o && sc * hi + (o - lo * sc) == o + d
  {
    assert sc * (hi - lo) == d;
  }

  /** The intended view box maps its corners onto the box's corners. */
  lemma ViewBoxCorners(b: Box, xmin: real, ymin: real, xmax: real, ymax: real)
    requires xmax != xmin && ymax != ymin
    ensures var t := ViewBoxed(b, xmin, ymin, xmax, ymax);
      t.Affine?
      && MapPoint(t.m, PointF(xmin, ymin)) == PointF(b.ox as real, b.oy as real)
      && MapPoint(t.m, PointF(xmax, ymax)) == PointF((b.ox + b.dx) as real, (b.oy + b.dy) as real)
  {
    var xs := b.dx as real / (xmax - xmin);
    var ys := b.dy as real / (ymax - ymin);
    AxisFits(b.ox as real, xmin, xmax, b.dx as real, xs);
    AxisFits(b.oy as real, ymin, ymax, b.dy as real, ys);
  }

  /** Two matrices with the same linear part are equal exactly when their translations are. */
  lemma SameLinearPart(a: Matrix, b: Matrix)
    requires a.m11 == b.m11 && a.m12 == b.m12 && a.m21 == b.m21 && a.m22 == b.m22
    ensures a == b <==> a.dx == b.dx && a.dy == b.dy
  {
  }

  /** One coordinate: the unscaled and the scaled translation agree exactly when the minimum is 0 or the scale is 1. */
  lemma OffsetAgreement(o: real, lo: real, hi: real, d: real, sc: real)
    requires hi != lo && sc == d / (hi - lo)
    ensures (o - lo == o - lo * sc) <==> (lo == 0.0 || d == hi - lo)
  {
    assert sc * (hi - lo) == d;
    assert lo * sc == lo <==> lo * (sc - 1.0) == 0.0;
  }

  /** Both matrices over reals: they agree exactly when, on each axis, the minimum is 0 or the scale is 1. */
  lemma MatricesAgree(ox: real, oy: real, dx: real, dy: real, xmin: real, ymin: real, xmax: real, ymax: real)
    requires xmax != xmin && ymax != ymin
    ensures var xs := dx / (xmax - xmin);
      var ys := dy / (ymax - ymin);
      Matrix(xs, 0.0, 0.0, ys, ox - xmin, oy - ymin) == Matrix(xs, 0.0, 0.0, ys, ox - xmin * xs, oy - ymin * ys)
      <==> (xmin == 0.0 || dx == xmax - xmin) && (ymin == 0.0 || dy == ymax - ymin)
  {
    var xs := dx / (xmax - xmin);
    var ys := dy / (ymax - ymin);
    SameLinearPart(Matrix(xs, 0.0, 0.0, ys, ox - xmin, oy - ymin), Matrix(xs, 0.0, 0.0, ys, ox - xmin * xs, oy - ymin * ys));
    OffsetAgreement(ox, xmin, xmax, dx, xs);
    OffsetAgreement(oy, ymin, ymax, dy, ys);
  }

  /** The two agree exactly when, on each axis, the view box starts at 0 or its scale is 1. */
  lemma ViewBoxAgreement(b: Box, xmin: real, ymin: real, xmax: real, ymax: real)
    requires xmax != xmin && ymax != ymin
    ensures ViewBoxAsWritten(b, xmin, ymin, xmax, ymax) == ViewBoxed(b, xmin, ymin, xmax, ymax)
      <==> (xmin == 0.0 || b.dx as real == xmax - xmin) && (ymin == 0.0 || b.dy as real == ymax - ymin)
  {
    MatricesAgree(b.ox as real, b.oy as real, b.dx as real, b.dy as real, xmin, ymin, xmax, ymax);
  }

  /**
    As written, every point lands where the intended transform puts it,
    shifted by `xmin (xscale - 1)` across and `ymin (yscale - 1)` down: the
    whole drawing is displaced, not distorted.
   */
  lemma ViewBoxAsWrittenShift(b: Box, xmin: real, ymin: real, xmax: real, ymax: real, p: PointF)
    requires xmax != xmin && ymax != ymin
    ensures var xs := b.dx as real / (xmax - xmin);
      var ys := b.dy as real / (ymax - ymin);
      var w := ViewBoxAsWritten(b, xmin, ymin, xmax, ymax);
      var t := ViewBoxed(b, xmin, ymin, xmax, ymax);
      w.Affine? && t.Affine?
      && MapPoint(w.m, p) == PointF(MapPoint(t.m, p).x + xmin * (xs - 1.0), MapPoint(t.m, p).y + ymin * (ys - 1.0))
  {
    var xs := b.dx as real / (xmax - xmin);
    var ys := b.dy as real / (ymax - ymin);
    assert xmin * (xs - 1.0) == xmin * xs - xmin;
    assert ymin * (ys - 1.0) == ymin * ys - ymin;
  }

  // ---------------------------------------------------------------------------
  // Quadratic to cubic

  /** A quadratic Bézier at `t`, one coordinate. */
  function Quad1(a: real, b: real, c: real, t: real): real
  {
    (1.0 - t) * (1.0 - t) * a + 2.0 * (1.0 - t) * t * b + t * t * c
  }

  /** A cubic Bézier at `t`, one coordinate. */
  function Cubic1(a: real, b: real, c: real, d: real, t: real): real
  {
    (1.0 - t) * (1.0 - t) * (1.0 - t) * a + 3.0 * (1.0 - t) * (1.0 - t) * t * b
    + 3.0 * (1.0 - t) * t * t * c + t * t * t * d
  }

  /** Degree elevation, one coordinate: the cubic with control points a + 2/3(b - a) and c + 2/3(b - c) traces the quadratic. */
  lemma Elevate1(a: real, b: real, c: real, t: real)
    ensures Cubic1(a, a + (2.0 / 3.0) * (b - a), c + (2.0 / 3.0) * (b - c), c, t) == Quad1(a, b, c, t)
  {
    var u := 1.0 - t;
    assert Cubic1(a, a + (2.0 / 3.0) * (b - a), c + (2.0 / 3.0) * (b - c), c, t)
      == u * u * u * a + u * u * t * (a + 2.0 * b) + u * t * t * (c + 2.0 * b) + t * t * t * c;
    assert u * u * u * a + u * u * t * a == u * u * a * (u + t);
    assert t * t * t * c + u * t * t * c == t * t * c * (u + t);
    assert u + t == 1.0;
  }

  /** The cubic segment `QuadraticBezierTo` pushes traces exactly the quadratic segment it replaces. */
  lemma CubicOfQuadTraces(q0: PointF, q1: PointF, q2: PointF, t: real)
    ensures var c := CubicOfQuad(q0, q1, q2);
      Cubic1(q0.x, c[0].x, c[1].x, c[2].x, t) == Quad1(q0.x, q1.x, q2.x, t)
      && Cubic1(q0.y, c[0].y, c[1].y, c[2].y, t) == Quad1(q0.y, q1.y, q2.y, t)
  {
    Elevate1(q0.x, q1.x, q2.x, t);
    Elevate1(q0.y, q1.y, q2.y, t);
  }

  /** One more quadratic segment adds its cubic segment, starting where the others end. */
  lemma QuadCubicsSnoc(q0: PointF, init: seq<PointF>, q1: PointF, q2: PointF)
    requires |init| % 2 == 0
    ensures QuadCubics(q0, init + [q1, q2]) == QuadCubics(q0, init) + CubicOfQuad(QuadEnd(q0, init), q1, q2)
    ensures QuadEnd(q0, init + [q1, q2]) == q2
  {
    var pts := init + [q1, q2];
    assert pts[..|pts| - 2] == init;
  }

  /** The buffer ends at the end point of the last segment. */
  lemma {:induction false} QuadCubicsLast(q0: PointF, pts: seq<PointF>)
    requires |pts| % 2 == 0
    ensures ([q0] + QuadCubics(q0, pts))[3 * (|pts| / 2)] == QuadEnd(q0, pts)
  {
    if |pts| > 0 {
      var n := |pts|;
      QuadCubicsSnoc(q0, pts[..n - 2], pts[n - 2], pts[n - 1]);
      assert pts[..n - 2] + [pts[n - 2], pts[n - 1]] == pts;
    }
  }

  /**
    Segment `i` of the buffer: its three points start at 3i + 1 (after the
    pen position), start from the end of the previous segment and are the
    cubic for quadratic segment `i`.
   */
  lemma {:induction false} QuadCubicsSegment(q0: PointF, pts: seq<PointF>, i: nat)
    requires |pts| % 2 == 0 && i < |pts| / 2
    ensures var buf := [q0] + QuadCubics(q0, pts);
      buf[3 * i] == QuadEnd(q0, pts[..2 * i])
      && buf[3 * i + 1 .. 3 * i + 4] == CubicOfQuad(QuadEnd(q0, pts[..2 * i]), pts[2 * i], pts[2 * i + 1])
    decreases |pts|
  {
    var n := |pts|;
    var init := pts[..n - 2];
    QuadCubicsSnoc(q0, init, pts[n - 2], pts[n - 1]);
    assert init + [pts[n - 2], pts[n - 1]] == pts;
    var buf0 := [q0] + QuadCubics(q0, init);
    assert [q0] + QuadCubics(q0, pts) == buf0 + CubicOfQuad(QuadEnd(q0, init), pts[n - 2], pts[n - 1]);
    if i < n / 2 - 1 {
      QuadCubicsSegment(q0, init, i);
      assert init[..2 * i] == pts[..2 * i];
    } else {
      assert pts[..2 * i] == init;
      QuadCubicsLast(q0, init);
    }
  }

  /**
    The conversion loop of `QuadraticBezierTo`: from the pen position `c0`,
    each pair of control and end point adds its cubic segment and moves on
    to the end point.
   */
  method QuadBuffer(c0: PointF, pts: seq<PointF>) returns (buf: seq<PointF>, q0: PointF)
    requires |pts| % 2 == 0
    ensures buf == [c0] + QuadCubics(c0, pts) && q0 == QuadEnd(c0, pts)
  {
    q0 := c0;
    buf := [q0];
    var i := 0;
    while i < |pts|
      invariant i <= |pts| && i % 2 == 0
      invariant buf == [c0] + QuadCubics(c0, pts[..i])
      invariant q0 == QuadEnd(c0, pts[..i])
    {
      var q1 := pts[i];
      var q2 := pts[i + 1];
      buf := buf + [TwoThirds(q0, q1), TwoThirds(q2, q1), q2];
      QuadCubicsSnoc(c0, pts[..i], q1, q2);
      assert pts[..i] + [q1, q2] == pts[..i + 2];
      q0 := q2;
      i := i + 2;
    }
    assert pts[..i] == pts;
  }

  /** The buffer holds one more point than three per segment, and the pen ends at the last end point. */
  lemma QuadToShape(s: State, pts: seq<PointF>)
    requires |pts| % 2 == 0
    ensures |QuadTo(s, pts).ptbuf| == 1 + 3 * (|pts| / 2)
    ensures QuadTo(s, pts).ptbuf[0] == s.cursor
    ensures |pts| > 0 ==> QuadTo(s, pts).cursor == pts[|pts| - 1]
    ensures |pts| == 0 ==> QuadTo(s, pts).cursor == s.cursor
    ensures QuadTo(s, pts).hasPath
  {
  }

  // ---------------------------------------------------------------------------
  // Path bookkeeping

  /** `MoveTo` leaves `hasPath`, the counter and the fills alone, and closes a figure exactly when a segment was drawn. */
  lemma MoveKeepsPathFlag(s: State, p: PointF)
    ensures MovedTo(s, p).hasPath == s.hasPath
    ensures MovedTo(s, p).currentPathIdx == s.currentPathIdx && MovedTo(s, p).fills == s.fills
    ensures MovedTo(s, p).cursor == p
    ensures |MovedTo(s, p).path| == |s.path| + (if s.hasPath then 2 else 1)
  {
  }

  /** `ClosePath` always empties the path; it counts and possibly fills only a path that holds a segment. */
  lemma CloseResets(s: State)
    ensures Closed(s).path == [] && !Closed(s).hasPath
    ensures Closed(s).currentPathIdx == s.currentPathIdx + (if s.hasPath then 1 else 0)
    ensures |Closed(s).fills| == |s.fills| + (if FillsNow(s) then 1 else 0)
    ensures !s.hasPath ==> Closed(s).fills == s.fills
  {
  }

  // ---------------------------------------------------------------------------
  // Replaying the interpreter's calls

  /** `vectoricon::Point` from a decoded point; `f32` gives the value of a binary32 bit pattern. */
  function ToPointF(p: IconPack.Point, f32: U32 -> real): PointF
  {
    PointF(CoordReal(p.x, f32), CoordReal(p.y, f32))
  }

  function CoordReal(c: CoordValue, f32: U32 -> real): real
  {
    match c
    case Fixed(k) => k as real / 64.0
    case Binary32(bits) => f32(bits)
  }

  function ToPointsF(pts: seq<IconPack.Point>, f32: U32 -> real): (r: seq<PointF>)
    ensures |r| == |pts|
  {
    seq(|pts|, i requires 0 <= i < |pts| => ToPointF(pts[i], f32))
  }

  /** The calls the engine can take: a line or cubic call brings points (it reads the last one), a quadratic call brings pairs. */
  predicate Callable(e: IconPack.Event)
  {
    match e
    case LineTo(pts) => |pts| > 0
    case CubicBezierTo(pts) => |pts| > 0
    case QuadraticBezierTo(pts) => |pts| % 2 == 0
    case _ => true
  }

  predicate AllCallable(evs: seq<IconPack.Event>)
  {
    forall i :: 0 <= i < |evs| ==> Callable(evs[i])
  }

  /** One engine call. */
  function Apply(s: State, e: IconPack.Event, f32: U32 -> real, colorize: Colorizer): (t: State)
    requires Callable(e)
    ensures t.box == s.box && t.debugPathIdx == s.debugPathIdx
  {
    match e
    case ViewBox(x0, y0, x1, y1) => s.(transform := ViewBoxAsWritten(s.box, CoordReal(x0, f32), CoordReal(y0, f32), CoordReal(x1, f32), CoordReal(y1, f32)))
    case SetSolidFill(r, g, b, a) => Filled(s, colorize, r, g, b, a)
    case MoveTo(p) => MovedTo(s, ToPointF(p, f32))
    case LineTo(pts) => LinedTo(s, ToPointsF(pts, f32))
    case CubicBezierTo(pts) => CubicTo(s, ToPointsF(pts, f32))
    case QuadraticBezierTo(pts) => QuadTo(s, ToPointsF(pts, f32))
    case ClosePath => Closed(s)
    case Error(_) => s
  }

  function ApplyAll(s: State, evs: seq<IconPack.Event>, f32: U32 -> real, colorize: Colorizer): (t: State)
    requires AllCallable(evs)
    ensures t.box == s.box && t.debugPathIdx == s.debugPathIdx
    decreases |evs|
  {
    if |evs| == 0 then s
    else
      var n := |evs| - 1;
      assert AllCallable(evs[..n]) && Callable(evs[n]);
      Apply(ApplyAll(s, evs[..n], f32, colorize), evs[n], f32, colorize)
  }

  /** The interpreter only makes calls the engine can take: its segment calls carry 17 to 32 line points, a multiple of three cubic points or an even number of quadratic points. */
  lemma StepCallable(data: seq<Byte>, p: nat, hasPath: bool)
    requires p < |data|
    ensures AllCallable(IconPack.Step(data, p, hasPath).evs)
  {
  }

  lemma {:induction false} RunCallable(data: seq<Byte>, p: nat, hasPath: bool)
    requires p <= |data|
    ensures AllCallable(IconPack.Run(data, p, hasPath).events)
    decreases |data| - p
  {
    if p < |data| {
      StepCallable(data, p, hasPath);
      var s := IconPack.Step(data, p, hasPath);
      if s.Continue? {
        RunCallable(data, s.next, s.hasPath);
      }
    }
  }

  lemma DrawIconAtCallable(data: seq<Byte>, ofs: nat)
    ensures AllCallable(IconPack.DrawIconAt(data, ofs).events)
  {
    if ofs <= |data| {
      var t := IconPack.DrawIconAt(data, ofs);
      var (_, q1) := IconPack.CoordAt(data, ofs);
      var (_, q2) := IconPack.CoordAt(data, q1);
      var (_, q3) := IconPack.CoordAt(data, q2);
      var (_, q4) := IconPack.CoordAt(data, q3);
      if q4 < |data| {
        RunCallable(data, q4, false);
      }
    }
  }

  /**
    While no path is singled out, every counted path is filled: the fills
    grow by exactly as much as the counter.
   */
  lemma {:induction false} AllPathsFilled(s: State, evs: seq<IconPack.Event>, f32: U32 -> real, colorize: Colorizer)
    requires AllCallable(evs) && s.debugPathIdx == 0
    ensures var t := ApplyAll(s, evs, f32, colorize);
      t.debugPathIdx == 0 && |t.fills| - |s.fills| == t.currentPathIdx - s.currentPathIdx
    decreases |evs|
  {
    if |evs| > 0 {
      AllPathsFilled(s, evs[..|evs| - 1], f32, colorize);
    }
  }

  /**
    With path `n` > 0 singled out and the counter not yet past it, at most
    one path is filled: exactly one once the counter has passed `n`.
   */
  lemma {:induction false} OnePathFilled(s: State, evs: seq<IconPack.Event>, f32: U32 -> real, colorize: Colorizer)
    requires AllCallable(evs) && s.debugPathIdx > 0 && s.currentPathIdx <= s.debugPathIdx
    ensures var t := ApplyAll(s, evs, f32, colorize);
      t.debugPathIdx == s.debugPathIdx && t.currentPathIdx >= s.currentPathIdx
      && |t.fills| == |s.fills| + (if t.currentPathIdx > s.debugPathIdx then 1 else 0)
    decreases |evs|
  {
    if |evs| > 0 {
      OnePathFilled(s, evs[..|evs| - 1], f32, colorize);
    }
  }

  // ---------------------------------------------------------------------------
  // The engine

  /** `GdiPlusIconEngine`, with the fields the drawing calls use. */
  class Engine {
    var cursor: PointF
    var hasPath: bool
    var currentPathIdx: int
    var debugPathIdx: nat
    var path: seq<PathCall>
    var ptbuf: seq<PointF>
    var brush: Argb
    var fills: seq<FillCall>
    var box: Box
    var transform: Transform

    function Snapshot(): State
      reads this
    {
      State(box, transform, cursor, hasPath, currentPathIdx, debugPathIdx, path, ptbuf, brush, fills)
    }

    /** The constructor: a transparent brush, an empty path, the pen at the origin. */
    constructor ()
      ensures Snapshot() == State(Box(0, 0, 0, 0), Affine(Identity), PointF(0.0, 0.0), false, 0, 0, [], [], Argb(0, 0, 0, 0), [])
    {
      cursor, hasPath, currentPathIdx, debugPathIdx := PointF(0.0, 0.0), false, 0, 0;
      path, ptbuf, brush, fills := [], [], Argb(0, 0, 0, 0), [];
      box, transform := Box(0, 0, 0, 0), Affine(Identity);
    }

    /**
      `ViewBox` as the source writes it: the view box is scaled to the box and
      translated by the unscaled `m_ox - xmin`, `m_oy - ymin`
      (`ViewBoxAsWritten`; `ViewBoxAgreement` says when that is the intended
      `ViewBoxed`, and `ViewBoxAsWrittenShift` how far it is off otherwise).
     */
    method ViewBox(xmin: real, ymin: real, xmax: real, ymax: real)
      modifies this
      ensures Snapshot() == old(Snapshot()).(transform := ViewBoxAsWritten(box, xmin, ymin, xmax, ymax))
    {
      transform := ViewBoxAsWritten(box, xmin, ymin, xmax, ymax);
    }

    /** `DebugSinglePath`. */
    method DebugSinglePath(n: nat)
      modifies this
      ensures Snapshot() == old(Snapshot()).(debugPathIdx := n)
    {
      debugPathIdx := n;
    }

    method ConvertPoints(pts: seq<PointF>)
      requires |pts| > 0
      modifies this
      ensures Snapshot() == Converted(old(Snapshot()), pts)
    {
      var c0 := cursor;
      var buf := [c0];
      var i := 0;
      while i < |pts|
        invariant i <= |pts|
        invariant buf == [c0] + pts[..i]
      {
        buf := buf + [pts[i]];
        assert pts[..i + 1] == pts[..i] + [pts[i]];
        i := i + 1;
      }
      assert pts[..i] == pts;
      ptbuf := buf;
      cursor := pts[|pts| - 1];
    }

    method MoveTo(p: PointF)
      modifies this
      ensures Snapshot() == MovedTo(old(Snapshot()), p)
    {
      if hasPath {
        path := path + [CloseFigure];
      }
      path := path + [StartFigure];
      cursor := p;
    }

    method LineTo(pts: seq<PointF>)
      requires |pts| > 0
      modifies this
      ensures Snapshot() == LinedTo(old(Snapshot()), pts)
    {
      ConvertPoints(pts);
      path := path + [AddLines(ptbuf)];
      hasPath := true;
    }

    method CubicBezierTo(pts: seq<PointF>)
      requires |pts| > 0
      modifies this
      ensures Snapshot() == CubicTo(old(Snapshot()), pts)
    {
      ConvertPoints(pts);
      path := path + [AddBeziers(ptbuf)];
      hasPath := true;
    }

    method QuadraticBezierTo(pts: seq<PointF>)
      requires |pts| % 2 == 0
      modifies this
      ensures Snapshot() == QuadTo(old(Snapshot()), pts)
    {
      var buf, q0 := QuadBuffer(cursor, pts);
      ptbuf := buf;
      cursor := q0;
      path := path + [AddBeziers(ptbuf)];
      hasPath := true;
    }

    method ClosePath()
      modifies this
      ensures Snapshot() == Closed(old(Snapshot()))
    {
      var p := path + [CloseFigure];
      path := p;
      if hasPath {
        if debugPathIdx == 0 || currentPathIdx == debugPathIdx {
          fills := fills + [FillCall(brush, p, transform)];
        }
        currentPathIdx := currentPathIdx + 1;
      }
      path := [];
      hasPath := false;
    }

    method SetSolidFill(colorize: Colorizer, r: Byte, g: Byte, b: Byte, a: Byte)
      modifies this
      ensures Snapshot() == Filled(old(Snapshot()), colorize, r, g, b, a)
    {
      var c := colorize(r, g, b);
      brush := Argb(a, c.0, c.1, c.2);
    }

    /** One call of the interpreter, dispatched to the engine method. */
    method Call(e: IconPack.Event, f32: U32 -> real, colorize: Colorizer)
      requires Callable(e)
      modifies this
      ensures Snapshot() == Apply(old(Snapshot()), e, f32, colorize)
    {
      match e
      case ViewBox(x0, y0, x1, y1) => ViewBox(CoordReal(x0, f32), CoordReal(y0, f32), CoordReal(x1, f32), CoordReal(y1, f32));
      case SetSolidFill(r, g, b, a) => SetSolidFill(colorize, r, g, b, a);
      case MoveTo(p) => MoveTo(ToPointF(p, f32));
      case LineTo(pts) => LineTo(ToPointsF(pts, f32));
      case CubicBezierTo(pts) => CubicBezierTo(ToPointsF(pts, f32));
      case QuadraticBezierTo(pts) => QuadraticBezierTo(ToPointsF(pts, f32));
      case ClosePath => ClosePath();
      case Error(_) =>
    }

    /** The engine taking the calls `evs` in order. */
    method Replay(evs: seq<IconPack.Event>, f32: U32 -> real, colorize: Colorizer)
      requires AllCallable(evs)
      modifies this
      ensures box == old(box)
      ensures Snapshot() == ApplyAll(old(Snapshot()), evs, f32, colorize)
    {
      var i := 0;
      while i < |evs|
        invariant i <= |evs|
        invariant Snapshot() == ApplyAll(old(Snapshot()), evs[..i], f32, colorize)
      {
        assert evs[..i + 1][..i] == evs[..i];
        Call(evs[i], f32, colorize);
        i := i + 1;
      }
      assert evs[..i] == evs;
    }

    /**
      `DrawIconImpl`: the path counter starts again at 1, then the icon is
      drawn for the engine's box, its calls replayed on the engine.
     */
    method DrawIconImpl(icon: IconPack.IconData, f32: U32 -> real, colorize: Colorizer)
      modifies this
      ensures box == old(box)
      ensures Snapshot() == ApplyAll(old(Snapshot()).(currentPathIdx := 1), IconCalls(icon, old(box)), f32, colorize)
    {
      currentPathIdx := 1;
      var ok, evs := IconPack.DrawIcon(icon, ToU16(box.dx), ToU16(box.dy));
      assert evs == IconCalls(icon, box);
      Replay(evs, f32, colorize);
    }

    /** `DrawIconDirect`: the box is the rectangle itself, drawn straight on the target. */
    method DrawIconDirect(left: int, top: int, right: int, bottom: int, icon: IconPack.IconData, f32: U32 -> real, colorize: Colorizer)
      modifies this
      ensures box == Box(left, top, right - left, bottom - top)
      ensures Snapshot() == ApplyAll(old(Snapshot()).(box := box, transform := Affine(Identity), currentPathIdx := 1), IconCalls(icon, box), f32, colorize)
    {
      box, transform := Box(left, top, right - left, bottom - top), Affine(Identity);
      DrawIconImpl(icon, f32, colorize);
    }

    /**
      `DrawIcon`: the icon is drawn at the origin of an off-screen buffer of
      the rectangle's size, taken from the cache (made on first use), and
      then copied and blended onto the target.
     */
    method DrawIcon(cache: DibCache, left: int, top: int, right: int, bottom: int, icon: IconPack.IconData, f32: U32 -> real, colorize: Colorizer)
      returns (buf: Dib)
      modifies this, cache
      ensures box == Box(0, 0, right - left, bottom - top)
      ensures var k := Key(box.dx, box.dy);
        cache.dibs == (if k in old(cache.dibs) then old(cache.dibs) else old(cache.dibs)[k := Dib(box.dx, box.dy)])
        && buf == cache.dibs[k]
      ensures Snapshot() == ApplyAll(old(Snapshot()).(box := box, transform := Affine(Identity), currentPathIdx := 1), IconCalls(icon, box), f32, colorize)
    {
      box, transform := Box(0, 0, right - left, bottom - top), Affine(Identity);
      buf := cache.Lookup(box.dx, box.dy);
      DrawIconImpl(icon, f32, colorize);
    }
  }

  /**
    The calls `Icon::Draw` makes for a box. `Icon::Draw` is not part of this
    model; it is taken to be `IconPack.DrawIcon` for the box size truncated
    to 16 bits.
   */
  function IconCalls(icon: IconPack.IconData, box: Box): (evs: seq<IconPack.Event>)
    ensures AllCallable(evs)
  {
    if |icon.images| == 0 then []
    else
      var m := icon.images[IconPack.FirstFitFrom(icon.images, ToU16(box.dx), ToU16(box.dy), 0)];
      DrawIconAtCallable(icon.data, m.offset);
      IconPack.DrawIconAt(icon.data, m.offset).events
  }

  /**
    Drawing one icon with path `n` > 0 singled out fills at most one path,
    and it fills one exactly when the icon has at least `n` paths.
   */
  lemma DrawOnePath(s: State, evs: seq<IconPack.Event>, f32: U32 -> real, colorize: Colorizer)
    requires AllCallable(evs) && s.debugPathIdx > 0
    ensures var t := ApplyAll(s.(currentPathIdx := 1), evs, f32, colorize);
      |t.fills| <= |s.fills| + 1 && (|t.fills| == |s.fills| + 1 <==> t.currentPathIdx > s.debugPathIdx)
  {
    OnePathFilled(s.(currentPathIdx := 1), evs, f32, colorize);
  }

  // ---------------------------------------------------------------------------
  // The buffer cache of `DrawIcon`

  /** `1 << n`. */
  function Pow2(n: nat): (r: nat)
    ensures r > 0
  {
    if n == 0 then 1 else 2 * Pow2(n - 1)
  }

  /** Bitwise OR of two naturals. */
  function BitOr(a: nat, b: nat): nat
    decreases a + b
  {
    if a == 0 then b
    else if b == 0 then a
    else 2 * BitOr(a / 2, b / 2) + (if a % 2 == 1 || b % 2 == 1 then 1 else 0)
  }

  /** The cache key `(uint32_t(dx) << 16) | uint32_t(dy)`, the shift truncated to 32 bits. */
  function Key(dx: int, dy: int): int
  {
    BitOr(ToU32(ToU32(dx) * 0x1_0000), ToU32(dy))
  }

  /** OR with a value below `2^n` adds it to a multiple of `2^n`. */
  lemma {:induction false} OrLow(a: nat, b: nat, n: nat)
    requires b < Pow2(n)
    ensures BitOr(a * Pow2(n), b) == a * Pow2(n) + b
  {
    if n > 0 && a * Pow2(n) != 0 && b != 0 {
      var h := a * Pow2(n - 1);
      assert a * Pow2(n) == 2 * h;
      assert (2 * h) / 2 == h && (2 * h) % 2 == 0;
      OrLow(a, b / 2, n - 1);
    }
  }

  lemma {:induction false} Pow2Add(a: nat, b: nat)
    ensures Pow2(a + b) == Pow2(a) * Pow2(b)
    decreases a
  {
    if a > 0 {
      Pow2Add(a - 1, b);
    }
  }

  lemma Pow2Sixteen()
    ensures Pow2(16) == 0x1_0000
  {
    Pow2Add(2, 2);
    Pow2Add(4, 4);
    Pow2Add(8, 8);
  }

  /** For sizes that fit in 16 bits the key is `dx * 65536 + dy`, so different sizes get different keys. */
  lemma KeyOfSmallSize(dx: int, dy: int)
    requires 0 <= dx < 0x1_0000 && 0 <= dy < 0x1_0000
    ensures Key(dx, dy) == dx * 0x1_0000 + dy
  {
    Pow2Sixteen();
    assert ToU32(dx) == dx && ToU32(dy) == dy;
    assert ToU32(dx * 0x1_0000) == dx * 0x1_0000;
    OrLow(dx, dy, 16);
  }

  lemma KeyInjective(dx1: int, dy1: int, dx2: int, dy2: int)
    requires 0 <= dx1 < 0x1_0000 && 0 <= dy1 < 0x1_0000 && 0 <= dx2 < 0x1_0000 && 0 <= dy2 < 0x1_0000
    ensures Key(dx1, dy1) == Key(dx2, dy2) <==> dx1 == dx2 && dy1 == dy2
  {
    KeyOfSmallSize(dx1, dy1);
    KeyOfSmallSize(dx2, dy2);
  }

  /** A height of 65536 or more spills into the width: a 0 by 65536 box gets the key of a 1 by 0 box. */
  lemma KeysCollideBeyond16Bits()
    ensures Key(0, 0x1_0000) == Key(1, 0)
  {
    KeyWidthOnly(1);
    KeyHeightOnly(0x1_0000);
  }

  /** With no height, the key is the width shifted into the upper half. */
  lemma KeyWidthOnly(dx: int)
    requires 0 <= dx < 0x1_0000
    ensures Key(dx, 0) == dx * 0x1_0000
  {
    assert ToU32(dx * 0x1_0000) == dx * 0x1_0000;
  }

  /** With no width, the key is the height, truncated to 32 bits. */
  lemma KeyHeightOnly(dy: int)
    ensures Key(0, dy) == ToU32(dy)
  {
  }

  /** A `DIBBuf`, by the size it was made for. */
  datatype Dib = Dib(dx: int, dy: int)

  /** Every buffer is filed under the key of its own size. */
  predicate Coherent(dibs: map<int, Dib>)
  {
    forall k :: k in dibs ==> Key(dibs[k].dx, dibs[k].dy) == k
  }

  /** `m_dibs`, the cache of off-screen buffers. */
  class DibCache {
    var dibs: map<int, Dib>

    constructor ()
      ensures dibs == map[]
    {
      dibs := map[];
    }

    /** The lookup in `DrawIcon`: the buffer for the key, made and inserted only when the key is absent. */
    method Lookup(dx: int, dy: int) returns (buf: Dib)
      modifies this
      ensures var k := Key(dx, dy);
        dibs == (if k in old(dibs) then old(dibs) else old(dibs)[k := Dib(dx, dy)])
        && buf == dibs[k]
      ensures Coherent(old(dibs)) ==> Coherent(dibs)
    {
      var sz := Key(dx, dy);
      if sz !in dibs {
        dibs := dibs[sz := Dib(dx, dy)];
      }
      buf := dibs[sz];
    }
  }

  /** In a cache that files buffers under their own size, a lookup for a 16-bit size gets a buffer of exactly that size. */
  lemma LookupGetsItsSize(dibs: map<int, Dib>, dx: int, dy: int)
    requires Coherent(dibs)
    requires 0 <= dx < 0x1_0000 && 0 <= dy < 0x1_0000
    requires forall k :: k in dibs ==> 0 <= dibs[k].dx < 0x1_0000 && 0 <= dibs[k].dy < 0x1_0000
    ensures var k := Key(dx, dy);
      k in dibs ==> dibs[k] == Dib(dx, dy)
  {
    var k := Key(dx, dy);
    if k in dibs {
      KeyInjective(dibs[k].dx, dibs[k].dy, dx, dy);
    }
  }

  // ---------------------------------------------------------------------------
  // DIBBuf::CopyBits

  /** Where byte `i` of destination row `y` lies: rows are `4 * dx` bytes, top row first. */
  function DstIndex(dx: nat, y: nat, i: nat): nat
  {
    y * (4 * dx) + i
  }

  /** Where the byte copied there comes from: source row `dy - 1 - y`, rows `stride` bytes apart. */
  function SrcIndex(stride: nat, dy: nat, y: nat, i: nat): int
  {
    (dy - 1 - y) * stride + i
  }

  /** The first `rows` destination rows hold the source rows in bottom-up order. */
  predicate Copied(d: seq<Byte>, src: seq<Byte>, stride: nat, dx: nat, dy: nat, rows: nat)
  {
    forall y, i :: 0 <= y < rows && 0 <= i < 4 * dx ==>
      DstIndex(dx, y, i) < |d| && 0 <= SrcIndex(stride, dy, y, i) < |src|
      && d[DstIndex(dx, y, i)] == src[SrcIndex(stride, dy, y, i)]
  }

  lemma MulMono(a: nat, b: nat, w: nat)
    requires a <= b
    ensures a * w <= b * w
  {
  }

  /** Byte `i` < w of row `y` lies before row `y + 1`, and that row ends inside a buffer of `rows` rows. */
  lemma RowBounds(w: nat, y: nat, rows: nat, i: nat)
    requires y < rows && i < w
    ensures y * w + i < (y + 1) * w <= rows * w
  {
    MulMono(y + 1, rows, w);
  }

  /** Copying row `y` to `d0 = y * 4dx` from `s0 = (dy - 1 - y) * stride` keeps the rows before it and adds it. */
  lemma CopiedStep(before: seq<Byte>, after: seq<Byte>, src: seq<Byte>, stride: nat, dx: nat, dy: nat, y: nat, d0: nat, s0: nat)
    requires Copied(before, src, stride, dx, dy, y)
    requires y < dy && 4 * dx <= stride && (dy - 1) * stride + 4 * dx <= |src|
    requires |before| == |after| == dy * (4 * dx)
    requires d0 == y * (4 * dx) && s0 == (dy - 1 - y) * stride
    requires forall k :: 0 <= k < |after| && !(d0 <= k < d0 + 4 * dx) ==> after[k] == before[k]
    requires forall k :: d0 <= k < d0 + 4 * dx && k < |after| && k - d0 + s0 < |src| ==> after[k] == src[k - d0 + s0]
    ensures Copied(after, src, stride, dx, dy, y + 1)
  {
    var w := 4 * dx;
    forall y', i | 0 <= y' < y + 1 && 0 <= i < w
      ensures DstIndex(dx, y', i) < |after| && 0 <= SrcIndex(stride, dy, y', i) < |src|
        && after[DstIndex(dx, y', i)] == src[SrcIndex(stride, dy, y', i)]
    {
      RowBounds(w, y', dy, i);
      MulMono(dy - 1 - y', dy - 1, stride);
      if y' < y {
        RowBounds(w, y', y, i);
      }
    }
  }

  /** The row offsets of one turn of the `CopyBits` loop stay inside both buffers and advance by a row. */
  lemma RowStep(y: nat, dy: nat, w: nat, stride: nat)
    requires y < dy
    ensures (y + 1) * w == y * w + w <= dy * w
    ensures 0 <= (dy - 1 - y) * stride <= (dy - 1) * stride
    ensures (dy - 1 - (y + 1)) * stride == (dy - 1 - y) * stride - stride
  {
    MulMono(y + 1, dy, w);
    MulMono(dy - 1 - y, dy - 1, stride);
  }

  /** The `memcpy` of one row: `w` bytes from `src[s0..]` to `dst[d0..]`; nothing else changes. */
  method CopyRow(src: seq<Byte>, s0: nat, d0: nat, w: nat, dst: array<Byte>)
    requires s0 + w <= |src| && d0 + w <= dst.Length
    modifies dst
    ensures forall k :: d0 <= k < d0 + w ==> dst[k] == src[k - d0 + s0]
    ensures forall k :: 0 <= k < dst.Length && !(d0 <= k < d0 + w) ==> dst[k] == old(dst[k])
  {
    forall k | d0 <= k < d0 + w {
      dst[k] := src[k - d0 + s0];
    }
  }

  /**
    `CopyBits`: when the bitmap can be locked, destination row `y` becomes
    source row `dy - 1 - y`, `4 * dx` bytes each, walking the source from
    its last row up by `stride`; when it cannot, nothing is copied.
   */
  method CopyBits(locked: bool, src: seq<Byte>, stride: nat, dx: nat, dy: nat, dst: array<Byte>) returns (ok: bool)
    requires 4 * dx <= stride
    requires dy > 0 ==> (dy - 1) * stride + 4 * dx <= |src|
    requires dst.Length == 4 * dx * dy
    modifies dst
    ensures ok == locked
    ensures !ok ==> dst[..] == old(dst[..])
    ensures ok ==> Copied(dst[..], src, stride, dx, dy, dy)
  {
    if !locked {
      return false;
    }
    var w := 4 * dx;
    assert dst.Length == dy * w;
    var p0: int := (dy - 1) * stride;
    var p1 := 0;
    var y := 0;
    while y < dy
      invariant y <= dy
      invariant p1 == y * w && p0 == (dy - 1 - y) * stride
      invariant Copied(dst[..], src, stride, dx, dy, y)
    {
      RowStep(y, dy, w, stride);
      ghost var before := dst[..];
      CopyRow(src, p0, p1, w, dst);
      CopiedStep(before, dst[..], src, stride, dx, dy, y, p1, p0);
      p0 := p0 - stride;
      p1 := p1 + w;
      y := y + 1;
    }
    return true;
  }
}
