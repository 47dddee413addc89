/**
  The SVG path-data decoder of procsvg/path.go, for the `d` attribute
  grammar of section 8.3 of SVG 1.1: commands M, L, H, V, C, S, Q, T, A and
  Z, absolute (upper case) or relative (lower case), are turned into
  absolute 'M', 'L', 'C' and 'Q' commands.

  The Go decoder is a struct whose fields every helper updates. Its fields
  are the class `PathDecoder`; a snapshot of them is the value `Decoder`, and
  each helper of the struct has a function on `Decoder` saying what the
  helper leaves behind, which the method is proved against.

  `strconv.ParseFloat` and the arc flattening `arcToBezier` (procsvg/arc.go,
  trigonometry) are parameters of the model.
 */
module Path {
  import opened Base
  import opened Trans

  /** A decoded command: 'M', 'L', 'C' or 'Q' and its absolute points. */
  datatype PathCmd = PathCmd(cmd: char, pts: seq<Point>)

  /** The errors the decoder records; positions are byte indices into the attribute. */
  datatype PathError =
    | UnexpectedEOF
    | UnexpectedCommand(c: char, pos: nat)
    | ExpectedNumber(pos: nat)
    | InvalidNumber(pos: nat)
    | InvalidSmoothCubic(pos: nat)
    | InvalidCubic(pos: nat)
    | InvalidQuadratic(pos: nat)
    | InvalidArc(pos: nat)

  /** `arcToBezier(p, c, r, xAxisRot, largeArc, sweep)`: the cubic control points of an arc from `p` to `c`. */
  type ArcFn = (Point, Point, Point, real, bool, bool) -> seq<Point>

  type ParseFn = string -> Option<real>

  /** The fields of Go's `pathdecoder`. */
  datatype Decoder = Decoder(data: string, pos: nat, err: Option<PathError>,
                             first: Point, last: Point, lastc: Point, lastq: Point,
                             cmd: seq<PathCmd>)

  const Origin := Point(0.0, 0.0)

  /** `isnumbyte` */
  predicate IsNumByte(c: char)
  {
    c == '.' || c == '-' || ('0' <= c <= '9') || c == 'e' || c == 'E'
  }

  /** The letters `nextcmd` accepts. */
  predicate IsCommand(c: char)
  {
    c == 'M' || c == 'L' || c == 'H' || c == 'V' || c == 'C' || c == 'S' || c == 'Q' || c == 'T' || c == 'A' || c == 'Z'
    || c == 'm' || c == 'l' || c == 'h' || c == 'v' || c == 'c' || c == 's' || c == 'q' || c == 't' || c == 'a' || c == 'z'
  }

  /** The upper-case form of a lower-case command letter, found by subtracting the distance from 'a' to 'A'. */
  function Upper(c: char): (u: char)
    requires 'a' <= c <= 'z'
    ensures 'A' <= u <= 'Z'
  {
    (c as int - 32) as char
  }

  /** `r` is `d` after work that may only advance the cursor and record a first error. */
  predicate Follows(d: Decoder, r: Decoder)
  {
    r.data == d.data && d.pos <= r.pos <= |d.data| && (d.err.Some? ==> r.err == d.err)
  }

  /** `r` has the same path state (points and commands) as `d`. */
  predicate SamePath(d: Decoder, r: Decoder)
  {
    r.first == d.first && r.last == d.last && r.lastc == d.lastc && r.lastq == d.lastq && r.cmd == d.cmd
  }

  /** Without an error before or after, the cursor moved forward. */
  predicate Advanced(d: Decoder, r: Decoder)
  {
    d.err.None? && r.err.None? ==> d.pos < r.pos
  }

  /** The end of the maximal run of number bytes at `i`. */
  function NumEnd(s: string, i: nat): (j: nat)
    requires i <= |s|
    ensures i <= j <= |s| && (j < |s| ==> !IsNumByte(s[j]))
    ensures forall k :: i <= k < j ==> IsNumByte(s[k])
    decreases |s| - i
  {
    if i < |s| && IsNumByte(s[i]) then NumEnd(s, i + 1) else i
  }

  /** `seterr`: only the first error is kept. */
  function WithError(d: Decoder, e: PathError): (r: Decoder)
    ensures r.err.Some? && (d.err.Some? ==> r.err == d.err)
    ensures r.data == d.data && r.pos == d.pos && SamePath(d, r)
  {
    if d.err.None? then d.(err := Some(e)) else d
  }

  /** `skipspace`: only ' ' is skipped. */
  function SpaceSkipped(d: Decoder): (r: Decoder)
    requires d.pos <= |d.data|
    ensures Follows(d, r) && r.err == d.err && SamePath(d, r)
    ensures r.pos == |d.data| || d.data[r.pos] != ' '
  {
    d.(pos := SpacesEnd(d.data, d.pos))
  }

  /** `isnum`: skips spaces, then tells whether a number byte follows. */
  function NumberAhead(d: Decoder): (r: (bool, Decoder))
    requires d.pos <= |d.data|
    ensures r.1 == SpaceSkipped(d)
    ensures r.0 <==> r.1.pos < |d.data| && IsNumByte(d.data[r.1.pos])
  {
    var d1 := SpaceSkipped(d);
    (d1.pos < |d1.data| && IsNumByte(d1.data[d1.pos]), d1)
  }

  /** `nextcmd`: the command letter in upper case and whether it was lower case, or 0 and an error. */
  function CommandAhead(d: Decoder): (r: (char, bool, Decoder))
    requires d.pos <= |d.data|
    ensures Follows(d, r.2) && SamePath(d, r.2)
    ensures r.0 == 0 as char ==> r.2.err.Some?
    ensures r.0 != 0 as char ==> r.2.err == d.err && d.pos < r.2.pos && 'A' <= r.0 <= 'Z' && IsCommand(r.0)
  {
    var d1 := SpaceSkipped(d);
    if d1.pos == |d.data| then (0 as char, false, WithError(d1, UnexpectedEOF))
    else
      var c := d.data[d1.pos];
      if !IsCommand(c) then (0 as char, false, WithError(d1, UnexpectedCommand(c, d1.pos)))
      else if c >= 'a' then (Upper(c), true, d1.(pos := d1.pos + 1))
      else (c, false, d1.(pos := d1.pos + 1))
  }

  /** `skipcomma`: spaces, at most one ',', spaces. */
  function CommaSkipped(d: Decoder): (r: Decoder)
    requires d.pos <= |d.data|
    ensures Follows(d, r) && r.err == d.err && SamePath(d, r)
  {
    var d1 := SpaceSkipped(d);
    if d1.pos == |d.data| then d1
    else if d.data[d1.pos] == ',' then SpaceSkipped(d1.(pos := d1.pos + 1))
    else SpaceSkipped(d1)
  }

  /**
    `number`: the number at the cursor, after spaces, with the separator
    after it skipped; 0 and an error, with the cursor left before the
    offending byte, when there is no number or `parseFloat` rejects it.
   */
  function NumberRead(d: Decoder, parseFloat: ParseFn): (r: (real, Decoder))
    requires d.pos <= |d.data|
    ensures Follows(d, r.1) && SamePath(d, r.1) && Advanced(d, r.1)
  {
    var d1 := SpaceSkipped(d);
    var s := d1.pos;
    var e := NumEnd(d.data, s);
    if s == e then (0.0, WithError(d1, ExpectedNumber(s)))
    else
      match parseFloat(d.data[s..e])
      case None => (0.0, WithError(d1, InvalidNumber(s)))
      case Some(v) => (v, CommaSkipped(d1.(pos := e)))
  }

  /** `point`: two numbers. */
  function PointRead(d: Decoder, parseFloat: ParseFn): (r: (Point, Decoder))
    requires d.pos <= |d.data|
    ensures Follows(d, r.1) && SamePath(d, r.1) && Advanced(d, r.1)
  {
    var (x, d1) := NumberRead(d, parseFloat);
    var (y, d2) := NumberRead(d1, parseFloat);
    (Point(x, y), d2)
  }

  /** The loop of `points` after the points `acc`: more while there is no error and a number byte follows. */
  function PointsLoop(d: Decoder, parseFloat: ParseFn, acc: seq<Point>): (r: (seq<Point>, Decoder))
    requires d.pos <= |d.data|
    ensures Follows(d, r.1) && SamePath(d, r.1)
    ensures |acc| <= |r.0| && forall k :: 0 <= k < |acc| ==> r.0[k] == acc[k]
    decreases |d.data| - d.pos, if d.err.None? then 1 else 0
  {
    if d.err.Some? then (acc, d)
    else
      var (more, d1) := NumberAhead(d);
      if !more then (acc, d1)
      else
        var (pt, d2) := PointRead(d1, parseFloat);
        PointsLoop(d2, parseFloat, acc + [pt])
  }

  /** `points`: one point, then as many more as follow. */
  function PointsRead(d: Decoder, parseFloat: ParseFn): (r: (seq<Point>, Decoder))
    requires d.pos <= |d.data|
    ensures Follows(d, r.1) && SamePath(d, r.1) && Advanced(d, r.1)
    ensures |r.0| >= 1
  {
    var (p0, d1) := PointRead(d, parseFloat);
    PointsLoop(d1, parseFloat, [p0])
  }

  /** The loop of `numbers` after the numbers `acc`. */
  function NumbersLoop(d: Decoder, parseFloat: ParseFn, acc: seq<real>): (r: (seq<real>, Decoder))
    requires d.pos <= |d.data|
    ensures Follows(d, r.1) && SamePath(d, r.1)
    ensures |acc| <= |r.0| && forall k :: 0 <= k < |acc| ==> r.0[k] == acc[k]
    decreases |d.data| - d.pos, if d.err.None? then 1 else 0
  {
    if d.err.Some? then (acc, d)
    else
      var (more, d1) := NumberAhead(d);
      if !more then (acc, d1)
      else
        var (n, d2) := NumberRead(d1, parseFloat);
        NumbersLoop(d2, parseFloat, acc + [n])
  }

  /** `numbers`: one number, then as many more as follow. */
  function NumbersRead(d: Decoder, parseFloat: ParseFn): (r: (seq<real>, Decoder))
    requires d.pos <= |d.data|
    ensures Follows(d, r.1) && SamePath(d, r.1) && Advanced(d, r.1)
    ensures |r.0| >= 1
  {
    var (n0, d1) := NumberRead(d, parseFloat);
    NumbersLoop(d1, parseFloat, [n0])
  }

  /** The `rel` closure of `step`: `p` made absolute against the current point when the command is relative. */
  function Rel(d: Decoder, relflag: bool, p: Point): Point
  {
    if relflag then Point(d.last.x + p.x, d.last.y + p.y) else p
  }

  /** A decoded command has a known letter and a point count that letter allows. */
  predicate WellFormedCmd(c: PathCmd)
  {
    (c.cmd == 'M' && |c.pts| == 1)
    || (c.cmd == 'L' && |c.pts| >= 1)
    || (c.cmd == 'C' && |c.pts| >= 3 && |c.pts| % 3 == 0)
    || (c.cmd == 'Q' && |c.pts| >= 2 && |c.pts| % 2 == 0)
  }

  predicate WellFormed(cmds: seq<PathCmd>)
  {
    forall i :: 0 <= i < |cmds| ==> WellFormedCmd(cmds[i])
  }

  /** The points one call of `addcmd` passes keep every command well formed. */
  predicate AddArity(c: char, v: seq<Point>)
  {
    (c == 'M' && |v| == 1) || (c == 'L' && |v| == 1)
    || (c == 'C' && |v| >= 3 && |v| % 3 == 0) || (c == 'Q' && |v| == 2)
  }

  /**
    `addcmd`: the points go to the previous command when it has the same
    letter and the letter is not 'M', to a new command otherwise; `last`
    becomes the final point, `first` follows it on 'M', and `lastc`/`lastq`
    become the point before it for 'C'/'Q' and `last` otherwise.
   */
  function CmdAdded(d: Decoder, c: char, v: seq<Point>): (r: Decoder)
    requires |v| > 0 && (c == 'C' || c == 'Q' ==> |v| >= 2)
    ensures r.data == d.data && r.pos == d.pos && r.err == d.err
    ensures r.last == v[|v| - 1] && r.first == (if c == 'M' then r.last else d.first)
  {
    var n := |d.cmd|;
    var cmd := if c != 'M' && n > 0 && d.cmd[n - 1].cmd == c
               then d.cmd[..n - 1] + [PathCmd(c, d.cmd[n - 1].pts + v)]
               else d.cmd + [PathCmd(c, v)];
    var last := v[|v| - 1];
    d.(cmd := cmd, last := last,
       first := if c == 'M' then last else d.first,
       lastc := if c == 'C' then v[|v| - 2] else last,
       lastq := if c == 'Q' then v[|v| - 2] else last)
  }

  /** `line`: one 'L' per point, each made absolute against the point before it. */
  function LinesAdded(d: Decoder, v: seq<Point>, relflag: bool): (r: Decoder)
    ensures r.data == d.data && r.pos == d.pos && r.err == d.err
    decreases |v|
  {
    if |v| == 0 then d
    else LinesAdded(CmdAdded(d, 'L', [Rel(d, relflag, v[0])]), v[1..], relflag)
  }

  /** One turn of the `cubicBézier` loop: a 'C' through the first three points of `w`. */
  function CubicAdded(d: Decoder, w: seq<Point>, relflag: bool): (r: Decoder)
    requires |w| >= 3
    ensures r.data == d.data && r.pos == d.pos && r.err == d.err
  {
    CmdAdded(d, 'C', [Rel(d, relflag, w[0]), Rel(d, relflag, w[1]), Rel(d, relflag, w[2])])
  }

  /**
    The loop of `cubicBézier`: one 'C' per three points, all three against
    the same current point. The caller has checked that the points come in
    threes, so a partial group is never reached.
   */
  function Cubics(d: Decoder, v: seq<Point>, relflag: bool): (r: Decoder)
    ensures r.data == d.data && r.pos == d.pos && r.err == d.err
    decreases |v|
  {
    if |v| < 3 then d
    else Cubics(CubicAdded(d, v[..3], relflag), v[3..], relflag)
  }

  /** `cubicBézier`: an error at `startp` unless the points come in threes. */
  function CubicsChecked(d: Decoder, startp: nat, v: seq<Point>, relflag: bool): (r: Decoder)
    ensures r.data == d.data && r.pos == d.pos && (d.err.Some? ==> r.err == d.err)
  {
    if |v| % 3 != 0 then WithError(d, InvalidCubic(startp)) else Cubics(d, v, relflag)
  }

  /** One turn of the `quadraticBézier` loop: a 'Q' through the first two points of `w`. */
  function QuadAdded(d: Decoder, w: seq<Point>, relflag: bool): (r: Decoder)
    requires |w| >= 2
    ensures r.data == d.data && r.pos == d.pos && r.err == d.err
  {
    CmdAdded(d, 'Q', [Rel(d, relflag, w[0]), Rel(d, relflag, w[1])])
  }

  /** The loop of `quadraticBézier`: one 'Q' per two points, in whole groups as for `Cubics`. */
  function Quads(d: Decoder, v: seq<Point>, relflag: bool): (r: Decoder)
    ensures r.data == d.data && r.pos == d.pos && r.err == d.err
    decreases |v|
  {
    if |v| < 2 then d
    else Quads(QuadAdded(d, v[..2], relflag), v[2..], relflag)
  }

  /** `quadraticBézier`: an error at `startp` unless the points come in twos. */
  function QuadsChecked(d: Decoder, startp: nat, v: seq<Point>, relflag: bool): (r: Decoder)
    ensures r.data == d.data && r.pos == d.pos && (d.err.Some? ==> r.err == d.err)
  {
    if |v| % 2 != 0 then WithError(d, InvalidQuadratic(startp)) else Quads(d, v, relflag)
  }

  /** The point an 'H' number gives: the current point with x replaced, or moved by it when relative. */
  function HPoint(d: Decoder, relflag: bool, n: real): Point
  {
    Point(if relflag then d.last.x + n else n, d.last.y)
  }

  /** The point a 'V' number gives: the current point with y replaced, or moved by it when relative. */
  function VPoint(d: Decoder, relflag: bool, n: real): Point
  {
    Point(d.last.x, if relflag then d.last.y + n else n)
  }

  /** The 'H' loop: one 'L' per number, moving only the x coordinate. */
  function HLinesAdded(d: Decoder, ns: seq<real>, relflag: bool): (r: Decoder)
    ensures r.data == d.data && r.pos == d.pos && r.err == d.err
    decreases |ns|
  {
    if |ns| == 0 then d
    else
      HLinesAdded(CmdAdded(d, 'L', [HPoint(d, relflag, ns[0])]), ns[1..], relflag)
  }

  /** The 'V' loop: one 'L' per number, moving only the y coordinate. */
  function VLinesAdded(d: Decoder, ns: seq<real>, relflag: bool): (r: Decoder)
    ensures r.data == d.data && r.pos == d.pos && r.err == d.err
    decreases |ns|
  {
    if |ns| == 0 then d
    else
      VLinesAdded(CmdAdded(d, 'L', [VPoint(d, relflag, ns[0])]), ns[1..], relflag)
  }

  /** `arcToBezier` yields whole cubic segments, three points each, as its `approxUnitArc` does. */
  ghost predicate ArcShaped(arc: ArcFn)
  {
    forall p, c, r, a, l, s :: |arc(p, c, r, a, l, s)| % 3 == 0
  }

  lemma ArcShapedAt(arc: ArcFn, p: Point, c: Point, r: Point, a: real, l: bool, s: bool)
    requires ArcShaped(arc)
    ensures |arc(p, c, r, a, l, s)| % 3 == 0
  {
  }

  /** The end point of the arc that the seven numbers `w[0..7]` describe. */
  function ArcEnd(d: Decoder, w: seq<real>, relflag: bool): Point
    requires |w| >= 7
  {
    Rel(d, relflag, Point(w[5], w[6]))
  }

  /** The flattening of the arc that the seven numbers `w[0..7]` describe, from the current point. */
  function ArcPoints(d: Decoder, w: seq<real>, relflag: bool, arc: ArcFn): seq<Point>
    requires |w| >= 7
  {
    arc(d.last, ArcEnd(d, w, relflag), Point(w[0], w[1]), w[2], w[3] != 0.0, w[4] != 0.0)
  }

  /**
    One arc, as the 'A' loop should add it: the control points as one 'C',
    and, where the flattening gives no curve, the straight line or nothing
    that section F.6.2 of SVG 1.1 calls for (a zero radius, or an arc
    ending where it starts). `lastc` follows `last` afterwards.
   */
  function ArcAdded(d: Decoder, w: seq<real>, relflag: bool, arc: ArcFn): (r: Decoder)
    requires |w| >= 7
    ensures r.data == d.data && r.pos == d.pos && r.err == d.err
  {
    var pts := ArcPoints(d, w, relflag, arc);
    var end := ArcEnd(d, w, relflag);
    var d1 := if |pts| >= 2 then CmdAdded(d, 'C', pts)
              else if end == d.last then d
              else CmdAdded(d, 'L', [end]);
    d1.(lastc := d1.last)
  }

  /** The 'A' loop over whole groups of seven numbers, in whole groups as for `Cubics`. */
  function ArcsAdded(d: Decoder, v: seq<real>, relflag: bool, arc: ArcFn): (r: Decoder)
    ensures r.data == d.data && r.pos == d.pos && r.err == d.err
    decreases |v|
  {
    if |v| < 7 then d
    else ArcsAdded(ArcAdded(d, v[..7], relflag, arc), v[7..], relflag, arc)
  }

  /** The 'A' case: an error at `startp` unless the numbers come in sevens. */
  function ArcsChecked(d: Decoder, startp: nat, v: seq<real>, relflag: bool, arc: ArcFn): (r: Decoder)
    ensures r.data == d.data && r.pos == d.pos && (d.err.Some? ==> r.err == d.err)
  {
    if |v| % 7 != 0 then WithError(d, InvalidArc(startp)) else ArcsAdded(d, v, relflag, arc)
  }

  /** The reflection of `c` through `p`, as S and T compute their first control point. */
  function Reflect(p: Point, c: Point): Point
  {
    Point(2.0 * p.x - c.x, 2.0 * p.y - c.y)
  }

  /** What the helpers of `step` promise: the cursor only advances, a first error stays, and progress unless an error is recorded. */
  predicate Moved(d: Decoder, r: Decoder)
  {
    Follows(d, r) && Advanced(d, r)
  }

  /** The 'M' case of `step`: a move to the first point, lines to the others. */
  function MoveCmd(d: Decoder, relflag: bool, parseFloat: ParseFn): (r: Decoder)
    requires d.pos <= |d.data|
    ensures Moved(d, r)
  {
    var (pts, d2) := PointsRead(d, parseFloat);
    LinesAdded(CmdAdded(d2, 'M', [Rel(d2, relflag, pts[0])]), pts[1..], relflag)
  }

  /** The 'L' case of `step`. */
  function LineCmd(d: Decoder, relflag: bool, parseFloat: ParseFn): (r: Decoder)
    requires d.pos <= |d.data|
    ensures Moved(d, r)
  {
    var (pts, d2) := PointsRead(d, parseFloat);
    LinesAdded(d2, pts, relflag)
  }

  /** The 'H' case of `step`. */
  function HCmd(d: Decoder, relflag: bool, parseFloat: ParseFn): (r: Decoder)
    requires d.pos <= |d.data|
    ensures Moved(d, r)
  {
    var (ns, d2) := NumbersRead(d, parseFloat);
    HLinesAdded(d2, ns, relflag)
  }

  /** The 'V' case of `step`. */
  function VCmd(d: Decoder, relflag: bool, parseFloat: ParseFn): (r: Decoder)
    requires d.pos <= |d.data|
    ensures Moved(d, r)
  {
    var (ns, d2) := NumbersRead(d, parseFloat);
    VLinesAdded(d2, ns, relflag)
  }

  /** The 'C' case of `step`; errors point at the cursor after the letter. */
  function CubicCmd(d: Decoder, relflag: bool, parseFloat: ParseFn): (r: Decoder)
    requires d.pos <= |d.data|
    ensures Moved(d, r)
  {
    var (v, d2) := PointsRead(d, parseFloat);
    CubicsChecked(d2, d.pos, v, relflag)
  }

  /** The 'S' case of `step`: the first control point reflects the previous one through the current point. */
  function SmoothCubicCmd(d: Decoder, relflag: bool, parseFloat: ParseFn): (r: Decoder)
    requires d.pos <= |d.data|
    ensures Moved(d, r)
  {
    var (v, d2) := PointsRead(d, parseFloat);
    if |v| < 2 then WithError(d2, InvalidSmoothCubic(d.pos))
    else
      var d3 := CmdAdded(d2, 'C', [Reflect(d2.last, d2.lastc), Rel(d2, relflag, v[0]), Rel(d2, relflag, v[1])]);
      CubicsChecked(d3, d.pos, v[2..], relflag)
  }

  /** The 'Q' case of `step`. */
  function QuadCmd(d: Decoder, relflag: bool, parseFloat: ParseFn): (r: Decoder)
    requires d.pos <= |d.data|
    ensures Moved(d, r)
  {
    var (v, d2) := PointsRead(d, parseFloat);
    QuadsChecked(d2, d.pos, v, relflag)
  }

  /** The 'T' case of `step`. */
  function SmoothQuadCmd(d: Decoder, relflag: bool, parseFloat: ParseFn): (r: Decoder)
    requires d.pos <= |d.data|
    ensures Moved(d, r)
  {
    var (v, d2) := PointsRead(d, parseFloat);
    var d3 := CmdAdded(d2, 'Q', [Reflect(d2.last, d2.lastq), Rel(d2, relflag, v[0])]);
    QuadsChecked(d3, d.pos, v[1..], relflag)
  }

  /** The 'A' case of `step`. */
  function ArcCmd(d: Decoder, relflag: bool, parseFloat: ParseFn, arc: ArcFn): (r: Decoder)
    requires d.pos <= |d.data|
    ensures Moved(d, r)
  {
    var (v, d2) := NumbersRead(d, parseFloat);
    ArcsChecked(d2, d.pos, v, relflag, arc)
  }

  /** The 'Z' case of `step`: back to the start of the subpath. */
  function CloseCmd(d: Decoder): (r: Decoder)
    ensures r.data == d.data && r.pos == d.pos && r.err == d.err && r.cmd == d.cmd
    ensures r.last == r.lastc == r.lastq == r.first == d.first
  {
    d.(last := d.first, lastc := d.first, lastq := d.first)
  }

  /** `step`: one command of the attribute. */
  function Stepped(d: Decoder, parseFloat: ParseFn, arc: ArcFn): (r: Decoder)
    requires d.pos <= |d.data|
    ensures Follows(d, r)
    ensures d.err.None? ==> r.err.Some? || d.pos < r.pos
  {
    var (c, relflag, d1) := CommandAhead(d);
    if c == 'M' then MoveCmd(d1, relflag, parseFloat)
    else if c == 'L' then LineCmd(d1, relflag, parseFloat)
    else if c == 'H' then HCmd(d1, relflag, parseFloat)
    else if c == 'V' then VCmd(d1, relflag, parseFloat)
    else if c == 'C' then CubicCmd(d1, relflag, parseFloat)
    else if c == 'S' then SmoothCubicCmd(d1, relflag, parseFloat)
    else if c == 'Q' then QuadCmd(d1, relflag, parseFloat)
    else if c == 'T' then SmoothQuadCmd(d1, relflag, parseFloat)
    else if c == 'A' then ArcCmd(d1, relflag, parseFloat, arc)
    else if c == 'Z' then CloseCmd(d1)
    else d1
  }

  /** `run`: steps until an error is recorded or the input is used up. */
  function Decoded(d: Decoder, parseFloat: ParseFn, arc: ArcFn): (r: Decoder)
    requires d.pos <= |d.data|
    ensures Follows(d, r)
    ensures r.err.Some? || r.pos == |d.data|
    decreases |d.data| - d.pos, if d.err.None? then 1 else 0
  {
    if d.err.Some? || d.pos == |d.data| then d else Decoded(Stepped(d, parseFloat, arc), parseFloat, arc)
  }

  /** A fresh decoder for `s`. */
  function Start(s: string): Decoder
  {
    Decoder(s, 0, None, Origin, Origin, Origin, Origin, [])
  }

  /** `PathDCmds`: the commands, or the first error. */
  function PathDCmdsOf(s: string, parseFloat: ParseFn, arc: ArcFn): Result<seq<PathCmd>, PathError>
  {
    var d := Decoded(Start(s), parseFloat, arc);
    if d.err.Some? then Err(d.err.value) else Ok(d.cmd)
  }

  /** One turn of the `cubicBézier` loop, at index `i`. */
  lemma CubicsStep(d: Decoder, v: seq<Point>, i: nat, relflag: bool)
    requires i + 3 <= |v|
    ensures Cubics(d, v[i..], relflag) == Cubics(CubicAdded(d, v[i..i + 3], relflag), v[i + 3..], relflag)
  {
    assert v[i..][..3] == v[i..i + 3] && v[i..][3..] == v[i + 3..];
  }

  /** One turn of the `quadraticBézier` loop, at index `i`. */
  lemma QuadsStep(d: Decoder, v: seq<Point>, i: nat, relflag: bool)
    requires i + 2 <= |v|
    ensures Quads(d, v[i..], relflag) == Quads(QuadAdded(d, v[i..i + 2], relflag), v[i + 2..], relflag)
  {
    assert v[i..][..2] == v[i..i + 2] && v[i..][2..] == v[i + 2..];
  }

  /** One turn of the 'A' loop, at index `i`. */
  lemma ArcsStep(d: Decoder, v: seq<real>, i: nat, relflag: bool, arc: ArcFn)
    requires i + 7 <= |v|
    ensures ArcsAdded(d, v[i..], relflag, arc) == ArcsAdded(ArcAdded(d, v[i..i + 7], relflag, arc), v[i + 7..], relflag, arc)
  {
    assert v[i..][..7] == v[i..i + 7] && v[i..][7..] == v[i + 7..];
  }

  /** Go's `pathdecoder`. */
  class PathDecoder {
    const data: string
    const parseFloat: ParseFn
    const arc: ArcFn
    var pos: nat
    var err: Option<PathError>
    var first: Point
    var last: Point
    var lastc: Point
    var lastq: Point
    var cmd: seq<PathCmd>

    function State(): Decoder
      reads this
    {
      Decoder(data, pos, err, first, last, lastc, lastq, cmd)
    }

    ghost predicate Valid()
      reads this
    {
      pos <= |data|
    }

    constructor (s: string, parseFloat: ParseFn, arc: ArcFn)
      ensures Valid() && State() == Start(s)
      ensures this.parseFloat == parseFloat && this.arc == arc
    {
      data := s;
      this.parseFloat := parseFloat;
      this.arc := arc;
      pos := 0;
      err := None;
      first, last, lastc, lastq := Origin, Origin, Origin, Origin;
      cmd := [];
    }

    method SetErr(e: PathError)
      modifies this
      ensures State() == WithError(old(State()), e)
    {
      if err.None? {
        err := Some(e);
      }
    }

    method SkipSpace()
      requires Valid()
      modifies this
      ensures Valid() && State() == SpaceSkipped(old(State()))
    {
      while pos < |data| && data[pos] == ' '
        invariant old(pos) <= pos <= |data| && SpacesEnd(data, pos) == SpacesEnd(data, old(pos))
        invariant State() == old(State()).(pos := pos)
      {
        pos := pos + 1;
      }
    }

    method IsNum() returns (b: bool)
      requires Valid()
      modifies this
      ensures Valid() && (b, State()) == NumberAhead(old(State()))
    {
      SkipSpace();
      if pos == |data| {
        return false;
      }
      return IsNumByte(data[pos]);
    }

    method NextCmd() returns (c: char, relflag: bool)
      requires Valid()
      modifies this
      ensures Valid() && (c, relflag, State()) == CommandAhead(old(State()))
    {
      SkipSpace();
      if pos == |data| {
        SetErr(UnexpectedEOF);
        return 0 as char, false;
      }
      c := data[pos];
      if !IsCommand(c) {
        SetErr(UnexpectedCommand(c, pos));
        return 0 as char, false;
      }
      pos := pos + 1;
      relflag := c >= 'a';
      if relflag {
        c := Upper(c);
      }
    }

    method SkipComma()
      requires Valid()
      modifies this
      ensures Valid() && State() == CommaSkipped(old(State()))
    {
      SkipSpace();
      if pos == |data| {
        return;
      }
      if data[pos] == ',' {
        pos := pos + 1;
      }
      SkipSpace();
    }

    method Number() returns (v: real)
      requires Valid()
      modifies this
      ensures Valid() && (v, State()) == NumberRead(old(State()), parseFloat)
    {
      SkipSpace();
      var s := pos;
      var e := s;
      while e < |data| && IsNumByte(data[e])
        invariant s <= e <= |data| && NumEnd(data, e) == NumEnd(data, s)
      {
        e := e + 1;
      }
      if s == e {
        SetErr(ExpectedNumber(s));
        return 0.0;
      }
      var x := parseFloat(data[s..e]);
      if x.None? {
        SetErr(InvalidNumber(s));
        return 0.0;
      }
      pos := e;
      SkipComma();
      return x.value;
    }

    method ReadPoint() returns (p: Point)
      requires Valid()
      modifies this
      ensures Valid() && (p, State()) == PointRead(old(State()), parseFloat)
    {
      var x := Number();
      var y := Number();
      return Point(x, y);
    }

    method Points() returns (r: seq<Point>)
      requires Valid()
      modifies this
      ensures Valid() && (r, State()) == PointsRead(old(State()), parseFloat)
    {
      var p0 := ReadPoint();
      r := [p0];
      ghost var goal := PointsLoop(State(), parseFloat, r);
      while err.None?
        invariant Valid() && PointsLoop(State(), parseFloat, r) == goal
        decreases |data| - pos, if err.None? then 1 else 0
      {
        var more := IsNum();
        if !more {
          return;
        }
        var p := ReadPoint();
        r := r + [p];
      }
    }

    method Numbers() returns (r: seq<real>)
      requires Valid()
      modifies this
      ensures Valid() && (r, State()) == NumbersRead(old(State()), parseFloat)
    {
      var n0 := Number();
      r := [n0];
      ghost var goal := NumbersLoop(State(), parseFloat, r);
      while err.None?
        invariant Valid() && NumbersLoop(State(), parseFloat, r) == goal
        decreases |data| - pos, if err.None? then 1 else 0
      {
        var more := IsNum();
        if !more {
          return;
        }
        var n := Number();
        r := r + [n];
      }
    }

    method AddCmd(c: char, v: seq<Point>)
      requires |v| > 0 && (c == 'C' || c == 'Q' ==> |v| >= 2)
      modifies this
      ensures State() == CmdAdded(old(State()), c, v)
    {
      var previ := |cmd| - 1;
      if c != 'M' && previ >= 0 && cmd[previ].cmd == c {
        cmd := cmd[..previ] + [PathCmd(c, cmd[previ].pts + v)];
      } else {
        cmd := cmd + [PathCmd(c, v)];
      }
      last := v[|v| - 1];
      if c == 'M' {
        first := last;
      }
      if c == 'C' {
        lastc := v[|v| - 2];
      } else {
        lastc := last;
      }
      if c == 'Q' {
        lastq := v[|v| - 2];
      } else {
        lastq := last;
      }
    }

    method Line(v: seq<Point>, relflag: bool)
      modifies this
      ensures State() == LinesAdded(old(State()), v, relflag)
    {
      var i := 0;
      while i < |v|
        invariant 0 <= i <= |v|
        invariant LinesAdded(State(), v[i..], relflag) == LinesAdded(old(State()), v, relflag)
      {
        assert v[i..][1..] == v[i + 1..];
        AddCmd('L', [Rel(State(), relflag, v[i])]);
        i := i + 1;
      }
    }

    /** One turn of the `cubicBézier` loop. */
    method AddCubic(w: seq<Point>, relflag: bool)
      requires |w| == 3
      modifies this
      ensures State() == CubicAdded(old(State()), w, relflag)
    {
      AddCmd('C', [Rel(State(), relflag, w[0]), Rel(State(), relflag, w[1]), Rel(State(), relflag, w[2])]);
    }

    /** One turn of the `quadraticBézier` loop. */
    method AddQuad(w: seq<Point>, relflag: bool)
      requires |w| == 2
      modifies this
      ensures State() == QuadAdded(old(State()), w, relflag)
    {
      AddCmd('Q', [Rel(State(), relflag, w[0]), Rel(State(), relflag, w[1])]);
    }

    method CubicBezier(startp: nat, v: seq<Point>, relflag: bool)
      modifies this
      ensures State() == CubicsChecked(old(State()), startp, v, relflag)
    {
      if |v| % 3 != 0 {
        SetErr(InvalidCubic(startp));
        return;
      }
      var i := 0;
      while i + 3 <= |v|
        invariant i <= |v|
        invariant Cubics(State(), v[i..], relflag) == Cubics(old(State()), v, relflag)
      {
        CubicsStep(State(), v, i, relflag);
        AddCubic(v[i..i + 3], relflag);
        i := i + 3;
      }
    }

    method QuadraticBezier(startp: nat, v: seq<Point>, relflag: bool)
      modifies this
      ensures State() == QuadsChecked(old(State()), startp, v, relflag)
    {
      if |v| % 2 != 0 {
        SetErr(InvalidQuadratic(startp));
        return;
      }
      var i := 0;
      while i + 2 <= |v|
        invariant i <= |v|
        invariant Quads(State(), v[i..], relflag) == Quads(old(State()), v, relflag)
      {
        QuadsStep(State(), v, i, relflag);
        AddQuad(v[i..i + 2], relflag);
        i := i + 2;
      }
    }

    /** The 'H' case of `step`. */
    method HLines(ns: seq<real>, relflag: bool)
      modifies this
      ensures State() == HLinesAdded(old(State()), ns, relflag)
    {
      var i := 0;
      while i < |ns|
        invariant 0 <= i <= |ns|
        invariant HLinesAdded(State(), ns[i..], relflag) == HLinesAdded(old(State()), ns, relflag)
      {
        assert ns[i..][1..] == ns[i + 1..];
        AddCmd('L', [HPoint(State(), relflag, ns[i])]);
        i := i + 1;
      }
    }

    /** The 'V' case of `step`. */
    method VLines(ns: seq<real>, relflag: bool)
      modifies this
      ensures State() == VLinesAdded(old(State()), ns, relflag)
    {
      var i := 0;
      while i < |ns|
        invariant 0 <= i <= |ns|
        invariant VLinesAdded(State(), ns[i..], relflag) == VLinesAdded(old(State()), ns, relflag)
      {
        assert ns[i..][1..] == ns[i + 1..];
        AddCmd('L', [VPoint(State(), relflag, ns[i])]);
        i := i + 1;
      }
    }

    /** One turn of the 'A' loop: the arc of the seven numbers `w`, from the current point. */
    method AddArc(w: seq<real>, relflag: bool)
      requires |w| == 7
      modifies this
      ensures State() == ArcAdded(old(State()), w, relflag, arc)
    {
      var c := Rel(State(), relflag, Point(w[5], w[6]));
      var pts := arc(last, c, Point(w[0], w[1]), w[2], w[3] != 0.0, w[4] != 0.0);
      if |pts| >= 2 {
        AddCmd('C', pts);
      } else if c != last {
        AddCmd('L', [c]);
      }
      lastc := last;
    }

    /** The loop of the 'A' case of `step`, with the length test and empty flattenings handled. */
    method Arcs(startp: nat, v: seq<real>, relflag: bool)
      modifies this
      ensures State() == ArcsChecked(old(State()), startp, v, relflag, arc)
    {
      if |v| % 7 != 0 {
        SetErr(InvalidArc(startp));
        return;
      }
      var i := 0;
      while i + 7 <= |v|
        invariant i <= |v|
        invariant ArcsAdded(State(), v[i..], relflag, arc) == ArcsAdded(old(State()), v, relflag, arc)
      {
        ArcsStep(State(), v, i, relflag, arc);
        AddArc(v[i..i + 7], relflag);
        i := i + 7;
      }
    }

    /** The 'M' case of `step`. */
    method Move(relflag: bool)
      requires Valid()
      modifies this
      ensures Valid() && State() == MoveCmd(old(State()), relflag, parseFloat)
    {
      var pts := Points();
      AddCmd('M', [Rel(State(), relflag, pts[0])]);
      Line(pts[1..], relflag);
    }

    /** The 'S' case of `step`. */
    method SmoothCubic(relflag: bool)
      requires Valid()
      modifies this
      ensures Valid() && State() == SmoothCubicCmd(old(State()), relflag, parseFloat)
    {
      var startp := pos;
      var v := Points();
      if |v| < 2 {
        SetErr(InvalidSmoothCubic(startp));
        return;
      }
      var p1 := Reflect(last, lastc);
      var p2 := Rel(State(), relflag, v[0]);
      var p3 := Rel(State(), relflag, v[1]);
      AddCmd('C', [p1, p2, p3]);
      CubicBezier(startp, v[2..], relflag);
    }

    /** The 'T' case of `step`. */
    method SmoothQuad(relflag: bool)
      requires Valid()
      modifies this
      ensures Valid() && State() == SmoothQuadCmd(old(State()), relflag, parseFloat)
    {
      var startp := pos;
      // `points` always yields a point, so the source's length test here never fires.
      var v := Points();
      var p1 := Reflect(last, lastq);
      var p2 := Rel(State(), relflag, v[0]);
      AddCmd('Q', [p1, p2]);
      QuadraticBezier(startp, v[1..], relflag);
    }

    method Step()
      requires Valid()
      modifies this
      ensures Valid() && State() == Stepped(old(State()), parseFloat, arc)
    {
      var c, relflag := NextCmd();
      var startp := pos;
      if c == 'M' {
        Move(relflag);
      } else if c == 'L' {
        var pts := Points();
        Line(pts, relflag);
      } else if c == 'H' {
        var ns := Numbers();
        HLines(ns, relflag);
      } else if c == 'V' {
        var ns := Numbers();
        VLines(ns, relflag);
      } else if c == 'C' {
        var v := Points();
        CubicBezier(startp, v, relflag);
      } else if c == 'S' {
        SmoothCubic(relflag);
      } else if c == 'Q' {
        var v := Points();
        QuadraticBezier(startp, v, relflag);
      } else if c == 'T' {
        SmoothQuad(relflag);
      } else if c == 'A' {
        var v := Numbers();
        Arcs(startp, v, relflag);
      } else if c == 'Z' {
        last := first;
        lastc := last;
        lastq := last;
      }
    }

    method Run()
      requires Valid()
      modifies this
      ensures Valid() && State() == Decoded(old(State()), parseFloat, arc)
    {
      while err.None? && pos < |data|
        invariant Valid() && Decoded(State(), parseFloat, arc) == Decoded(old(State()), parseFloat, arc)
        decreases |data| - pos, if err.None? then 1 else 0
      {
        Step();
      }
    }
  }

  /** `PathDCmds`: decodes a path attribute. */
  method PathDCmds(pathd: string, parseFloat: ParseFn, arc: ArcFn) returns (r: Result<seq<PathCmd>, PathError>)
    ensures r == PathDCmdsOf(pathd, parseFloat, arc)
  {
    var d := new PathDecoder(pathd, parseFloat, arc);
    d.Run();
    if d.err.Some? {
      return Err(d.err.value);
    }
    return Ok(d.cmd);
  }

  /**
    The 'A' loop as written: its length test can never fire, so a last
    group of fewer than seven numbers is sliced past the end of the list, and
    an empty flattening reaches `addcmd`, which indexes before its first
    point. The empty flattening panics. The short slice panics when it also
    passes the list's capacity, and otherwise reads zeroed spare slots; the
    model gives `None` for every short group.
   */
  function ArcsAsWritten(d: Decoder, startp: nat, v: seq<real>, relflag: bool, arc: ArcFn): (r: Option<Decoder>)
    ensures r.Some? ==> r.value.data == d.data && r.value.pos == d.pos && r.value.err == d.err
  {
    if |v| == 0 && |v| % 7 != 0 then Some(WithError(d, InvalidArc(startp)))
    else ArcGroupsAsWritten(d, v, relflag, arc)
  }

  /** The loop of the 'A' case as written. */
  function ArcGroupsAsWritten(d: Decoder, v: seq<real>, relflag: bool, arc: ArcFn): (r: Option<Decoder>)
    ensures r.Some? ==> r.value.data == d.data && r.value.pos == d.pos && r.value.err == d.err
    decreases |v|
  {
    if |v| == 0 then Some(d)
    else if |v| < 7 then None
    else
      var pts := ArcPoints(d, v[..7], relflag, arc);
      if |pts| < 2 then None
      else
        var d1 := CmdAdded(d, 'C', pts);
        ArcGroupsAsWritten(d1.(lastc := d1.last), v[7..], relflag, arc)
  }

  /** One `addcmd` call with the points its letter takes keeps every command well formed. */
  lemma CmdAddedWellFormed(d: Decoder, c: char, v: seq<Point>)
    requires WellFormed(d.cmd) && AddArity(c, v)
    ensures WellFormed(CmdAdded(d, c, v).cmd)
  {
    var n := |d.cmd|;
    if c != 'M' && n > 0 && d.cmd[n - 1].cmd == c {
      MergedWellFormed(d.cmd[n - 1], c, v);
      ReplaceLastWellFormed(d.cmd, PathCmd(c, d.cmd[n - 1].pts + v));
    } else {
      var x := PathCmd(c, v);
      assert (d.cmd + [x])[..n] == d.cmd;
      ReplaceLastWellFormed(d.cmd + [x], x);
    }
  }

  /** Points of the same letter appended to a well-formed command keep it well formed. */
  lemma MergedWellFormed(last: PathCmd, c: char, v: seq<Point>)
    requires WellFormedCmd(last) && last.cmd == c && c != 'M' && AddArity(c, v)
    ensures WellFormedCmd(PathCmd(c, last.pts + v))
  {
    var k := |last.pts|;
    assert |last.pts + v| == k + |v|;
    if c == 'C' {
      assert k % 3 == 0 && |v| % 3 == 0;
      assert (k + |v|) % 3 == 0;
    } else if c == 'Q' {
      assert k % 2 == 0 && |v| == 2;
      assert (k + 2) % 2 == 0;
    }
  }

  /** Replacing the last command of a non-empty well-formed list, all but whose last is well formed, by a well-formed one. */
  lemma ReplaceLastWellFormed(cmds: seq<PathCmd>, x: PathCmd)
    requires |cmds| > 0 && WellFormedCmd(x)
    requires forall i :: 0 <= i < |cmds| - 1 ==> WellFormedCmd(cmds[i])
    ensures WellFormed(cmds[..|cmds| - 1] + [x])
  {
    var r := cmds[..|cmds| - 1] + [x];
    forall i | 0 <= i < |r|
      ensures WellFormedCmd(r[i])
    {
      if i < |cmds| - 1 {
        assert r[i] == cmds[i];
      }
    }
  }

  lemma {:induction false} LinesWellFormed(d: Decoder, v: seq<Point>, relflag: bool)
    requires WellFormed(d.cmd)
    ensures WellFormed(LinesAdded(d, v, relflag).cmd)
    decreases |v|
  {
    if |v| > 0 {
      var p := [Rel(d, relflag, v[0])];
      CmdAddedWellFormed(d, 'L', p);
      LinesWellFormed(CmdAdded(d, 'L', p), v[1..], relflag);
    }
  }

  lemma {:induction false} HLinesWellFormed(d: Decoder, ns: seq<real>, relflag: bool)
    requires WellFormed(d.cmd)
    ensures WellFormed(HLinesAdded(d, ns, relflag).cmd)
    decreases |ns|
  {
    if |ns| > 0 {
      var p := [HPoint(d, relflag, ns[0])];
      CmdAddedWellFormed(d, 'L', p);
      HLinesWellFormed(CmdAdded(d, 'L', p), ns[1..], relflag);
    }
  }

  lemma {:induction false} VLinesWellFormed(d: Decoder, ns: seq<real>, relflag: bool)
    requires WellFormed(d.cmd)
    ensures WellFormed(VLinesAdded(d, ns, relflag).cmd)
    decreases |ns|
  {
    if |ns| > 0 {
      var p := [VPoint(d, relflag, ns[0])];
      CmdAddedWellFormed(d, 'L', p);
      VLinesWellFormed(CmdAdded(d, 'L', p), ns[1..], relflag);
    }
  }

  lemma {:induction false} CubicsWellFormed(d: Decoder, v: seq<Point>, relflag: bool)
    requires WellFormed(d.cmd)
    ensures WellFormed(Cubics(d, v, relflag).cmd)
    decreases |v|
  {
    if |v| >= 3 {
      var p := [Rel(d, relflag, v[0]), Rel(d, relflag, v[1]), Rel(d, relflag, v[2])];
      CmdAddedWellFormed(d, 'C', p);
      CubicsWellFormed(CmdAdded(d, 'C', p), v[3..], relflag);
    }
  }

  lemma {:induction false} QuadsWellFormed(d: Decoder, v: seq<Point>, relflag: bool)
    requires WellFormed(d.cmd)
    ensures WellFormed(Quads(d, v, relflag).cmd)
    decreases |v|
  {
    if |v| >= 2 {
      var p := [Rel(d, relflag, v[0]), Rel(d, relflag, v[1])];
      CmdAddedWellFormed(d, 'Q', p);
      QuadsWellFormed(CmdAdded(d, 'Q', p), v[2..], relflag);
    }
  }

  lemma ArcAddedWellFormed(d: Decoder, w: seq<real>, relflag: bool, arc: ArcFn)
    requires |w| >= 7 && ArcShaped(arc) && WellFormed(d.cmd)
    ensures WellFormed(ArcAdded(d, w, relflag, arc).cmd)
  {
    var pts := ArcPoints(d, w, relflag, arc);
    var end := ArcEnd(d, w, relflag);
    ArcShapedAt(arc, d.last, end, Point(w[0], w[1]), w[2], w[3] != 0.0, w[4] != 0.0);
    if |pts| >= 2 {
      CmdAddedWellFormed(d, 'C', pts);
    } else if end != d.last {
      CmdAddedWellFormed(d, 'L', [end]);
    }
  }

  lemma {:induction false} ArcsWellFormed(d: Decoder, v: seq<real>, relflag: bool, arc: ArcFn)
    requires ArcShaped(arc) && WellFormed(d.cmd)
    ensures WellFormed(ArcsAdded(d, v, relflag, arc).cmd)
    decreases |v|
  {
    if |v| >= 7 {
      ArcAddedWellFormed(d, v[..7], relflag, arc);
      ArcsWellFormed(ArcAdded(d, v[..7], relflag, arc), v[7..], relflag, arc);
    }
  }

  lemma MoveWellFormed(d: Decoder, relflag: bool, parseFloat: ParseFn)
    requires d.pos <= |d.data| && WellFormed(d.cmd)
    ensures WellFormed(MoveCmd(d, relflag, parseFloat).cmd)
  {
    var (pts, d2) := PointsRead(d, parseFloat);
    var p := [Rel(d2, relflag, pts[0])];
    CmdAddedWellFormed(d2, 'M', p);
    LinesWellFormed(CmdAdded(d2, 'M', p), pts[1..], relflag);
  }

  lemma LineWellFormed(d: Decoder, relflag: bool, parseFloat: ParseFn)
    requires d.pos <= |d.data| && WellFormed(d.cmd)
    ensures WellFormed(LineCmd(d, relflag, parseFloat).cmd)
  {
    var (pts, d2) := PointsRead(d, parseFloat);
    LinesWellFormed(d2, pts, relflag);
  }

  lemma HWellFormed(d: Decoder, relflag: bool, parseFloat: ParseFn)
    requires d.pos <= |d.data| && WellFormed(d.cmd)
    ensures WellFormed(HCmd(d, relflag, parseFloat).cmd)
  {
    var (ns, d2) := NumbersRead(d, parseFloat);
    HLinesWellFormed(d2, ns, relflag);
  }

  lemma VWellFormed(d: Decoder, relflag: bool, parseFloat: ParseFn)
    requires d.pos <= |d.data| && WellFormed(d.cmd)
    ensures WellFormed(VCmd(d, relflag, parseFloat).cmd)
  {
    var (ns, d2) := NumbersRead(d, parseFloat);
    VLinesWellFormed(d2, ns, relflag);
  }

  lemma CubicWellFormed(d: Decoder, relflag: bool, parseFloat: ParseFn)
    requires d.pos <= |d.data| && WellFormed(d.cmd)
    ensures WellFormed(CubicCmd(d, relflag, parseFloat).cmd)
  {
    var (v, d2) := PointsRead(d, parseFloat);
    CubicsWellFormed(d2, v, relflag);
  }

  lemma SmoothCubicWellFormed(d: Decoder, relflag: bool, parseFloat: ParseFn)
    requires d.pos <= |d.data| && WellFormed(d.cmd)
    ensures WellFormed(SmoothCubicCmd(d, relflag, parseFloat).cmd)
  {
    var (v, d2) := PointsRead(d, parseFloat);
    if |v| >= 2 {
      var p := [Reflect(d2.last, d2.lastc), Rel(d2, relflag, v[0]), Rel(d2, relflag, v[1])];
      CmdAddedWellFormed(d2, 'C', p);
      CubicsWellFormed(CmdAdded(d2, 'C', p), v[2..], relflag);
    }
  }

  lemma QuadWellFormed(d: Decoder, relflag: bool, parseFloat: ParseFn)
    requires d.pos <= |d.data| && WellFormed(d.cmd)
    ensures WellFormed(QuadCmd(d, relflag, parseFloat).cmd)
  {
    var (v, d2) := PointsRead(d, parseFloat);
    QuadsWellFormed(d2, v, relflag);
  }

  lemma SmoothQuadWellFormed(d: Decoder, relflag: bool, parseFloat: ParseFn)
    requires d.pos <= |d.data| && WellFormed(d.cmd)
    ensures WellFormed(SmoothQuadCmd(d, relflag, parseFloat).cmd)
  {
    var (v, d2) := PointsRead(d, parseFloat);
    var p := [Reflect(d2.last, d2.lastq), Rel(d2, relflag, v[0])];
    CmdAddedWellFormed(d2, 'Q', p);
    QuadsWellFormed(CmdAdded(d2, 'Q', p), v[1..], relflag);
  }

  lemma ArcWellFormed(d: Decoder, relflag: bool, parseFloat: ParseFn, arc: ArcFn)
    requires d.pos <= |d.data| && ArcShaped(arc) && WellFormed(d.cmd)
    ensures WellFormed(ArcCmd(d, relflag, parseFloat, arc).cmd)
  {
    var (v, d2) := NumbersRead(d, parseFloat);
    ArcsWellFormed(d2, v, relflag, arc);
  }

  /** Every command `step` leaves behind is well formed, provided the arc flattening yields whole segments. */
  lemma StepWellFormed(d: Decoder, parseFloat: ParseFn, arc: ArcFn)
    requires d.pos <= |d.data| && ArcShaped(arc) && WellFormed(d.cmd)
    ensures WellFormed(Stepped(d, parseFloat, arc).cmd)
  {
    var (c, relflag, d1) := CommandAhead(d);
    if c == 'M' {
      MoveWellFormed(d1, relflag, parseFloat);
    } else if c == 'L' {
      LineWellFormed(d1, relflag, parseFloat);
    } else if c == 'H' {
      HWellFormed(d1, relflag, parseFloat);
    } else if c == 'V' {
      VWellFormed(d1, relflag, parseFloat);
    } else if c == 'C' {
      CubicWellFormed(d1, relflag, parseFloat);
    } else if c == 'S' {
      SmoothCubicWellFormed(d1, relflag, parseFloat);
    } else if c == 'Q' {
      QuadWellFormed(d1, relflag, parseFloat);
    } else if c == 'T' {
      SmoothQuadWellFormed(d1, relflag, parseFloat);
    } else if c == 'A' {
      ArcWellFormed(d1, relflag, parseFloat, arc);
    }
  }

  lemma {:induction false} DecodedWellFormed(d: Decoder, parseFloat: ParseFn, arc: ArcFn)
    requires d.pos <= |d.data| && ArcShaped(arc) && WellFormed(d.cmd)
    ensures WellFormed(Decoded(d, parseFloat, arc).cmd)
    decreases |d.data| - d.pos, if d.err.None? then 1 else 0
  {
    if d.err.None? && d.pos < |d.data| {
      StepWellFormed(d, parseFloat, arc);
      DecodedWellFormed(Stepped(d, parseFloat, arc), parseFloat, arc);
    }
  }

  /**
    What `PathDCmds` returns is made of 'M' with one point, 'L' with at
    least one, 'C' with a positive multiple of three and 'Q' with a positive
    multiple of two: the shapes the program writer accepts.
   */
  lemma PathDCmdsWellFormed(s: string, parseFloat: ParseFn, arc: ArcFn)
    requires ArcShaped(arc)
    ensures PathDCmdsOf(s, parseFloat, arc).Ok? ==> WellFormed(PathDCmdsOf(s, parseFloat, arc).value)
  {
    DecodedWellFormed(Start(s), parseFloat, arc);
  }

  /** `run` ends with an error or with the whole attribute read, and a recorded error is never replaced. */
  lemma DecodedEnds(d: Decoder, parseFloat: ParseFn, arc: ArcFn)
    requires d.pos <= |d.data|
    ensures var r := Decoded(d, parseFloat, arc);
      (r.err.Some? || r.pos == |d.data|) && (d.err.Some? ==> r == d)
  {
  }

  /** The running sums of relative moves from `p`. */
  function Accumulate(p: Point, v: seq<Point>): (r: seq<Point>)
    ensures |r| == |v|
    decreases |v|
  {
    if |v| == 0 then [] else
      var q := Point(p.x + v[0].x, p.y + v[0].y);
      [q] + Accumulate(q, v[1..])
  }

  /** Relative line points are the same lines as the running sums from the current point, given absolutely. */
  lemma {:induction false} RelativeLinesAccumulate(d: Decoder, v: seq<Point>)
    ensures LinesAdded(d, v, true) == LinesAdded(d, Accumulate(d.last, v), false)
    decreases |v|
  {
    if |v| > 0 {
      var q := Rel(d, true, v[0]);
      var d1 := CmdAdded(d, 'L', [q]);
      RelativeLinesAccumulate(d1, v[1..]);
      var a := Accumulate(d.last, v);
      assert a[0] == q && a[1..] == Accumulate(q, v[1..]);
    }
  }

  /** 'H' lines move along x only: the current point keeps its y. */
  lemma {:induction false} HLinesKeepY(d: Decoder, ns: seq<real>, relflag: bool)
    ensures HLinesAdded(d, ns, relflag).last.y == d.last.y
    decreases |ns|
  {
    if |ns| > 0 {
      HLinesKeepY(CmdAdded(d, 'L', [HPoint(d, relflag, ns[0])]), ns[1..], relflag);
    }
  }

  /** 'V' lines move along y only: the current point keeps its x. */
  lemma {:induction false} VLinesKeepX(d: Decoder, ns: seq<real>, relflag: bool)
    ensures VLinesAdded(d, ns, relflag).last.x == d.last.x
    decreases |ns|
  {
    if |ns| > 0 {
      VLinesKeepX(CmdAdded(d, 'L', [VPoint(d, relflag, ns[0])]), ns[1..], relflag);
    }
  }

  /** `run` tests for the end before skipping spaces, so a space after a final 'Z' is an unexpected end. */
  lemma SpaceAfterCloseIsError(parseFloat: ParseFn, arc: ArcFn)
    ensures PathDCmdsOf("Z ", parseFloat, arc) == Err(UnexpectedEOF)
  {
    var d0 := Start("Z ");
    var d1 := Stepped(d0, parseFloat, arc);
    assert CommandAhead(d0).0 == 'Z';
    assert d1.pos == 1 && d1.err.None?;
    assert SpaceSkipped(d1).pos == 2;
    assert Stepped(d1, parseFloat, arc).err == Some(UnexpectedEOF);
  }

  /** Wherever the 'A' loop as written does not panic, the corrected loop agrees with it. */
  lemma {:induction false} ArcsAgreeWhereNoPanic(d: Decoder, startp: nat, v: seq<real>, relflag: bool, arc: ArcFn)
    requires ArcsAsWritten(d, startp, v, relflag, arc).Some?
    ensures |v| % 7 == 0
    ensures ArcsChecked(d, startp, v, relflag, arc) == ArcsAsWritten(d, startp, v, relflag, arc).value
  {
    GroupsAgree(d, v, relflag, arc);
  }

  lemma {:induction false} GroupsAgree(d: Decoder, v: seq<real>, relflag: bool, arc: ArcFn)
    requires ArcGroupsAsWritten(d, v, relflag, arc).Some?
    ensures |v| % 7 == 0
    ensures ArcsAdded(d, v, relflag, arc) == ArcGroupsAsWritten(d, v, relflag, arc).value
    decreases |v|
  {
    if |v| > 0 {
      GroupStep(d, v, relflag, arc);
      GroupsAgree(ArcAdded(d, v[..7], relflag, arc), v[7..], relflag, arc);
    }
  }

  /** One group of seven: both loops continue from the decoder `ArcAdded` gives. */
  lemma GroupStep(d: Decoder, v: seq<real>, relflag: bool, arc: ArcFn)
    requires |v| > 0 && ArcGroupsAsWritten(d, v, relflag, arc).Some?
    ensures |v| >= 7
    ensures ArcGroupsAsWritten(d, v, relflag, arc) == ArcGroupsAsWritten(ArcAdded(d, v[..7], relflag, arc), v[7..], relflag, arc)
    ensures ArcsAdded(d, v, relflag, arc) == ArcsAdded(ArcAdded(d, v[..7], relflag, arc), v[7..], relflag, arc)
  {
    var pts := ArcPoints(d, v[..7], relflag, arc);
    assert |v| >= 7 && |pts| >= 2;
    var d1 := CmdAdded(d, 'C', pts);
    assert ArcAdded(d, v[..7], relflag, arc) == d1.(lastc := d1.last);
  }

  /**
    An arc list of one to four numbers: `numbers` grows the list by appends
    from a single element, so its capacity is at most four and slicing seven
    numbers panics as written; corrected, it is an invalid arc.
   */
  lemma ShortArcPanics(d: Decoder, startp: nat, v: seq<real>, arc: ArcFn)
    requires 1 <= |v| <= 4
    ensures ArcsAsWritten(d, startp, v, false, arc).None?
    ensures ArcsChecked(d, startp, v, false, arc) == WithError(d, InvalidArc(startp))
  {
  }

  /** An arc with a zero radius flattens to nothing; as written that panics, corrected it is a line to the end point. */
  lemma ZeroRadiusArcPanics(d: Decoder, arc: ArcFn)
    requires d.last == Origin && d.cmd == [PathCmd('M', [Origin])]
    requires arc(Origin, Point(1.0, 1.0), Point(0.0, 0.0), 0.0, false, false) == []
    ensures ArcsAsWritten(d, 3, [0.0, 0.0, 0.0, 0.0, 0.0, 1.0, 1.0], false, arc).None?
    ensures ArcsChecked(d, 3, [0.0, 0.0, 0.0, 0.0, 0.0, 1.0, 1.0], false, arc).cmd
      == [PathCmd('M', [Origin]), PathCmd('L', [Point(1.0, 1.0)])]
  {
  }

  // ---------------------------------------------------------------------------
  // The run loop as intended

  /**
    `run` as evidently intended: spaces are skipped before the test for the
    end, so trailing spaces end the attribute instead of reaching `nextcmd`.
   */
  function DecodedIntended(d: Decoder, parseFloat: ParseFn, arc: ArcFn): (r: Decoder)
    requires d.pos <= |d.data|
    ensures Follows(d, r)
    ensures r.err.Some? || r.pos == |d.data|
    decreases |d.data| - d.pos, if d.err.None? then 1 else 0
  {
    if d.err.Some? then d
    else
      var d1 := SpaceSkipped(d);
      if d1.pos == |d.data| then d1 else DecodedIntended(Stepped(d, parseFloat, arc), parseFloat, arc)
  }

  /** `PathDCmds` over the intended run loop. */
  function PathDCmdsIntendedOf(s: string, parseFloat: ParseFn, arc: ArcFn): Result<seq<PathCmd>, PathError>
  {
    var d := DecodedIntended(Start(s), parseFloat, arc);
    if d.err.Some? then Err(d.err.value) else Ok(d.cmd)
  }

  /** The intended loop accepts the attribute that `SpaceAfterCloseIsError` shows rejected. */
  lemma SpaceAfterCloseAccepted(parseFloat: ParseFn, arc: ArcFn)
    ensures PathDCmdsIntendedOf("Z ", parseFloat, arc) == Ok([])
  {
    var d0 := Start("Z ");
    var d1 := Stepped(d0, parseFloat, arc);
    assert CommandAhead(d0).0 == 'Z';
    assert d1.pos == 1 && d1.err.None? && d1.cmd == [];
    assert SpaceSkipped(d1).pos == 2;
  }

  /**
    Wherever the loop as written decodes an attribute, the intended loop
    decodes it the same way: it differs only on attributes that end in spaces.
   */
  lemma {:induction false} IntendedAgreesOnSuccess(d: Decoder, parseFloat: ParseFn, arc: ArcFn)
    requires d.pos <= |d.data|
    ensures Decoded(d, parseFloat, arc).err.None? ==> DecodedIntended(d, parseFloat, arc) == Decoded(d, parseFloat, arc)
    decreases |d.data| - d.pos, if d.err.None? then 1 else 0
  {
    if d.err.None? {
      var d1 := SpaceSkipped(d);
      if d.pos == |d.data| {
        assert d1 == d;
      } else if d1.pos == |d.data| {
        assert CommandAhead(d).0 == 0 as char;
        assert Stepped(d, parseFloat, arc).err.Some?;
      } else {
        IntendedAgreesOnSuccess(Stepped(d, parseFloat, arc), parseFloat, arc);
      }
    }
  }
}
