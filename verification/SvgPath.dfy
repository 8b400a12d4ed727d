/** SVG path data as Raphael holds it, an array of a command letter and its numbers, and what
    section 8.3 of SVG 1.1 says it draws. Coordinates are exact. */
module SvgPath {
  datatype Segment = Segment(cmd: char, args: seq<real>)

  type Path = seq<Segment>

  predicate IsLower(c: char) {
    'a' <= c <= 'z'
  }

  predicate IsUpper(c: char) {
    'A' <= c <= 'Z'
  }

  function Lower(c: char): (r: char)
    ensures IsUpper(c) ==> IsLower(r)
  {
    if IsUpper(c) then c + ('a' - 'A') else c
  }

  function Upper(c: char): (r: char)
    ensures IsLower(c) ==> IsUpper(r)
  {
    if IsLower(c) then c - ('a' - 'A') else c
  }

  /** How many numbers each command takes, by its lower-case letter; -1 if it is no command. */
  function ParamCount(c: char): int {
    match c
    case 'z' => 0
    case 'h' => 1
    case 'v' => 1
    case 'm' => 2
    case 'l' => 2
    case 't' => 2
    case 'q' => 4
    case 's' => 4
    case 'c' => 6
    case 'a' => 7
    case _ => -1
  }

  predicate IsSegment(s: Segment) {
    |s.args| == ParamCount(Lower(s.cmd))
  }

  /** Path data as parsePathString yields it, which begins with a moveto. */
  predicate WellFormed(p: Path) {
    p != [] && Lower(p[0].cmd) == 'm' && forall s | s in p :: IsSegment(s)
  }

  // ----- What a path draws -----

  datatype Point = Point(x: real, y: real) {
    function Plus(q: Point): Point {
      Point(x + q.x, y + q.y)
    }

    function Minus(q: Point): Point {
      Point(x - q.x, y - q.y)
    }

    /** The point on the other side of q, at the same distance. */
    function Across(q: Point): Point {
      Point(2.0 * q.x - x, 2.0 * q.y - y)
    }
  }

  const ORIGIN := Point(0.0, 0.0)

  /** A segment with all its points absolute, those that a smooth curve implies included. The flags
      and radii of an arc are kept as they are. */
  datatype Drawn =
    | MoveTo(p: Point)
    | LineTo(p: Point)
    | CurveTo(c1: Point, c2: Point, p: Point)
    | SmoothCurveTo(c1: Point, c2: Point, p: Point)
    | QuadTo(c1: Point, p: Point)
    | SmoothQuadTo(c1: Point, p: Point)
    | ArcTo(shape: seq<real>, p: Point)
    | ClosePath

  /** The current point, the start of the current subpath, and the points across from which a smooth
      cubic and a smooth quadratic have their first control point: the last control point of a curve
      of the same degree just before, else the current point. */
  datatype Pen = Pen(at: Point, start: Point, cubic: Point, quad: Point)

  /** The pen when the last command was no curve. */
  function Resting(at: Point, start: Point): Pen {
    Pen(at, start, at, at)
  }

  const FRESH := Resting(ORIGIN, ORIGIN)

  /** What one segment draws: lower-case commands are relative to the current point. */
  function DrawnBy(pen: Pen, s: Segment): Drawn
    requires IsSegment(s)
  {
    var o := if IsLower(s.cmd) then pen.at else ORIGIN;
    var a := s.args;
    match Lower(s.cmd)
    case 'm' => MoveTo(Point(a[0], a[1]).Plus(o))
    case 'l' => LineTo(Point(a[0], a[1]).Plus(o))
    case 'h' => LineTo(Point(a[0] + o.x, pen.at.y))
    case 'v' => LineTo(Point(pen.at.x, a[0] + o.y))
    case 'c' => CurveTo(Point(a[0], a[1]).Plus(o), Point(a[2], a[3]).Plus(o), Point(a[4], a[5]).Plus(o))
    case 's' => SmoothCurveTo(pen.cubic.Across(pen.at), Point(a[0], a[1]).Plus(o), Point(a[2], a[3]).Plus(o))
    case 'q' => QuadTo(Point(a[0], a[1]).Plus(o), Point(a[2], a[3]).Plus(o))
    case 't' => SmoothQuadTo(pen.quad.Across(pen.at), Point(a[0], a[1]).Plus(o))
    case 'a' => ArcTo(a[..5], Point(a[5], a[6]).Plus(o))
    case _ => ClosePath
  }

  function Moved(pen: Pen, d: Drawn): Pen {
    match d
    case ClosePath => Resting(pen.start, pen.start)
    case MoveTo(p) => Resting(p, p)
    case CurveTo(_, c2, p) => Pen(p, pen.start, c2, p)
    case SmoothCurveTo(_, c2, p) => Pen(p, pen.start, c2, p)
    case QuadTo(c1, p) => Pen(p, pen.start, p, c1)
    case SmoothQuadTo(c1, p) => Pen(p, pen.start, p, c1)
    case _ => Resting(d.p, pen.start)
  }

  function Draw(p: Path, pen: Pen): (r: seq<Drawn>)
    requires forall s | s in p :: IsSegment(s)
    ensures |r| == |p|
  {
    if p == [] then []
    else
      var d := DrawnBy(pen, p[0]);
      [d] + Draw(p[1..], Moved(pen, d))
  }
}
