/** How far the rounding of pathToRelative can move what a path draws. */
module PathDrift {
  import opened SvgPath
  import opened PathRewriting
  import opened PathMeaning

  function Abs(r: real): real {
    if r >= 0.0 then r else -r
  }

  predicate Near(p: Point, q: Point, e: real) {
    Abs(p.x - q.x) <= e && Abs(p.y - q.y) <= e
  }

  /** The same kind of segment, with every point that the command names within e in each coordinate,
      and a control point that a smooth curve implies within f. The radii and flags of an arc agree. */
  predicate NearDrawn(d: Drawn, c: Drawn, e: real, f: real) {
    match (d, c)
    case (MoveTo(p), MoveTo(q)) => Near(p, q, e)
    case (LineTo(p), LineTo(q)) => Near(p, q, e)
    case (CurveTo(p1, p2, p), CurveTo(q1, q2, q)) => Near(p1, q1, e) && Near(p2, q2, e) && Near(p, q, e)
    case (SmoothCurveTo(p1, p2, p), SmoothCurveTo(q1, q2, q)) => Near(p1, q1, f) && Near(p2, q2, e) && Near(p, q, e)
    case (QuadTo(p1, p), QuadTo(q1, q)) => Near(p1, q1, e) && Near(p, q, e)
    case (SmoothQuadTo(p1, p), SmoothQuadTo(q1, q)) => Near(p1, q1, f) && Near(p, q, e)
    case (ArcTo(g, p), ArcTo(h, q)) => g == h && Near(p, q, e)
    case (ClosePath, ClosePath) => true
    case _ => false
  }

  /** The rounding errors of k coordinates. */
  function Error(k: nat): real {
    0.0005 * k as real
  }

  // ----- What the error depends on: the commands -----

  function Commands(p: Path): (cs: seq<char>)
    ensures |cs| == |p|
  {
    seq(|p|, i requires 0 <= i < |p| => p[i].cmd)
  }

  /** The later subpaths that have been opened by an absolute moveto and closed, each counted once;
      and whether the current subpath is one that can still be added. */
  datatype Count = Count(closed: nat, open: bool)

  function Next(n: Count, cmd: char): Count {
    if cmd == 'M' then n.(open := true)
    else if cmd == 'm' then n.(open := false)
    else if Lower(cmd) == 'z' && n.open then Count(n.closed + 1, false)
    else n
  }

  /** After the first i commands; the first moveto opens no later subpath. */
  function CountAt(cs: seq<char>, i: nat): Count
    requires i <= |cs|
  {
    if i <= 1 then Count(0, false) else Next(CountAt(cs, i - 1), cs[i - 1])
  }

  predicate IsCubic(c: char) {
    Lower(c) in "cs"
  }

  predicate IsQuad(c: char) {
    Lower(c) in "qt"
  }

  /** How many control points in a row are found by reflection up to a command, the one before it
      being prev with m: at most one for a smooth cubic, whose last control point is given, and one
      more for each smooth quadratic. */
  function Reflected(cmd: char, prev: char, m: nat): nat {
    if Lower(cmd) == 's' && IsCubic(prev) then 1
    else if Lower(cmd) == 't' && IsQuad(prev) then m + 1
    else 0
  }

  function Reflections(cs: seq<char>, i: nat): nat
    requires i < |cs|
  {
    if i == 0 then 0 else Reflected(cs[i], cs[i - 1], Reflections(cs, i - 1))
  }

  // ----- One step -----

  lemma RoundError(r: real)
    ensures Abs(Round3(r) - r) <= 0.0005
  {
    var n := if r >= 0.0 then (r * 1000.0 + 0.5).Floor else (-r * 1000.0 + 0.5).Floor;
  }

  /** Point p is q moved by d, to within e. */
  predicate Off(p: Point, q: Point, d: Point, e: real) {
    Abs(p.x - q.x - d.x) <= e && Abs(p.y - q.y - d.y) <= e
  }

  predicate OffDrawn(d: Drawn, c: Drawn, by_: Point, e: real, f: real) {
    match (d, c)
    case (MoveTo(p), MoveTo(q)) => Off(p, q, by_, e)
    case (LineTo(p), LineTo(q)) => Off(p, q, by_, e)
    case (CurveTo(p1, p2, p), CurveTo(q1, q2, q)) => Off(p1, q1, by_, e) && Off(p2, q2, by_, e) && Off(p, q, by_, e)
    case (SmoothCurveTo(p1, p2, p), SmoothCurveTo(q1, q2, q)) =>
      Off(p1, q1, by_, f) && Off(p2, q2, by_, e) && Off(p, q, by_, e)
    case (QuadTo(p1, p), QuadTo(q1, q)) => Off(p1, q1, by_, e) && Off(p, q, by_, e)
    case (SmoothQuadTo(p1, p), SmoothQuadTo(q1, q)) => Off(p1, q1, by_, f) && Off(p, q, by_, e)
    case (ArcTo(g, p), ArcTo(h, q)) => g == h && Off(p, q, by_, e)
    case (ClosePath, ClosePath) => true
    case _ => false
  }

  function At(t: Tracker): Point {
    Point(t.x, t.y)
  }

  function StartOf(t: Tracker): Point {
    Point(t.mx, t.my)
  }

  /** The loop variables and the pens of the original and of the result, after some steps: x and y
      stay within 0.0005 of the original's pen, and only the result's pen drifts away from them, by
      0.0005 for each later subpath that was closed. */
  predicate Follows(t: Tracker, orig: Pen, res: Pen, n: Count, prev: char, m: nat) {
    var d := res.at.Minus(At(t));
    && Near(res.at, At(t), Error(n.closed))
    && Near(At(t), orig.at, Error(1))
    && Near(StartOf(t), orig.start, Error(1))
    && Near(res.start, StartOf(t), Error(if n.open then n.closed + 1 else n.closed))
    && (if IsCubic(prev) then Off(res.cubic, orig.cubic, d, Error(1)) else res.cubic == res.at && orig.cubic == orig.at)
    && (if IsQuad(prev) then Off(res.quad, orig.quad, d, Error(2 * m + 1))
        else res.quad == res.at && orig.quad == orig.at)
  }

  lemma LowerIsLower(c: char)
    ensures Lower(Lower(c)) == Lower(c)
    ensures ParamCount(Lower(c)) >= 0 ==> IsLower(Lower(c))
    ensures ParamCount(Lower(c)) >= 0 ==> IsLower(c) || IsUpper(c)
  {
  }

  /** The loop's x and y move with the pen of the result. */
  lemma TrackMovesWithPen(t: Tracker, res: Pen, s: Segment)
    requires IsSegment(s) && Lower(s.cmd) != 'z'
    ensures Moved(res, DrawnBy(res, RelativeSegment(t, s))).at.Minus(At(RelativeTrack(t, s))) == res.at.Minus(At(t))
  {
    hide Round3;
    LowerIsLower(s.cmd);
    var r := RelativeSegment(t, s);
    assert IsLower(r.cmd) && Lower(r.cmd) == r.cmd;
  }

  /** Every point that an absolute command names is rounded in itself. */
  lemma AbsoluteOff(t: Tracker, orig: Pen, res: Pen, s: Segment, f: real)
    requires IsSegment(s) && IsUpper(s.cmd)
    requires Near(At(t), orig.at, Error(1))
    requires Lower(s.cmd) == 's' ==> Off(res.cubic.Across(res.at), orig.cubic.Across(orig.at), res.at.Minus(At(t)), f)
    requires Lower(s.cmd) == 't' ==> Off(res.quad.Across(res.at), orig.quad.Across(orig.at), res.at.Minus(At(t)), f)
    ensures OffDrawn(DrawnBy(res, RelativeSegment(t, s)), DrawnBy(orig, s), res.at.Minus(At(t)), Error(1), f)
  {
    hide Round3, DrawnBy, RelativeSegment, OffDrawn;
    forall i | 0 <= i < |s.args|
      ensures Abs(t.x + Round3(s.args[i] - t.x) - s.args[i]) <= Error(1)
      ensures Abs(t.y + Round3(s.args[i] - t.y) - s.args[i]) <= Error(1)
    {
      RoundError(s.args[i] - t.x);
      RoundError(s.args[i] - t.y);
    }
    OffOfRounded(t, orig, res, s, f);
  }

  lemma OffOfRounded(t: Tracker, orig: Pen, res: Pen, s: Segment, f: real)
    requires IsSegment(s) && IsUpper(s.cmd) && Near(At(t), orig.at, Error(1))
    requires forall i | 0 <= i < |s.args| :: Abs(t.x + Round3(s.args[i] - t.x) - s.args[i]) <= Error(1)
    requires forall i | 0 <= i < |s.args| :: Abs(t.y + Round3(s.args[i] - t.y) - s.args[i]) <= Error(1)
    requires Lower(s.cmd) == 's' ==> Off(res.cubic.Across(res.at), orig.cubic.Across(orig.at), res.at.Minus(At(t)), f)
    requires Lower(s.cmd) == 't' ==> Off(res.quad.Across(res.at), orig.quad.Across(orig.at), res.at.Minus(At(t)), f)
    ensures OffDrawn(DrawnBy(res, RelativeSegment(t, s)), DrawnBy(orig, s), res.at.Minus(At(t)), Error(1), f)
  {
    hide Round3, Abs, Error, Point.Across;
    UpperOfLower(s.cmd);
    LowerIsLower(s.cmd);
    var r := RelativeSegment(t, s);
    assert r.cmd == 'a' ==> r.args[..5] == s.args[..5];
  }

  /** A relative command is not rounded, and carries the distance of the current point on. */
  lemma RelativeOff(t: Tracker, orig: Pen, res: Pen, s: Segment, f: real)
    requires IsSegment(s) && IsLower(s.cmd)
    requires Near(At(t), orig.at, Error(1))
    requires Lower(s.cmd) == 's' ==> Off(res.cubic.Across(res.at), orig.cubic.Across(orig.at), res.at.Minus(At(t)), f)
    requires Lower(s.cmd) == 't' ==> Off(res.quad.Across(res.at), orig.quad.Across(orig.at), res.at.Minus(At(t)), f)
    ensures OffDrawn(DrawnBy(res, RelativeSegment(t, s)), DrawnBy(orig, s), res.at.Minus(At(t)), Error(1), f)
  {
    hide Round3, Abs, Error, Point.Across;
    LowerIsLower(s.cmd);
    assert RelativeSegment(t, s) == s;
    assert Off(res.at, orig.at, res.at.Minus(At(t)), Error(1)) by {
      assert res.at.x - orig.at.x - (res.at.x - t.x) == t.x - orig.at.x;
      assert res.at.y - orig.at.y - (res.at.y - t.y) == t.y - orig.at.y;
    }
    forall a: Point
      ensures Off(a.Plus(res.at), a.Plus(orig.at), res.at.Minus(At(t)), Error(1))
    {
      assert a.x + res.at.x - (a.x + orig.at.x) == res.at.x - orig.at.x;
      assert a.y + res.at.y - (a.y + orig.at.y) == res.at.y - orig.at.y;
    }
  }

  /** Reflecting adds twice the distance of the current point. */
  lemma ImpliedOff(t: Tracker, orig: Pen, res: Pen, n: Count, prev: char, m: nat)
    requires Follows(t, orig, res, n, prev, m)
    ensures Off(res.cubic.Across(res.at), orig.cubic.Across(orig.at), res.at.Minus(At(t)),
                Error(if IsCubic(prev) then 3 else 1))
    ensures Off(res.quad.Across(res.at), orig.quad.Across(orig.at), res.at.Minus(At(t)),
                Error(if IsQuad(prev) then 2 * m + 3 else 1))
  {
    AcrossOff(res.at, orig.at, res.cubic, orig.cubic, At(t), if IsCubic(prev) then Error(1) else 0.0);
    AcrossOff(res.at, orig.at, res.quad, orig.quad, At(t), if IsQuad(prev) then Error(2 * m + 1) else 0.0);
  }

  lemma AcrossOff(p: Point, q: Point, cp: Point, cq: Point, at: Point, e: real)
    requires Near(at, q, Error(1))
    requires if cp == p && cq == q then true else Off(cp, cq, p.Minus(at), e)
    ensures if cp == p && cq == q then Off(cp.Across(p), cq.Across(q), p.Minus(at), Error(1))
            else Off(cp.Across(p), cq.Across(q), p.Minus(at), e + Error(2))
  {
  }

  lemma StepOff(t: Tracker, orig: Pen, res: Pen, s: Segment, n: Count, prev: char, m: nat)
    requires IsSegment(s) && Follows(t, orig, res, n, prev, m)
    ensures OffDrawn(DrawnBy(res, RelativeSegment(t, s)), DrawnBy(orig, s), res.at.Minus(At(t)),
                     Error(1), Error(2 * Reflected(s.cmd, prev, m) + 1))
  {
    hide DrawnBy, RelativeSegment, OffDrawn, Off;
    LowerIsLower(s.cmd);
    ImpliedOff(t, orig, res, n, prev, m);
    var f := Error(2 * Reflected(s.cmd, prev, m) + 1);
    if IsUpper(s.cmd) {
      AbsoluteOff(t, orig, res, s, f);
    } else {
      RelativeOff(t, orig, res, s, f);
    }
  }

  lemma OffIsNear(d: Drawn, c: Drawn, by_: Point, k: nat, f: nat)
    requires OffDrawn(d, c, by_, Error(1), Error(f)) && Near(by_, ORIGIN, Error(k))
    ensures NearDrawn(d, c, Error(k + 1), Error(k + f))
  {
    forall p, q, e: nat | Off(p, q, by_, Error(e))
      ensures Near(p, q, Error(k + e))
    {
    }
    hide Off, Near, Abs, Error;
  }

  /** Every point of the rounded segment is as close as the variables allow. */
  lemma StepNear(t: Tracker, orig: Pen, res: Pen, s: Segment, n: Count, prev: char, m: nat)
    requires IsSegment(s) && Follows(t, orig, res, n, prev, m)
    ensures NearDrawn(DrawnBy(res, RelativeSegment(t, s)), DrawnBy(orig, s),
                      Error(n.closed + 1), Error(n.closed + 2 * Reflected(s.cmd, prev, m) + 1))
  {
    hide DrawnBy, RelativeSegment, OffDrawn, NearDrawn;
    StepOff(t, orig, res, s, n, prev, m);
    OffIsNear(DrawnBy(res, RelativeSegment(t, s)), DrawnBy(orig, s), res.at.Minus(At(t)), n.closed,
              2 * Reflected(s.cmd, prev, m) + 1);
  }

  /** Only a moveto changes the start of the subpath, and the loop records it unrounded. */
  lemma StartFollows(t: Tracker, orig: Pen, res: Pen, s: Segment)
    requires IsSegment(s)
    ensures var u, c, d := RelativeTrack(t, s), DrawnBy(orig, s), DrawnBy(res, RelativeSegment(t, s));
            && (c.MoveTo? <==> Lower(s.cmd) == 'm') && (d.MoveTo? <==> Lower(s.cmd) == 'm')
            && (c.ClosePath? <==> Lower(s.cmd) == 'z') && (d.ClosePath? <==> Lower(s.cmd) == 'z')
            && (c.CurveTo? || c.SmoothCurveTo? <==> IsCubic(s.cmd)) && (c.QuadTo? || c.SmoothQuadTo? <==> IsQuad(s.cmd))
            && (s.cmd == 'M' ==> StartOf(u) == c.p)
            && (s.cmd == 'm' ==> StartOf(u) == At(u) && At(u).Minus(At(t)) == c.p.Minus(orig.at))
            && (Lower(s.cmd) == 'z' ==> u == t.(x := t.mx, y := t.my))
            && (Lower(s.cmd) != 'm' ==> StartOf(u) == StartOf(t))
  {
    hide Round3;
    LowerIsLower(s.cmd);
  }

  /** Closing a later subpath that an absolute moveto has opened is the only thing that lets the
      distance grow. */
  lemma StepFollows(t: Tracker, orig: Pen, res: Pen, s: Segment, n: Count, prev: char, m: nat)
    requires IsSegment(s) && Follows(t, orig, res, n, prev, m)
    ensures Follows(RelativeTrack(t, s), Moved(orig, DrawnBy(orig, s)), Moved(res, DrawnBy(res, RelativeSegment(t, s))),
                    Next(n, s.cmd), s.cmd, Reflected(s.cmd, prev, m))
  {
    hide DrawnBy, RelativeSegment, RelativeTrack;
    StepOff(t, orig, res, s, n, prev, m);
    StartFollows(t, orig, res, s);
    LowerIsLower(s.cmd);
    if Lower(s.cmd) != 'z' {
      TrackMovesWithPen(t, res, s);
    }
  }

  // ----- Whole paths -----

  /** The bounds for command i. */
  function NamedBound(cs: seq<char>, i: nat): real
    requires i < |cs|
  {
    Error(CountAt(cs, i).closed + 1)
  }

  function ImpliedBound(cs: seq<char>, i: nat): real
    requires i < |cs|
  {
    Error(CountAt(cs, i).closed + 2 * Reflections(cs, i) + 1)
  }

  lemma {:induction false} DriftFrom(p: Path, i: nat, t: Tracker, orig: Pen, res: Pen)
    requires 0 < i <= |p| && forall s | s in p :: IsSegment(s)
    requires var cs := Commands(p); Follows(t, orig, res, CountAt(cs, i), cs[i - 1], Reflections(cs, i - 1))
    ensures var cs, c, d := Commands(p), Draw(p[i..], orig), Draw(RelativeFrom(t, p[i..]), res);
            forall j | i <= j < |p| :: NearDrawn(d[j - i], c[j - i], NamedBound(cs, j), ImpliedBound(cs, j))
    decreases |p| - i
  {
    hide DrawnBy, Moved, RelativeTrack, RelativeSegment, Follows, NearDrawn, Error, Draw, RelativeFrom, Next, Reflected;
    var cs := Commands(p);
    if i == |p| {
    } else {
      assert p[i] in p;
      var n, prev, m := CountAt(cs, i), cs[i - 1], Reflections(cs, i - 1);
      StepNear(t, orig, res, p[i], n, prev, m);
      StepFollows(t, orig, res, p[i], n, prev, m);
      var t', orig' := RelativeTrack(t, p[i]), Moved(orig, DrawnBy(orig, p[i]));
      var r := RelativeSegment(t, p[i]);
      DriftFrom(p, i + 1, t', orig', Moved(res, DrawnBy(res, r)));
      DrawStep(p, i, t, orig, res);
    }
  }

  lemma DrawStep(p: Path, i: nat, t: Tracker, orig: Pen, res: Pen)
    requires i < |p| && forall s | s in p :: IsSegment(s)
    ensures IsSegment(p[i])
    ensures var c, r := DrawnBy(orig, p[i]), RelativeSegment(t, p[i]);
            && Draw(p[i..], orig) == [c] + Draw(p[i + 1..], Moved(orig, c))
            && Draw(RelativeFrom(t, p[i..]), res)
               == [DrawnBy(res, r)]
                  + Draw(RelativeFrom(RelativeTrack(t, p[i]), p[i + 1..]), Moved(res, DrawnBy(res, r)))
  {
    hide DrawnBy, Moved, RelativeTrack, RelativeSegment;
    assert p[i] in p && p[i..][1..] == p[i + 1..];
    var rest := RelativeFrom(RelativeTrack(t, p[i]), p[i + 1..]);
    assert RelativeFrom(t, p[i..])[1..] == rest;
  }

  /** The first moveto leaves the loop variables and both pens at one point. */
  lemma {:induction false} FirstDraws(p: Path)
    requires WellFormed(p)
    ensures IsSegment(p[0]) && |p[0].args| == 2
    ensures var at := Point(p[0].args[0], p[0].args[1]);
            var pen := Resting(at, at);
            && Draw(p, FRESH) == [MoveTo(at)] + Draw(p[1..], pen)
            && Draw(Relative(p), FRESH) == [MoveTo(at)] + Draw(RelativeFrom(TrackerOf(pen), p[1..]), pen)
  {
    assert p[0] in p;
    LowerIsLower(p[0].cmd);
    var at := Point(p[0].args[0], p[0].args[1]);
    assert DrawnBy(FRESH, p[0]) == MoveTo(at);
    assert p[0].args == [at.x, at.y];
    var r := RelativeFrom(TrackerOf(Resting(at, at)), p[1..]);
    assert Relative(p) == [p[0]] + r;
    assert Relative(p)[1..] == r;
  }

  lemma Together(at: Point, prev: char)
    requires Lower(prev) == 'm'
    ensures Follows(TrackerOf(Resting(at, at)), Resting(at, at), Resting(at, at), Count(0, false), prev, 0)
  {
  }

  lemma Nearest(at: Point, e: real, f: real)
    requires e >= 0.0
    ensures NearDrawn(MoveTo(at), MoveTo(at), e, f)
  {
  }

  /** For every path: each coordinate that the relative form draws is within 0.0005 * (k + 1) of the
      original where a command names it, and within 0.0005 * (k + 2 * m + 1) for a control point that
      m reflections in a row imply; k counts the subpaths that were closed before, other than the
      first and those that a relative moveto opens. */
  lemma {:induction false} Drift(p: Path)
    requires WellFormed(p)
    ensures forall i | 0 <= i < |p| ::
              NearDrawn(Draw(Relative(p), FRESH)[i], Draw(p, FRESH)[i],
                        NamedBound(Commands(p), i), ImpliedBound(Commands(p), i))
  {
    hide NearDrawn, Draw, RelativeFrom, Relative, ParamCount, Follows;
    FirstDraws(p);
    var at := Point(p[0].args[0], p[0].args[1]);
    var pen := Resting(at, at);
    Together(at, p[0].cmd);
    assert p[0] in p;
    DriftFrom(p, 1, TrackerOf(pen), pen, pen);
    Nearest(at, NamedBound(Commands(p), 0), ImpliedBound(Commands(p), 0));
  }
}
