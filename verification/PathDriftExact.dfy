/** The bounds on the drift are exact: paths that attain them, and the commands for which they can be
    told apart. */
module PathDriftExact {
  import opened SvgPath
  import opened PathRewriting
  import opened PathMeaning
  import opened PathDrift

  /** Half a thousandth, which is rounded away from 0. */
  const HALF := 0.0005

  predicate IsHalf(r: real) {
    r == 0.0 || r == HALF || r == -HALF
  }

  /** How far from the loop's x and y an absolute command puts its control points and its end. Relative
      ones have zeros. */
  datatype Amount = Amount(control: real, end: real)

  predicate IsCommand(cmd: char) {
    ParamCount(Lower(cmd)) >= 0
  }

  predicate AreCommands(cs: seq<char>) {
    forall c | c in cs :: IsCommand(c)
  }

  /** The commands of a path. */
  predicate IsPath(cs: seq<char>) {
    cs != [] && Lower(cs[0]) == 'm' && AreCommands(cs)
  }

  function Nudge(t: Tracker, cmd: char, a: Amount): (s: Segment)
    requires IsCommand(cmd)
    ensures IsSegment(s) && s.cmd == cmd
  {
    if IsUpper(cmd) then NudgeUpper(t, cmd, a) else Segment(cmd, seq(ParamCount(Lower(cmd)), _ => 0.0))
  }

  function NudgeUpper(t: Tracker, cmd: char, a: Amount): (s: Segment)
    requires IsCommand(cmd) && IsUpper(cmd)
    ensures IsSegment(s) && s.cmd == cmd
  {
    var x, y, u, v := t.x + a.control, t.y + a.control, t.x + a.end, t.y + a.end;
    match Lower(cmd)
    case 'z' => Segment(cmd, [])
    case 'h' => Segment(cmd, [u])
    case 'v' => Segment(cmd, [v])
    case 'q' => Segment(cmd, [x, y, u, v])
    case 's' => Segment(cmd, [x, y, u, v])
    case 'c' => Segment(cmd, [x, y, x, y, u, v])
    case 'a' => Segment(cmd, [0.0, 0.0, 0.0, 0.0, 0.0, u, v])
    case _ => Segment(cmd, [u, v])
  }

  /** What such a command draws from a pen, around point o. */
  function DrawnAround(pen: Pen, cmd: char, o: Point, control: real, end: real): Drawn
    requires IsCommand(cmd)
  {
    var c, e := o.Plus(Point(control, control)), o.Plus(Point(end, end));
    match Lower(cmd)
    case 'm' => MoveTo(e)
    case 'l' => LineTo(e)
    case 'h' => LineTo(Point(e.x, pen.at.y))
    case 'v' => LineTo(Point(pen.at.x, e.y))
    case 'c' => CurveTo(c, c, e)
    case 's' => SmoothCurveTo(pen.cubic.Across(pen.at), c, e)
    case 'q' => QuadTo(c, e)
    case 't' => SmoothQuadTo(pen.quad.Across(pen.at), e)
    case 'a' => ArcTo([0.0, 0.0, 0.0, 0.0, 0.0], e)
    case _ => ClosePath
  }

  /** The first thing that they draw, and that their relative form does. */
  function FirstOriginal(cmd: char, t: Tracker, orig: Pen, a: Amount): Drawn
    requires IsCommand(cmd)
  {
    if IsUpper(cmd) then DrawnAround(orig, cmd, At(t), a.control, a.end)
    else DrawnAround(orig, cmd, orig.at, 0.0, 0.0)
  }

  function FirstResult(cmd: char, res: Pen, a: Amount): Drawn
    requires IsCommand(cmd)
  {
    if IsUpper(cmd) then DrawnAround(res, cmd, res.at, 2.0 * a.control, 2.0 * a.end)
    else DrawnAround(res, cmd, res.at, 0.0, 0.0)
  }

  function TrackAround(t: Tracker, cmd: char, amount: real): Tracker {
    var end := if IsUpper(cmd) then amount else 0.0;
    match Lower(cmd)
    case 'z' => t.(x := t.mx, y := t.my)
    case 'h' => t.(x := t.x + 2.0 * end)
    case 'v' => t.(y := t.y + 2.0 * end)
    case 'm' => Tracker(t.x + 2.0 * end, t.y + 2.0 * end, t.x + end, t.y + end)
    case _ => t.(x := t.x + 2.0 * end, y := t.y + 2.0 * end)
  }

  lemma HalfRounds(r: real, x: real)
    requires IsHalf(r)
    ensures Round3(x + r - x) == 2.0 * r
  {
    assert x + r - x == r;
  }

  /** The relative form of an absolute one: rounding doubles the amounts. */
  function Doubled(cmd: char, a: Amount): (s: Segment)
    requires IsCommand(cmd) && IsUpper(cmd)
    ensures IsSegment(s)
  {
    LowerIsLower(cmd);
    var x, u := 2.0 * a.control, 2.0 * a.end;
    match Lower(cmd)
    case 'z' => Segment('z', [])
    case 'h' => Segment('h', [u])
    case 'v' => Segment('v', [u])
    case 'q' => Segment('q', [x, x, u, u])
    case 's' => Segment('s', [x, x, u, u])
    case 'c' => Segment('c', [x, x, x, x, u, u])
    case 'a' => Segment('a', [0.0, 0.0, 0.0, 0.0, 0.0, u, u])
    case _ => Segment(Lower(cmd), [u, u])
  }

  lemma NudgeRelative(t: Tracker, cmd: char, a: Amount)
    requires IsCommand(cmd) && IsUpper(cmd) && IsHalf(a.control) && IsHalf(a.end)
    ensures RelativeSegment(t, Nudge(t, cmd, a)) == Doubled(cmd, a)
  {
    hide Round3, IsHalf;
    HalfRounds(a.control, t.x);
    HalfRounds(a.control, t.y);
    HalfRounds(a.end, t.x);
    HalfRounds(a.end, t.y);
    assert RelativeArgs(t, Nudge(t, cmd, a)) == Doubled(cmd, a).args;
  }

  lemma NudgeDraws(t: Tracker, orig: Pen, res: Pen, cmd: char, a: Amount)
    requires IsCommand(cmd) && IsHalf(a.control) && IsHalf(a.end)
    ensures var s := Nudge(t, cmd, a);
            && DrawnBy(orig, s) == FirstOriginal(cmd, t, orig, a)
            && DrawnBy(res, RelativeSegment(t, s)) == FirstResult(cmd, res, a)
            && RelativeTrack(t, s) == TrackAround(t, cmd, a.end)
  {
    hide RelativeSegment, RelativeTrack, IsHalf, TrackAround;
    LowerIsLower(cmd);
    if IsUpper(cmd) {
      NudgeRelative(t, cmd, a);
      NudgeTracks(t, cmd, a);
      DoubledDraws(res, cmd, a);
    } else {
      StillDraws(t, orig, cmd, a);
      StillDraws(t, res, cmd, a);
    }
  }

  lemma DoubledDraws(res: Pen, cmd: char, a: Amount)
    requires IsCommand(cmd) && IsUpper(cmd)
    ensures DrawnBy(res, Doubled(cmd, a)) == FirstResult(cmd, res, a)
  {
    LowerIsLower(cmd);
  }

  lemma NudgeTracks(t: Tracker, cmd: char, a: Amount)
    requires IsCommand(cmd) && IsUpper(cmd) && RelativeSegment(t, Nudge(t, cmd, a)) == Doubled(cmd, a)
    ensures RelativeTrack(t, Nudge(t, cmd, a)) == TrackAround(t, cmd, a.end)
  {
    hide RelativeSegment;
    LowerIsLower(cmd);
  }

  /** Zeros are not rounded, and stay where they are. */
  lemma StillDraws(t: Tracker, pen: Pen, cmd: char, a: Amount)
    requires IsCommand(cmd) && IsLower(cmd)
    ensures var s := Nudge(t, cmd, a);
            && RelativeSegment(t, s) == s && DrawnBy(pen, s) == DrawnAround(pen, cmd, pen.at, 0.0, 0.0)
            && RelativeTrack(t, s) == TrackAround(t, cmd, a.end)
  {
    assert Lower(cmd) == cmd;
  }

  // ----- Paths with given commands and amounts -----

  /** Commands j and later, the absolute ones at their amounts from where the loop then is. */
  function Rest(cs: seq<char>, j: nat, t: Tracker, f: nat -> Amount): (p: Path)
    requires AreCommands(cs) && j <= |cs|
    ensures |p| == |cs| - j
    ensures forall i | 0 <= i < |p| :: IsSegment(p[i]) && p[i].cmd == cs[j + i]
    decreases |cs| - j
  {
    if j == |cs| then []
    else [Nudge(t, cs[j], f(j))] + Rest(cs, j + 1, TrackAround(t, cs[j], f(j).end), f)
  }

  function Made(cs: seq<char>, f: nat -> Amount): (p: Path)
    requires IsPath(cs)
    ensures WellFormed(p) && Commands(p) == cs
  {
    [Segment(cs[0], [0.0, 0.0])] + Rest(cs, 1, ZERO, f)
  }

  /** What these commands draw, and what their relative form does. */
  function Originals(cs: seq<char>, j: nat, t: Tracker, orig: Pen, f: nat -> Amount): (c: seq<Drawn>)
    requires AreCommands(cs) && j <= |cs|
    ensures |c| == |cs| - j
  {
    Draw(Rest(cs, j, t, f), orig)
  }

  function Results(cs: seq<char>, j: nat, t: Tracker, res: Pen, f: nat -> Amount): (d: seq<Drawn>)
    requires AreCommands(cs) && j <= |cs|
    ensures |d| == |cs| - j
  {
    Draw(RelativeFrom(t, Rest(cs, j, t, f)), res)
  }

  lemma RestDraws(cs: seq<char>, j: nat, t: Tracker, orig: Pen, res: Pen, f: nat -> Amount)
    requires AreCommands(cs) && j < |cs| && IsHalf(f(j).control) && IsHalf(f(j).end)
    ensures var c, u := FirstOriginal(cs[j], t, orig, f(j)), TrackAround(t, cs[j], f(j).end);
            Originals(cs, j, t, orig, f) == [c] + Originals(cs, j + 1, u, Moved(orig, c), f)
    ensures var d, u := FirstResult(cs[j], res, f(j)), TrackAround(t, cs[j], f(j).end);
            Results(cs, j, t, res, f) == [d] + Results(cs, j + 1, u, Moved(res, d), f)
  {
    hide Nudge, FirstOriginal, FirstResult, TrackAround, DrawnBy, Moved, RelativeSegment, RelativeTrack, Draw,
      RelativeFrom, IsHalf;
    NudgeDraws(t, orig, res, cs[j], f(j));
    var p := Rest(cs, j, t, f);
    assert p[0] == Nudge(t, cs[j], f(j)) && p[1..] == Rest(cs, j + 1, TrackAround(t, cs[j], f(j).end), f);
    DrawStep(p, 0, t, orig, res);
    assert p[0..] == p;
  }

  lemma MadeDraws(cs: seq<char>, f: nat -> Amount)
    requires IsPath(cs)
    ensures Draw(Made(cs, f), FRESH) == [MoveTo(ORIGIN)] + Originals(cs, 1, ZERO, FRESH, f)
    ensures Draw(Relative(Made(cs, f)), FRESH) == [MoveTo(ORIGIN)] + Results(cs, 1, ZERO, FRESH, f)
  {
    hide Draw, Relative, RelativeFrom;
    var p := Made(cs, f);
    FirstDraws(p);
    assert p[1..] == Rest(cs, 1, ZERO, f);
  }

  // ----- The named points -----

  /** Every coordinate that the command names is off by e, no more and no less. */
  predicate Attains(cmd: char, d: Drawn, c: Drawn, e: real) {
    if Lower(cmd) == 'h' then d.LineTo? && c.LineTo? && d.p.x == c.p.x + e
    else if Lower(cmd) == 'v' then d.LineTo? && c.LineTo? && d.p.y == c.p.y + e
    else
      match (d, c)
      case (MoveTo(p), MoveTo(q)) => p == q.Plus(Point(e, e))
      case (LineTo(p), LineTo(q)) => p == q.Plus(Point(e, e))
      case (CurveTo(p1, p2, p), CurveTo(q1, q2, q)) =>
        p1 == q1.Plus(Point(e, e)) && p2 == q2.Plus(Point(e, e)) && p == q.Plus(Point(e, e))
      case (SmoothCurveTo(_, p2, p), SmoothCurveTo(_, q2, q)) => p2 == q2.Plus(Point(e, e)) && p == q.Plus(Point(e, e))
      case (QuadTo(p1, p), QuadTo(q1, q)) => p1 == q1.Plus(Point(e, e)) && p == q.Plus(Point(e, e))
      case (SmoothQuadTo(_, p), SmoothQuadTo(_, q)) => p == q.Plus(Point(e, e))
      case (ArcTo(_, p), ArcTo(_, q)) => p == q.Plus(Point(e, e))
      case (ClosePath, ClosePath) => true
      case _ => false
  }

  function AllHalf(j: nat): Amount {
    Amount(HALF, HALF)
  }

  /** Every absolute coordinate is half a thousandth further than where the loop is. */
  function WorstPath(cs: seq<char>): (p: Path)
    requires IsPath(cs)
    ensures WellFormed(p) && Commands(p) == cs
  {
    Made(cs, AllHalf)
  }

  predicate Adrift(t: Tracker, res: Pen, n: Count) {
    var e, f := Error(n.closed), Error(if n.open then n.closed + 1 else n.closed);
    res.at == At(t).Plus(Point(e, e)) && res.start == StartOf(t).Plus(Point(f, f))
  }

  lemma WorstStep(t: Tracker, orig: Pen, res: Pen, n: Count, cmd: char)
    requires IsCommand(cmd) && Adrift(t, res, n)
    ensures var a := Amount(HALF, HALF);
            var c, d := FirstOriginal(cmd, t, orig, a), FirstResult(cmd, res, a);
            && (IsUpper(cmd) ==> Attains(cmd, d, c, Error(n.closed + 1)))
            && Adrift(TrackAround(t, cmd, HALF), Moved(res, d), Next(n, cmd))
  {
    if IsUpper(cmd) {
      WorstUpperStep(t, orig, res, n, cmd);
    } else {
      LowerIsLower(cmd);
    }
  }

  lemma WorstUpperStep(t: Tracker, orig: Pen, res: Pen, n: Count, cmd: char)
    requires IsCommand(cmd) && IsUpper(cmd) && Adrift(t, res, n)
    ensures var a := Amount(HALF, HALF);
            var c, d := FirstOriginal(cmd, t, orig, a), FirstResult(cmd, res, a);
            && Attains(cmd, d, c, Error(n.closed + 1))
            && Adrift(TrackAround(t, cmd, HALF), Moved(res, d), Next(n, cmd))
  {
    LowerIsLower(cmd);
  }

  lemma {:induction false} WorstFrom(cs: seq<char>, j: nat, t: Tracker, orig: Pen, res: Pen)
    requires AreCommands(cs) && 0 < j <= |cs| && Adrift(t, res, CountAt(cs, j))
    ensures var c, d := Originals(cs, j, t, orig, AllHalf), Results(cs, j, t, res, AllHalf);
            forall i | j <= i < |cs| && IsUpper(cs[i]) :: Attains(cs[i], d[i - j], c[i - j], NamedBound(cs, i))
    decreases |cs| - j
  {
    hide FirstOriginal, FirstResult, TrackAround, Moved, Originals, Results, Attains, Adrift, Next, Error;
    if j == |cs| {
    } else {
      WorstStep(t, orig, res, CountAt(cs, j), cs[j]);
      RestDraws(cs, j, t, orig, res, AllHalf);
      var c, d := FirstOriginal(cs[j], t, orig, AllHalf(j)), FirstResult(cs[j], res, AllHalf(j));
      WorstFrom(cs, j + 1, TrackAround(t, cs[j], HALF), Moved(orig, c), Moved(res, d));
    }
  }

  /** Whatever the commands, there is a path of them for which the relative form is off by the whole
      bound in every coordinate that an absolute command after the first one names. */
  lemma DriftAttained(cs: seq<char>)
    requires IsPath(cs)
    ensures var p := WorstPath(cs);
            forall i | 0 < i < |cs| && IsUpper(cs[i]) ::
              Attains(cs[i], Draw(Relative(p), FRESH)[i], Draw(p, FRESH)[i], NamedBound(cs, i))
  {
    hide Draw, Relative, RelativeFrom, Rest, Attains, Originals, Results, Made, Error;
    MadeDraws(cs, AllHalf);
    StartsTogether(cs);
    WorstFrom(cs, 1, ZERO, FRESH, FRESH);
  }

  lemma StartsTogether(cs: seq<char>)
    requires |cs| > 0
    ensures Adrift(ZERO, FRESH, CountAt(cs, 1))
  {
  }

  // ----- When half a thousandth is enough -----

  ghost predicate NamedNear(d: Drawn, c: Drawn, e: real) {
    exists f :: NearDrawn(d, c, e, f)
  }

  /** Every point that a command names is drawn within e. */
  ghost predicate NamedWithin(p: Path, e: real)
    requires WellFormed(p)
  {
    forall i | 0 <= i < |p| :: NamedNear(Draw(Relative(p), FRESH)[i], Draw(p, FRESH)[i], e)
  }

  lemma AttainsIsFar(cmd: char, d: Drawn, c: Drawn, e: real, f: real)
    requires Attains(cmd, d, c, e) && e > HALF && !c.ClosePath?
    ensures !NearDrawn(d, c, HALF, f)
  {
  }

  lemma {:induction false} ClosePathOnly(p: Path, pen: Pen, i: nat)
    requires i < |p| && forall s | s in p :: IsSegment(s)
    ensures Draw(p, pen)[i].ClosePath? <==> Lower(p[i].cmd) == 'z'
    decreases i
  {
    if i == 0 {
      assert p[0] in p;
    } else {
      ClosePathOnly(p[1..], Moved(pen, DrawnBy(pen, p[0])), i - 1);
    }
  }

  /** A command with absolute coordinates. */
  predicate Names(cmd: char) {
    IsUpper(cmd) && cmd != 'Z'
  }

  /** Half a thousandth bounds every named coordinate, for all paths of these commands, if and only if
      no closepath of a later subpath comes before a command with absolute coordinates. */
  lemma HalfIffNoLaterClose(cs: seq<char>)
    requires IsPath(cs)
    ensures (forall p | WellFormed(p) && Commands(p) == cs :: NamedWithin(p, HALF))
            <==> forall i | 0 <= i < |cs| && Names(cs[i]) :: CountAt(cs, i).closed == 0
  {
    hide Draw, Relative, NearDrawn, Attains, Next, WorstPath, IsCommand;
    if forall i | 0 <= i < |cs| && Names(cs[i]) :: CountAt(cs, i).closed == 0 {
      forall p | WellFormed(p) && Commands(p) == cs
        ensures NamedWithin(p, HALF)
      {
        HalfHolds(p);
      }
    } else {
      var i :| 0 <= i < |cs| && Names(cs[i]) && CountAt(cs, i).closed > 0;
      HalfFails(cs, i);
    }
  }

  ghost predicate PensNear(res: Pen, orig: Pen) {
    Near(res.at, orig.at, HALF) && Near(res.start, orig.start, HALF)
  }

  lemma NearMoved(orig: Pen, res: Pen, c: Drawn, d: Drawn)
    requires PensNear(res, orig) && NamedNear(d, c, HALF)
    ensures PensNear(Moved(res, d), Moved(orig, c))
  {
  }

  function Apart(p: Point, q: Point): real {
    Abs(p.x - q.x) + Abs(p.y - q.y)
  }

  /** A relative command and a closepath carry the distance of the pens on. */
  lemma RelativeNear(t: Tracker, orig: Pen, res: Pen, s: Segment)
    requires IsSegment(s) && !Names(s.cmd) && PensNear(res, orig)
    ensures NamedNear(DrawnBy(res, RelativeSegment(t, s)), DrawnBy(orig, s), HALF)
  {
    hide Round3;
    LowerIsLower(s.cmd);
    var c, d := DrawnBy(orig, s), DrawnBy(res, RelativeSegment(t, s));
    var f := Apart(res.cubic.Across(res.at), orig.cubic.Across(orig.at))
             + Apart(res.quad.Across(res.at), orig.quad.Across(orig.at));
    assert NearDrawn(d, c, HALF, f);
  }

  lemma {:induction false} HalfFrom(p: Path, i: nat, t: Tracker, orig: Pen, res: Pen)
    requires 0 < i <= |p| && forall s | s in p :: IsSegment(s)
    requires forall j | 0 <= j < |p| && Names(p[j].cmd) :: CountAt(Commands(p), j).closed == 0
    requires var cs := Commands(p); Follows(t, orig, res, CountAt(cs, i), cs[i - 1], Reflections(cs, i - 1))
    requires PensNear(res, orig)
    ensures var c, d := Draw(p[i..], orig), Draw(RelativeFrom(t, p[i..]), res);
            forall j | 0 <= j < |p| - i :: NamedNear(d[j], c[j], HALF)
    decreases |p| - i
  {
    hide DrawnBy, Moved, RelativeTrack, RelativeSegment, Follows, NearDrawn, Draw, RelativeFrom, Next, Reflected,
      PensNear;
    var cs := Commands(p);
    if i == |p| {
    } else {
      assert p[i] in p;
      var n, prev, m := CountAt(cs, i), cs[i - 1], Reflections(cs, i - 1);
      var r := RelativeSegment(t, p[i]);
      var c, d := DrawnBy(orig, p[i]), DrawnBy(res, r);
      if Names(p[i].cmd) {
        StepNear(t, orig, res, p[i], n, prev, m);
        assert Error(n.closed + 1) == HALF;
      } else {
        RelativeNear(t, orig, res, p[i]);
      }
      NearMoved(orig, res, c, d);
      StepFollows(t, orig, res, p[i], n, prev, m);
      HalfFrom(p, i + 1, RelativeTrack(t, p[i]), Moved(orig, c), Moved(res, d));
      DrawStep(p, i, t, orig, res);
    }
  }

  lemma HalfHolds(p: Path)
    requires WellFormed(p)
    requires forall i | 0 <= i < |p| && Names(p[i].cmd) :: CountAt(Commands(p), i).closed == 0
    ensures NamedWithin(p, HALF)
  {
    hide NearDrawn, Draw, RelativeFrom, Relative, ParamCount, Follows;
    FirstDraws(p);
    var at := Point(p[0].args[0], p[0].args[1]);
    var pen := Resting(at, at);
    Together(at, p[0].cmd);
    assert p[0] in p;
    HalfFrom(p, 1, TrackerOf(pen), pen, pen);
    Nearest(at, HALF, HALF);
  }

  lemma HalfFails(cs: seq<char>, i: nat)
    requires IsPath(cs) && i < |cs| && Names(cs[i]) && CountAt(cs, i).closed > 0
    ensures !NamedWithin(WorstPath(cs), HALF)
  {
    hide Draw, Relative, NearDrawn, Attains, Next, WorstPath, IsCommand;
    var p := WorstPath(cs);
    DriftAttained(cs);
    ClosePathOnly(p, FRESH, i);
    var d, c := Draw(Relative(p), FRESH)[i], Draw(p, FRESH)[i];
    forall f
      ensures !NearDrawn(d, c, HALF, f)
    {
      AttainsIsFar(cs[i], d, c, NamedBound(cs, i), f);
    }
  }

  // ----- When the same bound holds for implied control points -----

  /** Between command j and command h a closepath comes before the next moveto. */
  predicate SoonClosed(cs: seq<char>, j: nat, h: nat)
    requires h <= |cs|
    decreases h - j
  {
    j < h && (Lower(cs[j]) == 'z' || (Lower(cs[j]) != 'm' && SoonClosed(cs, j + 1, h)))
  }

  /** Half a thousandth at every moveto whose subpath is closed before command h; nothing elsewhere. */
  function Opening(cs: seq<char>, h: nat, j: nat): Amount
    requires j < h <= |cs|
  {
    Amount(0.0, if cs[j] == 'M' && SoonClosed(cs, j + 1, h) then HALF else 0.0)
  }

  /** And half a thousandth at the end of command h. */
  function Turning(cs: seq<char>, h: nat): nat -> Amount
    requires h <= |cs|
  {
    (j: nat) => if j < h then Opening(cs, h, j) else Amount(0.0, if j == h then HALF else 0.0)
  }

  /** Where nothing has been rounded since the last closepath, the result is the original, moved. */
  predicate Shifted(t: Tracker, orig: Pen, res: Pen, n: Count, soon: bool) {
    var e, f := Error(n.closed), Error(if n.open && soon then n.closed + 1 else n.closed);
    && res.at == At(t).Plus(Point(e, e))
    && orig.start == StartOf(t) && res.start == StartOf(t).Plus(Point(f, f))
    && (!(n.open && soon) ==>
          orig.at == At(t) && res.cubic == orig.cubic.Plus(Point(e, e)) && res.quad == orig.quad.Plus(Point(e, e)))
  }

  lemma ShiftedStep(cs: seq<char>, j: nat, h: nat, t: Tracker, orig: Pen, res: Pen, n: Count)
    requires AreCommands(cs) && j < h <= |cs| && Shifted(t, orig, res, n, SoonClosed(cs, j, h))
    ensures var a := Opening(cs, h, j);
            var c, d := FirstOriginal(cs[j], t, orig, a), FirstResult(cs[j], res, a);
            Shifted(TrackAround(t, cs[j], a.end), Moved(orig, c), Moved(res, d),
                    Next(n, cs[j]), SoonClosed(cs, j + 1, h))
  {
    LowerIsLower(cs[j]);
    assert IsCommand(cs[j]);
  }

  /** The implied control point is off by e. */
  predicate ImpliedOffBy(d: Drawn, c: Drawn, e: real) {
    match (d, c)
    case (SmoothCurveTo(p1, _, _), SmoothCurveTo(q1, _, _)) => p1 == q1.Plus(Point(e, e))
    case (SmoothQuadTo(p1, _), SmoothQuadTo(q1, _)) => p1 == q1.Plus(Point(e, e))
    case _ => false
  }

  /** Two curves of one degree, the second with an implied control point. */
  predicate Turns(prev: char, cmd: char) {
    (IsCubic(prev) && Lower(cmd) == 's') || (IsQuad(prev) && Lower(cmd) == 't')
  }

  lemma TurningStep(t: Tracker, orig: Pen, res: Pen, n: Count, prev: char, cmd: char)
    requires IsCommand(prev) && IsUpper(prev) && IsCommand(cmd) && Turns(prev, cmd) && Shifted(t, orig, res, n, false)
    ensures var a := Amount(0.0, HALF);
            var c, d := FirstOriginal(prev, t, orig, a), FirstResult(prev, res, a);
            var u, b := TrackAround(t, prev, HALF), Amount(0.0, 0.0);
            && ImpliedOffBy(FirstResult(cmd, Moved(res, d), b), FirstOriginal(cmd, u, Moved(orig, c), b),
                            Error(n.closed + 2))
            && Next(n, prev) == n
  {
  }

  /** Up to command h. */
  lemma {:induction false} ShiftedFrom(cs: seq<char>, f: nat -> Amount, j: nat, h: nat, t: Tracker, orig: Pen, res: Pen)
    returns (t': Tracker, orig': Pen, res': Pen)
    requires AreCommands(cs) && 0 < j <= h < |cs| && forall i: nat | i < h :: f(i) == Opening(cs, h, i)
    requires Shifted(t, orig, res, CountAt(cs, j), SoonClosed(cs, j, h))
    ensures Shifted(t', orig', res', CountAt(cs, h), false)
    ensures Originals(cs, j, t, orig, f)[h - j..] == Originals(cs, h, t', orig', f)
    ensures Results(cs, j, t, res, f)[h - j..] == Results(cs, h, t', res', f)
    decreases h - j
  {
    hide FirstOriginal, FirstResult, TrackAround, Moved, Originals, Results, Shifted, Next, Error, SoonClosed,
      IsCommand;
    if j == h {
      NotAtEnd(cs, h);
      t', orig', res' := t, orig, res;
    } else {
      assert IsCommand(cs[j]);
      var c, d := FirstOriginal(cs[j], t, orig, f(j)), FirstResult(cs[j], res, f(j));
      var u := TrackAround(t, cs[j], f(j).end);
      RestDraws(cs, j, t, orig, res, f);
      ShiftedStep(cs, j, h, t, orig, res, CountAt(cs, j));
      t', orig', res' := ShiftedFrom(cs, f, j + 1, h, u, Moved(orig, c), Moved(res, d));
      var cc, dd := Originals(cs, j + 1, u, Moved(orig, c), f), Results(cs, j + 1, u, Moved(res, d), f);
      assert ([c] + cc)[h - j..] == cc[h - j - 1..] && ([d] + dd)[h - j..] == dd[h - j - 1..];
    }
  }

  lemma NotAtEnd(cs: seq<char>, h: nat)
    requires h <= |cs|
    ensures !SoonClosed(cs, h, h)
  {
  }

  lemma StartsShifted(cs: seq<char>, soon: bool)
    requires |cs| > 0
    ensures Shifted(ZERO, FRESH, FRESH, CountAt(cs, 1), soon)
  {
  }

  lemma LargerError(k: nat)
    ensures Error(k + 2) > Error(k + 1)
  {
  }

  lemma ImpliedIsFar(d: Drawn, c: Drawn, e: real, f: real)
    requires ImpliedOffBy(d, c, f) && f > e
    ensures !NearDrawn(d, c, e, e)
  {
  }

  /** Every point that segment i draws, implied control points included, is within the bound for
      named points. */
  ghost predicate PlainBound(p: Path)
    requires WellFormed(p)
  {
    forall i | 0 <= i < |p| ::
      NearDrawn(Draw(Relative(p), FRESH)[i], Draw(p, FRESH)[i], NamedBound(Commands(p), i), NamedBound(Commands(p), i))
  }

  lemma TurningFails(cs: seq<char>, h: nat)
    requires IsPath(cs) && 0 < h && h + 1 < |cs| && Turns(cs[h], cs[h + 1]) && IsUpper(cs[h])
    ensures !PlainBound(Made(cs, Turning(cs, h)))
  {
    hide Draw, Relative, NearDrawn, Originals, Results, Made, Error, Shifted, ImpliedOffBy, Turns, SoonClosed, CountAt,
      FirstOriginal, FirstResult, Moved, TrackAround, IsCommand;
    var f, n := Turning(cs, h), CountAt(cs, h);
    MadeDraws(cs, f);
    StartsShifted(cs, SoonClosed(cs, 1, h));
    var t, orig, res := ShiftedFrom(cs, f, 1, h, ZERO, FRESH, FRESH);
    assert IsCommand(cs[h]) && IsCommand(cs[h + 1]);
    TurningStep(t, orig, res, n, cs[h], cs[h + 1]);
    NextCount(cs, h);
    RestDraws(cs, h, t, orig, res, f);
    var c, d, u := FirstOriginal(cs[h], t, orig, f(h)), FirstResult(cs[h], res, f(h)), TrackAround(t, cs[h], HALF);
    RestDraws(cs, h + 1, u, Moved(orig, c), Moved(res, d), f);
    LargerError(n.closed);
    var p, i := Made(cs, f), h + 1;
    assert ImpliedOffBy(Draw(Relative(p), FRESH)[i], Draw(p, FRESH)[i], Error(n.closed + 2)) by {
      assert Draw(p, FRESH)[i] == Originals(cs, 1, ZERO, FRESH, f)[h - 1..][1] == Originals(cs, h, t, orig, f)[1];
      assert Draw(Relative(p), FRESH)[i] == Results(cs, 1, ZERO, FRESH, f)[h - 1..][1] == Results(cs, h, t, res, f)[1];
    }
    ImpliedIsFar(Draw(Relative(p), FRESH)[i], Draw(p, FRESH)[i], NamedBound(cs, i), Error(n.closed + 2));
  }

  lemma NextCount(cs: seq<char>, h: nat)
    requires 0 < h < |cs|
    ensures CountAt(cs, h + 1) == Next(CountAt(cs, h), cs[h])
  {
  }

  /** At command i a control point is reflected of which the command before is rounded. */
  predicate Turned(cs: seq<char>, i: nat)
    requires i < |cs|
  {
    i > 0 && Turns(cs[i - 1], cs[i]) && IsUpper(cs[i - 1])
  }

  /** The bound for named points bounds the implied ones too, for all paths of these commands, if and
      only if no smooth curve directly follows an absolute curve of its degree. */
  lemma PlainIffNotTurned(cs: seq<char>)
    requires IsPath(cs)
    ensures (forall p | WellFormed(p) && Commands(p) == cs :: PlainBound(p))
            <==> forall i | 0 <= i < |cs| :: !Turned(cs, i)
  {
    hide PlainBound, Made, Turning, IsCommand;
    if forall i | 0 <= i < |cs| :: !Turned(cs, i) {
      forall p | WellFormed(p) && Commands(p) == cs
        ensures PlainBound(p)
      {
        PlainHolds(p);
      }
    } else {
      var i :| 0 <= i < |cs| && Turned(cs, i);
      assert i > 1;
      TurningFails(cs, i - 1);
      assert !PlainBound(Made(cs, Turning(cs, i - 1)));
    }
  }

  /** After a relative curve, both control points are as far apart as the pens. */
  ghost predicate Carried(orig: Pen, res: Pen, prev: char) {
    IsLower(prev) ==>
      && (IsCubic(prev) ==> res.cubic.Minus(res.at) == orig.cubic.Minus(orig.at))
      && (IsQuad(prev) ==> res.quad.Minus(res.at) == orig.quad.Minus(orig.at))
  }

  lemma CarriesOn(t: Tracker, orig: Pen, res: Pen, s: Segment, n: Count, prev: char, m: nat)
    requires IsSegment(s) && Follows(t, orig, res, n, prev, m)
    requires Carried(orig, res, prev) && (Turns(prev, s.cmd) ==> IsLower(prev))
    ensures var c, d := DrawnBy(orig, s), DrawnBy(res, RelativeSegment(t, s));
            Carried(Moved(orig, c), Moved(res, d), s.cmd)
  {
    hide Round3, Abs, Error;
    LowerIsLower(s.cmd);
    if IsLower(s.cmd) {
      assert RelativeSegment(t, s) == s;
    }
  }

  lemma PlainStep(t: Tracker, orig: Pen, res: Pen, s: Segment, n: Count, prev: char, m: nat)
    requires IsSegment(s) && Follows(t, orig, res, n, prev, m)
    requires Carried(orig, res, prev) && (Turns(prev, s.cmd) ==> IsLower(prev))
    ensures var c, d := DrawnBy(orig, s), DrawnBy(res, RelativeSegment(t, s));
            NearDrawn(d, c, Error(n.closed + 1), Error(n.closed + 1))
  {
    hide Round3;
    StepNear(t, orig, res, s, n, prev, m);
    LowerIsLower(s.cmd);
  }

  lemma {:induction false} PlainFrom(p: Path, i: nat, t: Tracker, orig: Pen, res: Pen)
    requires 0 < i <= |p| && forall s | s in p :: IsSegment(s)
    requires forall j | 0 <= j < |p| :: !Turned(Commands(p), j)
    requires var cs := Commands(p); Follows(t, orig, res, CountAt(cs, i), cs[i - 1], Reflections(cs, i - 1))
    requires Carried(orig, res, p[i - 1].cmd)
    ensures var cs, c, d := Commands(p), Draw(p[i..], orig), Draw(RelativeFrom(t, p[i..]), res);
            forall j | i <= j < |p| :: NearDrawn(d[j - i], c[j - i], NamedBound(cs, j), NamedBound(cs, j))
    decreases |p| - i
  {
    hide DrawnBy, Moved, RelativeTrack, RelativeSegment, Follows, NearDrawn, Error, Draw, RelativeFrom, Next,
      Reflected, Carried, Turns;
    var cs := Commands(p);
    if i == |p| {
    } else {
      assert p[i] in p && p[i - 1] in p;
      var n, prev, m := CountAt(cs, i), cs[i - 1], Reflections(cs, i - 1);
      var c, d := DrawnBy(orig, p[i]), DrawnBy(res, RelativeSegment(t, p[i]));
      assert !Turned(cs, i);
      LowerIsLower(prev);
      PlainStep(t, orig, res, p[i], n, prev, m);
      CarriesOn(t, orig, res, p[i], n, prev, m);
      StepFollows(t, orig, res, p[i], n, prev, m);
      PlainFrom(p, i + 1, RelativeTrack(t, p[i]), Moved(orig, c), Moved(res, d));
      DrawStep(p, i, t, orig, res);
    }
  }

  lemma PlainHolds(p: Path)
    requires WellFormed(p) && forall i | 0 <= i < |p| :: !Turned(Commands(p), i)
    ensures PlainBound(p)
  {
    hide NearDrawn, Draw, RelativeFrom, Relative, ParamCount, Follows, Turned;
    FirstDraws(p);
    var at := Point(p[0].args[0], p[0].args[1]);
    var pen := Resting(at, at);
    Together(at, p[0].cmd);
    assert p[0] in p;
    PlainFrom(p, 1, TrackerOf(pen), pen, pen);
    Nearest(at, NamedBound(Commands(p), 0), NamedBound(Commands(p), 0));
  }

  // ----- No bound without counting -----

  /** A moveto, n later subpaths of a moveto and a closepath each, and one more moveto. */
  function Walk(n: nat): (cs: seq<char>)
    ensures |cs| == 2 * n + 2 && IsPath(cs)
  {
    if n == 0 then ['M', 'M'] else Walk(n - 1) + ['Z', 'M']
  }

  lemma {:induction false} CountOfFront(cs: seq<char>, cs': seq<char>, i: nat)
    requires i <= |cs| && i <= |cs'| && cs[..i] == cs'[..i]
    ensures CountAt(cs, i) == CountAt(cs', i)
  {
    if i <= 1 {
    } else {
      assert cs[..i - 1] == cs[..i][..i - 1] && cs'[..i - 1] == cs'[..i][..i - 1];
      assert cs[i - 1] == cs[..i][i - 1] && cs'[i - 1] == cs'[..i][i - 1];
      CountOfFront(cs, cs', i - 1);
    }
  }

  lemma {:induction false} WalkCount(n: nat)
    ensures CountAt(Walk(n), 2 * n + 1) == Count(n, false) && Walk(n)[2 * n + 1] == 'M'
  {
    if n == 0 {
    } else {
      var cs, before := Walk(n), Walk(n - 1);
      WalkCount(n - 1);
      assert cs[..2 * n - 1] == before[..2 * n - 1];
      CountOfFront(cs, before, 2 * n - 1);
      assert cs[2 * n - 1] == 'M' && cs[2 * n] == 'Z';
    }
  }

  /** After n later subpaths have been closed, a moveto is drawn 0.0005 * (n + 1) off. */
  lemma DriftUnbounded(n: nat)
    ensures var p := WorstPath(Walk(n));
            var c, d := Draw(p, FRESH)[2 * n + 1], Draw(Relative(p), FRESH)[2 * n + 1];
            c.MoveTo? && d.MoveTo? && d.p == c.p.Plus(Point(Error(n + 1), Error(n + 1)))
  {
    hide Draw, Relative, WorstPath, Error, Walk;
    var p, i := WorstPath(Walk(n)), 2 * n + 1;
    DriftAttained(Walk(n));
    WalkCount(n);
    MovesOnly(p, FRESH, i);
  }

  lemma {:induction false} MovesOnly(p: Path, pen: Pen, i: nat)
    requires i < |p| && forall s | s in p :: IsSegment(s)
    ensures Draw(p, pen)[i].MoveTo? <==> Lower(p[i].cmd) == 'm'
    decreases i
  {
    if i == 0 {
      assert p[0] in p;
    } else {
      MovesOnly(p[1..], Moved(pen, DrawnBy(pen, p[0])), i - 1);
    }
  }

  // ----- The bound for implied control points is attained -----

  function Signed(positive: bool, e: real): real {
    if positive then e else -e
  }

  /** The sign of the end of command j, so that it is positive for the command before i. */
  predicate Positive(i: nat, j: nat)
    requires j < i
  {
    (i - 1 - j) % 2 == 0
  }

  /** From command q up to command i, ends are half a thousandth further and half a thousandth back in
      turn, and control points the other way round. */
  function Swinging(cs: seq<char>, q: nat, i: nat): nat -> Amount
    requires q < i <= |cs|
  {
    (j: nat) =>
      if j < q then Opening(cs, q, j)
      else if j < i then Amount(Signed(Positive(i, j), -HALF), Signed(Positive(i, j), HALF))
      else Amount(0.0, 0.0)
  }

  /** After command j - 1, besides the drift e, the current points differ by s and the control points by w. */
  predicate Swings(t: Tracker, orig: Pen, res: Pen, cmd: char, e: real, s: real, w: real) {
    && res.at == At(t).Plus(Point(e, e)) && At(t) == orig.at.Plus(Point(s, s))
    && (IsQuad(cmd) ==> res.quad == orig.quad.Plus(Point(e + w, e + w)))
    && (IsCubic(cmd) ==> res.cubic == orig.cubic.Plus(Point(e + w, e + w)))
  }

  /** The curve that gives the control point. */
  lemma FirstSwing(t: Tracker, orig: Pen, res: Pen, n: Count, cmd: char, x: real)
    requires IsCommand(cmd) && IsUpper(cmd) && (cmd == 'Q' || IsCubic(cmd)) && Shifted(t, orig, res, n, false)
    ensures var a := Amount(-x, x);
            var c, d := FirstOriginal(cmd, t, orig, a), FirstResult(cmd, res, a);
            Swings(TrackAround(t, cmd, x), Moved(orig, c), Moved(res, d), cmd, Error(n.closed), x, -x)
  {
  }

  lemma SwingStep(t: Tracker, orig: Pen, res: Pen, e: real, s: real, w: real, prev: char, cmd: char, a: Amount)
    requires IsCommand(cmd) && Turns(prev, cmd) && Swings(t, orig, res, prev, e, s, w)
    ensures var c, d := FirstOriginal(cmd, t, orig, a), FirstResult(cmd, res, a);
            && ImpliedOffBy(d, c, e + 2.0 * s - w)
            && (a.end == -s && cmd == 'T' ==>
                  Swings(TrackAround(t, cmd, a.end), Moved(orig, c), Moved(res, d), cmd, e, -s, 2.0 * s - w))
  {
  }

  /** A smooth curve with an implied control point, where the first one of the row is reflected from a
      control point that its curve gives, and all commands before the last are absolute. */
  predicate FromGiven(cs: seq<char>, i: nat)
    requires i < |cs|
  {
    var m := Reflections(cs, i);
    0 < m <= i && (forall j | i - m <= j < i :: IsUpper(cs[j])) && (Lower(cs[i]) == 's' || cs[i - m] == 'Q')
  }

  /** Between the given control point and the last implied one there are only smooth quadratics. */
  lemma {:induction false} RowOfTurns(cs: seq<char>, i: nat, j: nat)
    requires IsPath(cs) && i < |cs| && FromGiven(cs, i) && i - Reflections(cs, i) < j <= i
    ensures Turns(cs[j - 1], cs[j]) && (j < i ==> cs[j] == 'T')
    ensures CountAt(cs, j) == CountAt(cs, i)
    ensures Reflections(cs, j) == j - (i - Reflections(cs, i))
    decreases i - j
  {
    assert IsCommand(cs[j - 1]) && IsCommand(cs[j]);
    if j == i {
    } else {
      RowOfTurns(cs, i, j + 1);
      assert IsCommand(cs[j + 1]);
      LowerIsLower(cs[j]);
    }
  }

  lemma {:induction false} SwingsFrom(cs: seq<char>, q: nat, i: nat, j: nat, t: Tracker, orig: Pen, res: Pen, e: real)
    requires IsPath(cs) && q < j <= i < |cs| && FromGiven(cs, i) && q == i - Reflections(cs, i)
    requires var b := Positive(i, j - 1);
             Swings(t, orig, res, cs[j - 1], e, Signed(b, HALF), -Signed(b, Error(2 * (j - q) - 1)))
    ensures var f := Swinging(cs, q, i);
            ImpliedOffBy(Results(cs, j, t, res, f)[i - j], Originals(cs, j, t, orig, f)[i - j],
                         e + Error(2 * (i - q) + 1))
    decreases i - j
  {
    hide FirstOriginal, FirstResult, TrackAround, Moved, Originals, Results, Swings, ImpliedOffBy, IsCommand, Turns,
      Reflections, CountAt;
    var f, b := Swinging(cs, q, i), Positive(i, j - 1);
    var s, w := Signed(b, HALF), -Signed(b, Error(2 * (j - q) - 1));
    assert IsCommand(cs[j]);
    RowOfTurns(cs, i, j);
    SwingStep(t, orig, res, e, s, w, cs[j - 1], cs[j], f(j));
    RestDraws(cs, j, t, orig, res, f);
    if j == i {
    } else {
      var c, d := FirstOriginal(cs[j], t, orig, f(j)), FirstResult(cs[j], res, f(j));
      assert Positive(i, j) == !b;
      assert 2.0 * s - w == -Signed(!b, Error(2 * (j + 1 - q) - 1));
      SwingsFrom(cs, q, i, j + 1, TrackAround(t, cs[j], f(j).end), Moved(orig, c), Moved(res, d), e);
    }
  }

  /** Whatever the commands, the control point that a smooth curve implies can be off by its whole bound,
      if the row of reflections is absolute and begins at a control point that is given. */
  lemma {:induction false} ReflectionsAttained(cs: seq<char>, i: nat)
    requires IsPath(cs) && i < |cs| && FromGiven(cs, i)
    ensures var p := Made(cs, Swinging(cs, i - Reflections(cs, i), i));
            ImpliedOffBy(Draw(Relative(p), FRESH)[i], Draw(p, FRESH)[i], ImpliedBound(cs, i))
  {
    hide Draw, Relative, Made, Originals, Results, Shifted, Swings, ImpliedOffBy, SoonClosed, FirstOriginal,
      FirstResult, Moved, TrackAround, IsCommand, Error, CountAt;
    var q := i - Reflections(cs, i);
    var f, n := Swinging(cs, q, i), CountAt(cs, q);
    GivenAt(cs, i);
    MadeDraws(cs, f);
    StartsShifted(cs, SoonClosed(cs, 1, q));
    var t, orig, res := ShiftedFrom(cs, f, 1, q, ZERO, FRESH, FRESH);
    var b := Positive(i, q);
    FirstSwing(t, orig, res, n, cs[q], Signed(b, HALF));
    RestDraws(cs, q, t, orig, res, f);
    var c, d := FirstOriginal(cs[q], t, orig, f(q)), FirstResult(cs[q], res, f(q));
    FirstError(b);
    SwingsFrom(cs, q, i, q + 1, TrackAround(t, cs[q], f(q).end), Moved(orig, c), Moved(res, d), Error(n.closed));
    SumOfErrors(n.closed, 2 * (i - q) + 1);
    var p := Made(cs, f);
    assert Draw(p, FRESH)[i] == Originals(cs, 1, ZERO, FRESH, f)[q - 1..][i - q];
    assert Draw(Relative(p), FRESH)[i] == Results(cs, 1, ZERO, FRESH, f)[q - 1..][i - q];
  }

  lemma FirstError(b: bool)
    ensures Signed(b, Error(1)) == Signed(b, HALF) && Signed(b, -HALF) == -Signed(b, HALF)
  {
  }

  lemma SumOfErrors(k: nat, l: nat)
    ensures Error(k) + Error(l) == Error(k + l)
  {
  }

  lemma {:induction false} GivenAt(cs: seq<char>, i: nat)
    requires IsPath(cs) && i < |cs| && FromGiven(cs, i)
    ensures var q := i - Reflections(cs, i);
            0 < q && IsCommand(cs[q]) && (cs[q] == 'Q' || IsCubic(cs[q])) && CountAt(cs, q) == CountAt(cs, i)
  {
    var q := i - Reflections(cs, i);
    RowOfTurns(cs, i, q + 1);
    assert IsCommand(cs[q]) && IsCommand(cs[i]);
    LowerIsLower(cs[q]);
  }

  /** A quadratic and n smooth ones after it. */
  function Turn(n: nat): (cs: seq<char>)
    ensures |cs| == n + 2 && IsPath(cs) && forall c | c in cs :: Lower(c) != 'z'
  {
    ['M', 'Q'] + seq(n, _ => 'T')
  }

  /** Without any closepath, the bound for implied control points grows by a thousandth with each of a
      row of smooth quadratics; and one smooth cubic after a cubic has three times that of a named point. */
  lemma {:induction false} ImpliedGrows(n: nat, i: nat)
    requires 2 <= i < n + 2
    ensures FromGiven(Turn(n), i) && ImpliedBound(Turn(n), i) == Error(2 * i - 1)
    ensures var cs := ['M', 'C', 'S']; IsPath(cs) && FromGiven(cs, 2) && ImpliedBound(cs, 2) == Error(3)
  {
    TurnReflections(n, i);
  }

  lemma {:induction false} TurnReflections(n: nat, i: nat)
    requires 0 < i < n + 2
    ensures Reflections(Turn(n), i) == i - 1 && CountAt(Turn(n), i).closed == 0
  {
    if i == 1 {
    } else {
      TurnReflections(n, i - 1);
      NoSubpaths(Turn(n), i);
    }
  }

  lemma {:induction false} NoSubpaths(cs: seq<char>, i: nat)
    requires i <= |cs| && forall j | 0 < j < i :: Lower(cs[j]) != 'm'
    ensures CountAt(cs, i) == Count(0, false)
  {
    if i <= 1 {
    } else {
      NoSubpaths(cs, i - 1);
    }
  }
}
