/** Rewriting a path to absolute commands, or on a grid of thousandths to relative ones, does not
    change what it draws. */
module PathMeaning {
  import opened SvgPath
  import opened PathRewriting

  /** The loop variables follow the pen. */
  function TrackerOf(pen: Pen): Tracker {
    Tracker(pen.at.x, pen.at.y, pen.start.x, pen.start.y)
  }

  // ----- pathToAbsolute -----

  lemma AbsoluteStepDraws(pen: Pen, s: Segment)
    requires IsSegment(s)
    ensures var r := AbsoluteSegment(TrackerOf(pen), s);
            && DrawnBy(pen, r) == DrawnBy(pen, s)
            && AbsoluteTrack(TrackerOf(pen), r) == TrackerOf(Moved(pen, DrawnBy(pen, s)))
  {
    UpperKeeps(s.cmd);
    var r := AbsoluteSegment(TrackerOf(pen), s);
    assert !IsLower(r.cmd) && Lower(r.cmd) == Lower(s.cmd);
    if s.cmd == 'a' {
      assert r.args[..5] == s.args[..5];
    }
  }

  lemma {:induction false} AbsoluteFromDraws(pen: Pen, p: Path)
    requires forall s | s in p :: IsSegment(s)
    ensures Draw(AbsoluteFrom(TrackerOf(pen), p), pen) == Draw(p, pen)
    decreases |p|
  {
    hide AbsoluteSegment, AbsoluteTrack, DrawnBy, Moved;
    if p == [] {
    } else {
      AbsoluteStepDraws(pen, p[0]);
      AbsoluteFromDraws(Moved(pen, DrawnBy(pen, p[0])), p[1..]);
    }
  }

  /** The absolute form draws the same segments, by the same commands in capitals. */
  lemma AbsoluteDraws(p: Path)
    requires WellFormed(p)
    ensures Draw(Absolute(p), FRESH) == Draw(p, FRESH)
    ensures |Absolute(p)| == |p| && forall s | s in Absolute(p) :: !IsLower(s.cmd)
  {
    AbsoluteFromDraws(FRESH, p);
  }

  lemma {:induction false} AbsoluteFixed(t: Tracker, p: Path)
    requires forall s | s in p :: IsSegment(s) && !IsLower(s.cmd)
    ensures AbsoluteFrom(t, p) == p
    decreases |p|
  {
    if p == [] {
    } else {
      AbsoluteFixed(AbsoluteTrack(t, p[0]), p[1..]);
    }
  }

  /** Absolute paths are left alone, so the rewriting is idempotent. */
  lemma AbsoluteIdempotent(p: Path)
    requires WellFormed(p)
    ensures Absolute(Absolute(p)) == Absolute(p)
  {
    AbsoluteFixed(ZERO, Absolute(p));
  }

  // ----- Thousandths -----

  predicate OnGrid(r: real) {
    (r * 1000.0).Floor as real == r * 1000.0
  }

  lemma GridClosed(a: real, b: real)
    requires OnGrid(a) && OnGrid(b)
    ensures OnGrid(a + b) && OnGrid(a - b) && Round3(a) == a
  {
    var m, n := (a * 1000.0).Floor, (b * 1000.0).Floor;
    assert (a + b) * 1000.0 == (m + n) as real;
    assert (a - b) * 1000.0 == (m - n) as real;
    if a >= 0.0 {
      assert (a * 1000.0 + 0.5).Floor == m;
    } else {
      assert (-a * 1000.0 + 0.5).Floor == -m;
    }
  }

  /** The numbers of s that are coordinates: all but the first five of an arc. */
  predicate SegmentOnGrid(s: Segment)
    requires IsSegment(s)
  {
    forall i | (if Lower(s.cmd) == 'a' then 5 else 0) <= i < |s.args| :: OnGrid(s.args[i])
  }

  predicate TrackerOnGrid(t: Tracker) {
    OnGrid(t.x) && OnGrid(t.y) && OnGrid(t.mx) && OnGrid(t.my)
  }

  ghost predicate PathOnGrid(p: Path)
    requires forall s | s in p :: IsSegment(s)
  {
    forall s | s in p :: SegmentOnGrid(s)
  }

  // ----- pathToRelative on the grid -----

  /** Making an absolute segment relative and absolute again gives it back. */
  lemma ThereAndBack(t: Tracker, s: Segment)
    requires IsSegment(s) && SegmentOnGrid(s) && TrackerOnGrid(t)
    ensures AbsoluteSegment(t, RelativeSegment(t, s)) == AbsoluteSegment(t, s)
  {
    hide Round3, OnGrid;
    if IsUpper(s.cmd) {
      ExactDifferences(t, s);
      UpperOfLower(s.cmd);
      hide SegmentOnGrid;
      assert AbsoluteArgs(t, RelativeSegment(t, s)) == s.args;
    }
  }

  lemma UpperOfLower(c: char)
    requires IsUpper(c)
    ensures Upper(Lower(c)) == c && IsLower(Lower(c)) && Upper(c) == c
  {
  }

  lemma ExactDifferences(t: Tracker, s: Segment)
    requires IsSegment(s) && SegmentOnGrid(s) && TrackerOnGrid(t)
    ensures forall i | (if Lower(s.cmd) == 'a' then 5 else 0) <= i < |s.args| ::
              Round3(s.args[i] - t.x) == s.args[i] - t.x && Round3(s.args[i] - t.y) == s.args[i] - t.y
  {
    forall i | (if Lower(s.cmd) == 'a' then 5 else 0) <= i < |s.args|
      ensures Round3(s.args[i] - t.x) == s.args[i] - t.x && Round3(s.args[i] - t.y) == s.args[i] - t.y
    {
      GridClosed(s.args[i], t.x);
      GridClosed(s.args[i], t.y);
      GridClosed(s.args[i] - t.x, 0.0);
      GridClosed(s.args[i] - t.y, 0.0);
    }
  }

  /** Both loops leave their variables in the same state. */
  lemma SameTrack(t: Tracker, s: Segment)
    requires IsSegment(s) && SegmentOnGrid(s) && TrackerOnGrid(t)
    ensures RelativeTrack(t, s) == AbsoluteTrack(t, AbsoluteSegment(t, s))
  {
    if IsUpper(s.cmd) {
      SameTrackUpper(t, s);
    } else {
      SameTrackLower(t, s);
    }
  }

  lemma SameTrackUpper(t: Tracker, s: Segment)
    requires IsSegment(s) && SegmentOnGrid(s) && TrackerOnGrid(t) && IsUpper(s.cmd)
    ensures RelativeTrack(t, s) == AbsoluteTrack(t, AbsoluteSegment(t, s))
  {
    hide OnGrid, Round3;
    ExactDifferences(t, s);
    UpperOfLower(s.cmd);
    hide SegmentOnGrid;
  }

  lemma SameTrackLower(t: Tracker, s: Segment)
    requires IsSegment(s) && !IsUpper(s.cmd)
    ensures RelativeTrack(t, s) == AbsoluteTrack(t, AbsoluteSegment(t, s))
  {
    hide OnGrid, Round3;
    LowerOfUpper(s.cmd);
  }

  lemma LowerOfUpper(c: char)
    ensures !IsUpper(c) ==> Lower(c) == c
    ensures IsLower(c) ==> Lower(Upper(c)) == c && IsUpper(Upper(c))
  {
  }

  lemma TrackStaysOnGrid(t: Tracker, s: Segment)
    requires IsSegment(s) && SegmentOnGrid(s) && TrackerOnGrid(t)
    ensures TrackerOnGrid(AbsoluteTrack(t, AbsoluteSegment(t, s)))
  {
    hide OnGrid;
    UpperKeeps(s.cmd);
    GridSums(t, s);
  }

  lemma GridSums(t: Tracker, s: Segment)
    requires IsSegment(s) && SegmentOnGrid(s) && TrackerOnGrid(t)
    ensures forall i | (if Lower(s.cmd) == 'a' then 5 else 0) <= i < |s.args| ::
              OnGrid(s.args[i] + t.x) && OnGrid(s.args[i] + t.y)
  {
    forall i | (if Lower(s.cmd) == 'a' then 5 else 0) <= i < |s.args|
      ensures OnGrid(s.args[i] + t.x) && OnGrid(s.args[i] + t.y)
    {
      GridClosed(s.args[i], t.x);
      GridClosed(s.args[i], t.y);
    }
  }

  lemma {:induction false} RelativeFromExact(t: Tracker, p: Path)
    requires forall s | s in p :: IsSegment(s)
    requires PathOnGrid(p) && TrackerOnGrid(t)
    ensures AbsoluteFrom(t, RelativeFrom(t, p)) == AbsoluteFrom(t, p)
    decreases |p|
  {
    hide AbsoluteSegment, AbsoluteTrack, RelativeSegment, RelativeTrack, OnGrid, SegmentOnGrid;
    if p == [] {
    } else {
      assert p[0] in p;
      ThereAndBack(t, p[0]);
      SameTrack(t, p[0]);
      TrackStaysOnGrid(t, p[0]);
      assert forall s | s in p[1..] :: s in p;
      RelativeFromExact(RelativeTrack(t, p[0]), p[1..]);
    }
  }

  /** On coordinates that are multiples of 0.001 the relative form has the same absolute form. */
  lemma RelativeExact(p: Path)
    requires WellFormed(p) && PathOnGrid(p)
    ensures Absolute(Relative(p)) == Absolute(p)
  {
    assert p[0] in p;
    if p[0].cmd == 'M' {
      var t := Tracker(p[0].args[0], p[0].args[1], p[0].args[0], p[0].args[1]);
      FirstMove(p[0]);
      FirstMove(Relative(p)[0]);
      assert Relative(p)[1..] == RelativeFrom(t, p[1..]);
      assert forall s | s in p[1..] :: s in p;
      RelativeFromExact(t, p[1..]);
    } else {
      RelativeFromExact(ZERO, p);
    }
  }

  /** ... and so draws the same segments. */
  lemma RelativeDraws(p: Path)
    requires WellFormed(p) && PathOnGrid(p)
    ensures Draw(Relative(p), FRESH) == Draw(p, FRESH)
  {
    RelativeExact(p);
    AbsoluteDraws(p);
    AbsoluteDraws(Relative(p));
  }

  /** The relative form has only relative commands after its first moveto. */
  lemma RelativeIsRelative(p: Path)
    requires WellFormed(p)
    ensures |Relative(p)| == |p| && forall i | 0 < i < |p| :: !IsUpper(Relative(p)[i].cmd)
  {
    assert p[0] in p;
    forall i | 0 < i < |p|
      ensures !IsUpper(Relative(p)[i].cmd)
    {
      if p[0].cmd == 'M' {
        var (x, y) := (p[0].args[0], p[0].args[1]);
        var rest := RelativeFrom(Tracker(x, y, x, y), p[1..]);
        assert Relative(p)[i] == rest[i - 1] && rest[i - 1] in rest;
      } else {
        assert Relative(p)[i] in RelativeFrom(ZERO, p);
      }
    }
  }
}
