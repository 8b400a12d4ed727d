/** Raphael's pathToAbsolute and pathToRelative. */
module PathRewriting {
  import opened SvgPath

  /** The variables x, y, mx and my of both loops. */
  datatype Tracker = Tracker(x: real, y: real, mx: real, my: real)

  const ZERO := Tracker(0.0, 0.0, 0.0, 0.0)

  /** Even positions of the arguments are abscissas. */
  function Shifted(args: seq<real>, x: real, y: real): (r: seq<real>)
    ensures |r| == |args|
  {
    seq(|args|, i requires 0 <= i < |args| => args[i] + if i % 2 == 0 then x else y)
  }

  function Last(s: seq<real>, k: nat): real
    requires k < |s|
  {
    s[|s| - 1 - k]
  }

  // ----- pathToAbsolute -----

  function AbsoluteArgs(t: Tracker, s: Segment): (r: seq<real>)
    requires IsSegment(s)
    ensures |r| == |s.args|
  {
    var a := s.args;
    if !IsLower(s.cmd) then a
    else if s.cmd == 'a' then a[..5] + [a[5] + t.x, a[6] + t.y]
    else if s.cmd == 'v' then [a[0] + t.y]
    else if s.cmd == 'h' then [a[0] + t.x]
    else Shifted(a, t.x, t.y)
  }

  function AbsoluteSegment(t: Tracker, s: Segment): (r: Segment)
    requires IsSegment(s)
    ensures IsSegment(r) && !IsLower(r.cmd)
  {
    UpperKeeps(s.cmd);
    Segment(Upper(s.cmd), AbsoluteArgs(t, s))
  }

  lemma UpperKeeps(c: char)
    ensures Lower(Upper(c)) == Lower(c) && !IsLower(Upper(c))
  {
  }

  /** The variables after a segment r of the result has been written. */
  function AbsoluteTrack(t: Tracker, r: Segment): Tracker
    requires IsSegment(r) && !IsLower(r.cmd)
  {
    match r.cmd
    case 'Z' => t.(x := t.mx, y := t.my)
    case 'H' => t.(x := r.args[0])
    case 'V' => t.(y := r.args[0])
    case 'M' => Tracker(r.args[0], r.args[1], r.args[0], r.args[1])
    case _ => t.(x := Last(r.args, 1), y := Last(r.args, 0))
  }

  function AbsoluteFrom(t: Tracker, p: Path): (r: Path)
    requires forall s | s in p :: IsSegment(s)
    ensures |r| == |p|
    ensures forall s | s in r :: IsSegment(s) && !IsLower(s.cmd)
    decreases |p|
  {
    if p == [] then []
    else
      var r := AbsoluteSegment(t, p[0]);
      [r] + AbsoluteFrom(AbsoluteTrack(t, r), p[1..])
  }

  function Absolute(p: Path): (r: Path)
    requires WellFormed(p)
    ensures WellFormed(r)
  {
    var r := AbsoluteFrom(ZERO, p);
    assert r[0] == AbsoluteSegment(ZERO, p[0]);
    r
  }

  method PathToAbsolute(p: Path) returns (res: Path)
    requires WellFormed(p)
    ensures res == Absolute(p)
  {
    hide AbsoluteSegment, AbsoluteTrack, AbsoluteFrom;
    res := [];
    var x, y, mx, my := 0.0, 0.0, 0.0, 0.0;
    var start := 0;
    assert p[0] in p && p[0..] == p;
    if p[0].cmd == 'M' {
      x, y := p[0].args[0], p[0].args[1];
      mx, my := x, y;
      start := 1;
      res := [Segment('M', [x, y])];
      AbsoluteStep(ZERO, p, 0);
      FirstMove(p[0]);
    }
    var i := start;
    while i < |p|
      invariant start <= i <= |p| && |res| == i
      invariant Absolute(p) == res + AbsoluteFrom(Tracker(x, y, mx, my), p[i..])
    {
      AbsoluteStep(Tracker(x, y, mx, my), p, i);
      var r;
      r, mx, my := RewriteAbsolute(p[i], x, y, mx, my);
      res := res + [r];
      x, y, mx, my := TrackAbsolute(r, x, y, mx, my);
      i := i + 1;
    }
    assert AbsoluteFrom(Tracker(x, y, mx, my), p[i..]) == [];
  }

  lemma AbsoluteStep(t: Tracker, p: Path, i: nat)
    requires i < |p| && forall s | s in p :: IsSegment(s)
    ensures IsSegment(p[i])
    ensures var r := AbsoluteSegment(t, p[i]);
            AbsoluteFrom(t, p[i..]) == [r] + AbsoluteFrom(AbsoluteTrack(t, r), p[i + 1..])
  {
    assert p[i] in p && p[i..][1..] == p[i + 1..];
  }

  lemma FirstMove(s: Segment)
    requires IsSegment(s) && s.cmd == 'M'
    ensures AbsoluteSegment(ZERO, s) == Segment('M', [s.args[0], s.args[1]])
    ensures AbsoluteTrack(ZERO, AbsoluteSegment(ZERO, s)) == Tracker(s.args[0], s.args[1], s.args[0], s.args[1])
  {
    assert s.args == [s.args[0], s.args[1]];
  }

  /** The first switch of the loop body: the segment written for pa. */
  method RewriteAbsolute(pa: Segment, x: real, y: real, mx0: real, my0: real) returns (r: Segment, mx: real, my: real)
    requires IsSegment(pa)
    ensures r == AbsoluteSegment(Tracker(x, y, mx0, my0), pa)
    ensures AbsoluteTrack(Tracker(x, y, mx, my), r) == AbsoluteTrack(Tracker(x, y, mx0, my0), r)
  {
    mx, my := mx0, my0;
    if IsLower(pa.cmd) {
      var cmd := Upper(pa.cmd);
      if cmd == 'A' {
        r := Segment(cmd, pa.args[..5] + [pa.args[5] + x, pa.args[6] + y]);
      } else if cmd == 'V' {
        r := Segment(cmd, [pa.args[0] + y]);
      } else if cmd == 'H' {
        r := Segment(cmd, [pa.args[0] + x]);
      } else {
        if cmd == 'M' {
          mx, my := pa.args[0] + x, pa.args[1] + y;
        }
        var args := Shift(pa.args, x, y);
        r := Segment(cmd, args);
      }
    } else {
      r := pa;
    }
  }

  /** The second switch: where the segment r leaves the pen. */
  method TrackAbsolute(r: Segment, x0: real, y0: real, mx0: real, my0: real)
    returns (x: real, y: real, mx: real, my: real)
    requires IsSegment(r) && !IsLower(r.cmd)
    ensures Tracker(x, y, mx, my) == AbsoluteTrack(Tracker(x0, y0, mx0, my0), r)
  {
    x, y, mx, my := x0, y0, mx0, my0;
    var len := |r.args|;
    if r.cmd == 'Z' {
      x, y := mx, my;
    } else if r.cmd == 'H' {
      x := r.args[0];
    } else if r.cmd == 'V' {
      y := r.args[0];
    } else {
      if r.cmd == 'M' {
        mx, my := r.args[len - 2], r.args[len - 1];
      }
      x, y := r.args[len - 2], r.args[len - 1];
    }
  }

  /** The inner loop over the arguments of a segment. */
  method Shift(args: seq<real>, x: real, y: real) returns (r: seq<real>)
    ensures r == Shifted(args, x, y)
  {
    r := [];
    for j := 0 to |args|
      invariant r == Shifted(args, x, y)[..j]
    {
      r := r + [args[j] + if j % 2 == 0 then x else y];
    }
  }

  // ----- pathToRelative -----

  /** +(r).toFixed(3): the nearest multiple of 0.001, the one further from 0 on a tie. */
  function Round3(r: real): real {
    if r >= 0.0 then (r * 1000.0 + 0.5).Floor as real / 1000.0
    else -((-r * 1000.0 + 0.5).Floor as real / 1000.0)
  }

  function RoundedDifference(args: seq<real>, x: real, y: real): (r: seq<real>)
    ensures |r| == |args|
  {
    seq(|args|, i requires 0 <= i < |args| => Round3(args[i] - if i % 2 == 0 then x else y))
  }

  function RelativeArgs(t: Tracker, s: Segment): (r: seq<real>)
    requires IsSegment(s)
    ensures |r| == |s.args|
  {
    var a := s.args;
    if !IsUpper(s.cmd) then a
    else if s.cmd == 'A' then a[..5] + [Round3(a[5] - t.x), Round3(a[6] - t.y)]
    else if s.cmd == 'V' then [Round3(a[0] - t.y)]
    else RoundedDifference(a, t.x, t.y)
  }

  function RelativeSegment(t: Tracker, s: Segment): (r: Segment)
    requires IsSegment(s)
    ensures IsSegment(r) && !IsUpper(r.cmd)
  {
    Segment(Lower(s.cmd), RelativeArgs(t, s))
  }

  /** The variables after segment s has been written as r: a moveto records the unrounded start
      of its subpath, and x and y follow the rounded result. */
  function RelativeTrack(t: Tracker, s: Segment): Tracker
    requires IsSegment(s)
  {
    var r := RelativeSegment(t, s);
    match r.cmd
    case 'z' => t.(x := t.mx, y := t.my)
    case 'h' => t.(x := t.x + r.args[0])
    case 'v' => t.(y := t.y + r.args[0])
    case 'm' =>
      var (mx, my) := if s.cmd == 'M' then (s.args[0], s.args[1]) else (s.args[0] + t.x, s.args[1] + t.y);
      Tracker(t.x + r.args[0], t.y + r.args[1], mx, my)
    case _ => t.(x := t.x + Last(r.args, 1), y := t.y + Last(r.args, 0))
  }

  function RelativeFrom(t: Tracker, p: Path): (r: Path)
    requires forall s | s in p :: IsSegment(s)
    ensures |r| == |p|
    ensures forall s | s in r :: IsSegment(s) && !IsUpper(s.cmd)
    decreases |p|
  {
    if p == [] then []
    else [RelativeSegment(t, p[0])] + RelativeFrom(RelativeTrack(t, p[0]), p[1..])
  }

  /** A first absolute moveto stays as it is. */
  function Relative(p: Path): (r: Path)
    requires WellFormed(p)
    ensures WellFormed(r) && |r| == |p|
  {
    assert p[0] in p;
    if p[0].cmd == 'M' then
      var (x, y) := (p[0].args[0], p[0].args[1]);
      [Segment('M', [x, y])] + RelativeFrom(Tracker(x, y, x, y), p[1..])
    else
      var r := RelativeFrom(ZERO, p);
      assert r[0] == RelativeSegment(ZERO, p[0]);
      r
  }

  method PathToRelative(p: Path) returns (res: Path)
    requires WellFormed(p)
    ensures res == Relative(p)
  {
    hide RelativeSegment, RelativeTrack, RelativeFrom;
    res := [];
    var x, y, mx, my := 0.0, 0.0, 0.0, 0.0;
    var start := 0;
    assert p[0] in p && p[0..] == p;
    if p[0].cmd == 'M' {
      x, y := p[0].args[0], p[0].args[1];
      mx, my := x, y;
      start := 1;
      res := [Segment('M', [x, y])];
    }
    var i := start;
    while i < |p|
      invariant start <= i <= |p| && |res| == i
      invariant Relative(p) == res + RelativeFrom(Tracker(x, y, mx, my), p[i..])
    {
      RelativeStep(Tracker(x, y, mx, my), p, i);
      var r, mx', my' := RewriteRelative(p[i], x, y, mx, my);
      res := res + [r];
      x, y := TrackRelative(p[i], r, x, y, mx, my, mx', my');
      mx, my := mx', my';
      i := i + 1;
    }
    assert RelativeFrom(Tracker(x, y, mx, my), p[i..]) == [];
  }

  lemma RelativeStep(t: Tracker, p: Path, i: nat)
    requires i < |p| && forall s | s in p :: IsSegment(s)
    ensures IsSegment(p[i])
    ensures RelativeFrom(t, p[i..]) == [RelativeSegment(t, p[i])] + RelativeFrom(RelativeTrack(t, p[i]), p[i + 1..])
  {
    assert p[i] in p && p[i..][1..] == p[i + 1..];
  }

  /** The first part of the loop body: the segment written for pa, and where its subpath starts. */
  method RewriteRelative(pa: Segment, x: real, y: real, mx0: real, my0: real) returns (r: Segment, mx: real, my: real)
    requires IsSegment(pa)
    ensures r == RelativeSegment(Tracker(x, y, mx0, my0), pa)
    ensures Lower(pa.cmd) != 'm' ==> mx == mx0 && my == my0
    ensures pa.cmd == 'M' ==> mx == pa.args[0] && my == pa.args[1]
    ensures pa.cmd == 'm' ==> mx == pa.args[0] + x && my == pa.args[1] + y
  {
    mx, my := mx0, my0;
    if IsUpper(pa.cmd) {
      var cmd := Lower(pa.cmd);
      if cmd == 'a' {
        r := Segment(cmd, pa.args[..5] + [Round3(pa.args[5] - x), Round3(pa.args[6] - y)]);
      } else if cmd == 'v' {
        r := Segment(cmd, [Round3(pa.args[0] - y)]);
      } else {
        if cmd == 'm' {
          mx, my := pa.args[0], pa.args[1];
        }
        var args := RoundDifference(pa.args, x, y);
        r := Segment(cmd, args);
      }
    } else {
      if pa.cmd == 'm' {
        mx, my := pa.args[0] + x, pa.args[1] + y;
      }
      r := pa;
    }
  }

  /** The last switch: x and y follow what was written. */
  method TrackRelative(ghost pa: Segment, r: Segment, x0: real, y0: real, ghost mx0: real, ghost my0: real,
                       mx: real, my: real)
    returns (x: real, y: real)
    requires IsSegment(pa) && r == RelativeSegment(Tracker(x0, y0, mx0, my0), pa)
    requires Lower(pa.cmd) != 'm' ==> mx == mx0 && my == my0
    requires pa.cmd == 'M' ==> mx == pa.args[0] && my == pa.args[1]
    requires pa.cmd == 'm' ==> mx == pa.args[0] + x0 && my == pa.args[1] + y0
    ensures Tracker(x, y, mx, my) == RelativeTrack(Tracker(x0, y0, mx0, my0), pa)
  {
    x, y := x0, y0;
    var len := |r.args|;
    if r.cmd == 'z' {
      x, y := mx, my;
    } else if r.cmd == 'h' {
      x := x + r.args[len - 1];
    } else if r.cmd == 'v' {
      y := y + r.args[len - 1];
    } else {
      x := x + r.args[len - 2];
      y := y + r.args[len - 1];
    }
  }

  /** The inner loop over the arguments of a segment. */
  method RoundDifference(args: seq<real>, x: real, y: real) returns (r: seq<real>)
    ensures r == RoundedDifference(args, x, y)
  {
    r := [];
    for j := 0 to |args|
      invariant r == RoundedDifference(args, x, y)[..j]
    {
      r := r + [Round3(args[j] - if j % 2 == 0 then x else y)];
    }
  }
}
