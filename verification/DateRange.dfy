/** The date range language: `print` and `parse` of date-range-parser.js.
    A term and the operator between two terms are taken as already split. */
module DateRange {
  import opened Wrappers
  import opened Calendar
  import opened Decimal

  // ----- Printing -----

  const SEPARATORS := ["", "-", "-", " ", ":", ":", "."]

  /** The fields of t up to field p, each after its separator. */
  function Printed(t: int, p: nat): (s: string)
    requires p < 7
  {
    if p == 0 then Padded(MakeArray(t)[0])
    else Printed(t, p - 1) + SEPARATORS[p] + Padded(MakeArray(t)[p])
  }

  method Print(t: int, p: nat) returns (str: string)
    requires p < 7
    ensures str == Printed(t, p)
  {
    var da := MakeArray(t);
    str := "";
    for i := 0 to p + 1
      invariant str == if i == 0 then "" else Printed(t, i - 1)
    {
      str := str + SEPARATORS[i] + Padded(da[i]);
    }
  }

  // ----- Numeric terms -----

  /** What the numeric pattern captures: year, month, day, hour, minute, second. */
  type Groups = g: seq<Option<nat>> | |g| == 6 witness [None, None, None, None, None, None]

  predicate IsNumericChar(c: char) {
    IsDigit(c) || c == ':' || c == '-'
  }

  /** A separator followed by two digits: the two digits and what is left. */
  function TwoDigits(s: string, sep: char): (r: Option<(nat, string)>) {
    if |s| >= 3 && s[0] == sep && AllDigits(s[1..3]) then Some((ParseInt(s[1..3]), s[3..])) else None
  }

  /** The time part: one or two digits of an hour, then minutes, then seconds, to the end of s. */
  function TimeGroups(s: string): (r: Option<(Option<nat>, Option<nat>, Option<nat>)>) {
    if s == "" then Some((None, None, None))
    else if !IsDigit(s[0]) then None
    else
      var n := if |s| > 1 && IsDigit(s[1]) then 2 else 1;
      var hour := ParseInt(s[..n]);
      if s[n..] == "" then Some((Some(hour), None, None)) else
      match TwoDigits(s[n..], ':')
      case None => None
      case Some((minute, rest)) =>
        if rest == "" then Some((Some(hour), Some(minute), None)) else
        match TwoDigits(rest, ':')
        case None => None
        case Some((second, end)) =>
          if end == "" then Some((Some(hour), Some(minute), Some(second))) else None
  }

  /** The numeric pattern on a term without spaces. A prefix of four digits is always the year:
      without one, at most two digits can precede a colon or the end. */
  function NumericGroups(s: string): (r: Option<Groups>) {
    var (date, rest) :=
      if |s| >= 4 && AllDigits(s[..4]) then
        var year := ParseInt(s[..4]);
        match TwoDigits(s[4..], '-')
        case None => ([Some(year), None, None], s[4..])
        case Some((month, r1)) =>
          match TwoDigits(r1, '-')
          case None => ([Some(year), Some(month), None], r1)
          case Some((day, r2)) => ([Some(year), Some(month), Some(day)], r2)
      else ([None, None, None], s);
    match TimeGroups(rest)
    case None => None
    case Some((h, m, sec)) => Some(date + [h, m, sec])
  }

  /** Some field before i was given. */
  predicate GivenBefore(g: Groups, i: nat) {
    exists j | 0 <= j < i && j < 6 :: g[j].Some?
  }

  /** Field i of a numeric term: as given; after a given field, its least value; else that of now. */
  function NumericField(now: int, g: Groups, i: nat): int
    requires i < 7
  {
    if i < 6 && g[i].Some? then g[i].value
    else if GivenBefore(g, i) then (if i < 3 then 1 else 0)
    else MakeArray(now)[i]
  }

  /** The last of the first n fields that is given, 0 if there is none. */
  function LastGiven(g: Groups, n: nat): (p: nat)
    requires n <= 6
    ensures p < 6
  {
    if n == 0 then 0 else if g[n - 1].Some? then n - 1 else LastGiven(g, n - 1)
  }

  datatype Range = Range(start: Option<int>, end: Option<int>)

  /** A field array with field p advanced: the half-open range of makePrecRange. */
  function PrecRange(fields: seq<int>, p: nat, step: int): (r: Range)
    requires |fields| == 7 && p < 7
  {
    Range(FromArray(fields), FromArray(fields[p := fields[p] + step]))
  }

  function NumericFields(now: int, g: Groups): (f: seq<int>)
    ensures |f| == 7
    ensures forall i | 0 <= i < 7 :: f[i] == NumericField(now, g, i)
  {
    seq(7, i requires 0 <= i < 7 => NumericField(now, g, i))
  }

  /** The loop of procTerm over the captured groups. */
  method NumericRange(now: int, g: Groups) returns (r: Range)
    ensures r == PrecRange(NumericFields(now, g), LastGiven(g, 6), 1)
  {
    hide MakeArray, FromArray;
    var dn := MakeArray(now);
    var p, z := 0, false;
    for i := 0 to 7
      invariant |dn| == 7 && 0 <= p < 7
      invariant z <==> GivenBefore(g, i)
      invariant p == LastGiven(g, if i < 6 then i else 6)
      invariant forall j | 0 <= j < i :: dn[j] == NumericField(now, g, j)
      invariant forall j | i <= j < 7 :: dn[j] == MakeArray(now)[j]
    {
      if i < 6 && g[i].Some? {
        dn := dn[i := g[i].value];
        p := i;
        z := true;
      } else {
        if z {
          dn := dn[i := if i < 3 then 1 else 0];
        }
      }
    }
    assert dn == NumericFields(now, g);
    r := PrecRange(dn, p, 1);
  }

  // ----- Keyword terms -----

  function Weekday(t: int): int {
    (t / MS_PER_DAY + 4) % 7
  }

  /** `dra`: the unit of precision p that lies `offset` units from now, or, when `days` is not 0,
      the span of that many days from the Sunday on or before that day. */
  function KeywordRange(now: int, p: nat, offset: int, days: int): (r: Range)
    requires p < 7 && (days != 0 ==> p == 2)
  {
    var a := MakeArray(now);
    var dt := Truncate(a[p := a[p] + offset], p);
    if days == 0 then PrecRange(dt, p, 1) else
    match FromArray(dt)
    case None => Range(None, None)
    case Some(day) => PrecRange(dt[2 := dt[2] - Weekday(day)], p, days)
  }

  /** The precision, offset and length in days that each keyword passes to `dra`. */
  function Keyword(word: string): (r: Option<(nat, int, int)>)
    ensures r.Some? ==> r.value.0 <= 2 && (r.value.2 != 0 ==> r.value.0 == 2)
  {
    match word
    case "today" => Some((2, 0, 0))
    case "thisweek" => Some((2, 0, 7))
    case "thismonth" => Some((1, 0, 0))
    case "thisyear" => Some((0, 0, 0))
    case "yesterday" => Some((2, -1, 0))
    case "lastweek" => Some((2, -7, 7))
    case "lastmonth" => Some((1, -1, 0))
    case "lastyear" => Some((0, -1, 0))
    case "tomorrow" => Some((2, 1, 0))
    case "nextweek" => Some((2, 7, 7))
    case "nextmonth" => Some((1, 1, 0))
    case "nextyear" => Some((0, 1, 0))
    case _ => None
  }

  // ----- Relative terms -----

  /** Milliseconds in a unit, by any of its aliases. */
  function UnitValue(unit: string): (r: Option<int>) {
    if unit in ["y", "yr", "yrs", "year", "years"] then Some(365 * MS_PER_DAY)
    else if unit in ["mo", "mon", "mos", "mons", "month", "months"] then Some(31 * MS_PER_DAY)
    else if unit in ["d", "dy", "dys", "day", "days"] then Some(MS_PER_DAY)
    else if unit in ["h", "hr", "hrs", "hour", "hours"] then Some(3600000)
    else if unit in ["m", "min", "mins", "minute", "minutes"] then Some(60000)
    else if unit in ["s", "sec", "secs", "second", "seconds"] then Some(1000)
    else None
  }

  // ----- Terms -----

  /** A relative term of an unknown unit is NaN, that is, Rel(None). */
  datatype Term = Span(range: Range) | Now(at: int) | Rel(ms: Option<int>)

  predicate IsSpace(c: char) {
    c in " \t\n\r"
  }

  predicate IsLetter(c: char) {
    'a' <= c <= 'z'
  }

  function ToLower(c: char): char {
    if 'A' <= c <= 'Z' then c + ('a' - 'A') else c
  }

  /** The term without its spaces, in lower case. */
  function Normalised(s: string): string {
    if s == "" then ""
    else
      var c := s[|s| - 1];
      Normalised(s[..|s| - 1]) + if IsSpace(c) then "" else [ToLower(c)]
  }

  function LeadingDigits(s: string): (n: nat)
    ensures n <= |s| && AllDigits(s[..n])
    ensures n < |s| ==> !IsDigit(s[n])
  {
    if s == "" || !IsDigit(s[0]) then 0
    else
      var n := 1 + LeadingDigits(s[1..]);
      assert s[..n] == [s[0]] + s[1..][..n - 1];
      n
  }

  /** `procTerm`. None stands for its exceptions, which `parse` turns into null. */
  function ProcTerm(now: int, term: string): (r: Option<Term>) {
    var s := Normalised(term);
    var n := LeadingDigits(s);
    if s == "" then None
    else if forall c | c in s :: IsLetter(c) then
      if s == "now" then Some(Now(now)) else
      match Keyword(s)
      case None => None
      case Some((p, offset, days)) => Some(Span(KeywordRange(now, p, offset, days)))
    else if forall c | c in s :: IsNumericChar(c) then
      match NumericGroups(s)
      case None => None
      case Some(g) => Some(Span(PrecRange(NumericFields(now, g), LastGiven(g, 6), 1)))
    else if 0 < n < |s| && forall c | c in s[n..] :: IsLetter(c) then
      match UnitValue(s[n..])
      case None => Some(Rel(None))
      case Some(unit) => Some(Rel(Some(ParseInt(s[..n]) * unit)))
    else None
  }

  // ----- Ranges -----

  const DEFAULT_RANGE := MS_PER_DAY

  datatype Op = Single | To | Around

  /** An end of a range as JavaScript has it. */
  datatype Bound = Null | Undefined | NaN | At(t: int)

  datatype Bounds = Bounds(start: Bound, end: Bound)

  function ToBound(t: Option<int>): Bound {
    match t
    case None => NaN
    case Some(v) => At(v)
  }

  function StartOf(t: Term): Bound {
    match t
    case Span(r) => ToBound(r.start)
    case Now(at) => At(at)
    case Rel(_) => Undefined
  }

  function EndOf(t: Term): Bound {
    match t
    case Span(r) => ToBound(r.end)
    case Now(at) => At(at)
    case Rel(_) => Undefined
  }

  function Plus(b: Bound, d: Option<int>): Bound {
    if b.At? && d.Some? then At(b.t + d.value) else NaN
  }

  function Negated(d: Option<int>): Option<int> {
    match d
    case None => None
    case Some(v) => Some(-v)
  }

  /** term.rel is a number other than 0. */
  predicate HasRel(t: Term) {
    t.Rel? && t.ms.Some? && t.ms.value != 0
  }

  /** `_parse` after the terms are read, before the end is made inclusive; None is an exception. */
  function Combine(now: int, term1: Option<Term>, op: Op, term2: Option<Term>): (r: Option<Bounds>) {
    match op
    case To =>
      (match (term1, term2)
       case (None, None) => None
       case (Some(a), None) => Some(Bounds(StartOf(a), Null))
       case (None, Some(b)) => Some(Bounds(Null, EndOf(b)))
       case (Some(a), Some(b)) =>
         if HasRel(b) then Some(Bounds(StartOf(a), Plus(EndOf(a), b.ms)))
         else if HasRel(a) then Some(Bounds(Plus(StartOf(b), Negated(a.ms)), EndOf(b)))
         else Some(Bounds(StartOf(a), EndOf(b))))
    case Around =>
      if term1.None? then None
      else if term2.None? then
        Some(Bounds(Plus(StartOf(term1.value), Some(-DEFAULT_RANGE)), Plus(EndOf(term1.value), Some(DEFAULT_RANGE))))
      else if !term2.value.Rel? then None
      else Some(Bounds(Plus(StartOf(term1.value), Negated(term2.value.ms)), Plus(EndOf(term1.value), term2.value.ms)))
    case Single =>
      if term1.None? then None
      else if HasRel(term1.value) then
        Some(Bounds(At(now - term1.value.ms.value), At(now + term1.value.ms.value)))
      else if term1.value.Now? && term1.value.at != 0 then
        Some(Bounds(At(now - DEFAULT_RANGE), At(now + DEFAULT_RANGE)))
      else Some(Bounds(StartOf(term1.value), EndOf(term1.value)))
  }

  /** `parse` takes one millisecond off an end that is a number other than 0. */
  function InclusiveEnd(b: Bounds): Bounds {
    if b.end.At? && b.end.t != 0 then b.(end := At(b.end.t - 1)) else b
  }

  /** `parse` on the split text: an absent term is None, and a term that raises an exception,
      like a combination that does, makes the whole result null (None). */
  function Parse(now: int, text1: Option<string>, op: Op, text2: Option<string>): (r: Option<Bounds>) {
    var term1 := if text1.Some? then ProcTerm(now, text1.value) else None;
    var term2 := if text2.Some? then ProcTerm(now, text2.value) else None;
    if (text1.Some? && term1.None?) || (text2.Some? && term2.None?) then None else
    match Combine(now, term1, op, term2)
    case None => None
    case Some(b) => Some(InclusiveEnd(b))
  }

  predicate Within(x: int, b: Bounds) {
    && (b.start.Null? || (b.start.At? && b.start.t <= x))
    && (b.end.Null? || (b.end.At? && x <= b.end.t))
  }
}
