/** The keyword ranges "last", "this" and "next" day, week, month and year tile the time around now, and
    `parse` reads each keyword as its period. */
module KeywordRanges {
  import opened Wrappers
  import opened Calendar
  import opened DateRange
  import opened RelativeRanges

  /** The periods of the keywords: precision and, for weeks, the number of days. */
  predicate IsPeriod(p: nat, days: int) {
    p <= 2 && (days == 0 || (days == 7 && p == 2))
  }

  function Step(days: int): int {
    if days == 0 then 1 else days
  }

  /** The boundary k periods after the start of the period that contains now, by the calendar alone. */
  function Edge(now: int, p: nat, days: int, k: int): int
    requires IsPeriod(p, days)
  {
    var a := MakeArray(now);
    if p == 0 then DayFromYear(a[0] + k) * MS_PER_DAY
    else if p == 1 then MakeDay(a[0], a[1] - 1 + k, 1) * MS_PER_DAY
    else if days == 0 then (now / MS_PER_DAY + k) * MS_PER_DAY
    else (now / MS_PER_DAY - Weekday(now) + days * k) * MS_PER_DAY
  }

  ghost predicate WholeUnit(start: int, end: int, p: nat)
    requires p < 7
  {
    start < end && forall x :: start <= x < end <==> SameUnit(x, start, p)
  }

  /** Seven days from a Sunday midnight, of which the first was that of 4 January 1970. */
  predicate WholeWeek(start: int, end: int) {
    (start - 3 * MS_PER_DAY) % (7 * MS_PER_DAY) == 0 && end == start + 7 * MS_PER_DAY
  }

  ghost predicate Whole(r: Range, p: nat, days: int)
    requires p < 7
  {
    && r.start.Some? && r.end.Some?
    && if days == 0 then WholeUnit(r.start.value, r.end.value, p) else WholeWeek(r.start.value, r.end.value)
  }

  /** Three adjacent whole periods, the middle one around now. */
  ghost predicate Tile(now: int, p: nat, days: int, last: Range, this_: Range, next: Range)
    requires p < 7
  {
    && Whole(last, p, days) && Whole(this_, p, days) && Whole(next, p, days)
    && last.end == this_.start && this_.end == next.start
    && this_.start.value <= now < this_.end.value
  }

  /** Every year that the three ranges pass to Date.UTC is one that it does not shift. */
  predicate KeywordYears(y: int, p: nat) {
    if p == 0 then y < -2 || y > 100 else y < 0 || y > 99
  }

  /** The same for the range of the period that is k after now's. */
  predicate Unshifted(y: int, p: nat, k: int) {
    if p == 0 then !(0 <= y + k <= 99) && !(0 <= y + k + 1 <= 99) else !(0 <= y <= 99)
  }

  // ----- The calendar's boundaries delimit whole periods -----

  lemma EdgeWhole(now: int, p: nat, days: int, k: int)
    requires IsPeriod(p, days)
    ensures var r := Range(Some(Edge(now, p, days, k)), Some(Edge(now, p, days, k + 1)));
            Whole(r, p, days)
  {
    hide MakeArray, UnitStart, UnitEnd, WholeUnit, WholeWeek, MakeDay;
    var start, end := Edge(now, p, days, k), Edge(now, p, days, k + 1);
    var a := MakeArray(now);
    if p == 0 {
      YearStartFields(a[0] + k);
      UnitWhole(start, end, p);
    } else if p == 1 {
      MonthCarry(a[0], a[1] - 1 + k);
      UnitWhole(start, end, p);
    } else if days == 0 {
      DayStartFields(now / MS_PER_DAY + k);
      UnitWhole(start, end, p);
    } else {
      WeekWhole(now, k);
    }
  }

  lemma UnitWhole(start: int, end: int, p: nat)
    requires p < 7 && start < end
    requires UnitStart(MakeArray(start), p) == start && UnitEnd(MakeArray(start), p) == end
    ensures WholeUnit(start, end, p)
  {
    hide MakeArray, UnitStart, UnitEnd, SameUnit;
    forall x
      ensures start <= x < end <==> SameUnit(x, start, p)
    {
      UnitMembers(start, p, x);
    }
  }

  lemma YearStartFields(y: int)
    ensures var a := MakeArray(DayFromYear(y) * MS_PER_DAY);
            UnitStart(a, 0) == DayFromYear(y) * MS_PER_DAY && UnitEnd(a, 0) == DayFromYear(y + 1) * MS_PER_DAY
    ensures DayFromYear(y) < DayFromYear(y + 1)
  {
    hide YearOfDay, MonthOfDay, DateOfDay, DayFromYear;
    YearLength(y);
    YearOfDayUnique(DayFromYear(y), y);
  }

  lemma DayStartFields(d: int)
    ensures var a := MakeArray(d * MS_PER_DAY);
            UnitStart(a, 2) == d * MS_PER_DAY && UnitEnd(a, 2) == (d + 1) * MS_PER_DAY
  {
    hide MakeArray, MonthStart;
    DayUnit(d * MS_PER_DAY, d * MS_PER_DAY);
  }

  lemma MonthNonempty(y: int, m: int)
    requires 0 <= m < 12
    ensures MonthStart(y, m) < MonthStart(y, m + 1)
  {
    hide Leap, DayFromYear;
  }

  /** Months carry into the year in both directions. */
  lemma MonthCarry(y: int, k: int)
    ensures var start := MakeDay(y, k, 1) * MS_PER_DAY;
            && UnitStart(MakeArray(start), 1) == start
            && UnitEnd(MakeArray(start), 1) == MakeDay(y, k + 1, 1) * MS_PER_DAY
            && start < MakeDay(y, k + 1, 1) * MS_PER_DAY
  {
    hide YearOfDay, MonthOfDay, DateOfDay, MonthStart, MakeDay;
    var z, m := y + k / 12, k % 12;
    MonthNonempty(z, m);
    MonthUnique(MonthStart(z, m), z, m);
    FirstOfMonth(y, k);
  }

  lemma FirstOfMonth(y: int, k: int)
    ensures MakeDay(y, k, 1) == MonthStart(y + k / 12, k % 12)
    ensures MakeDay(y, k + 1, 1) == MonthStart(y + k / 12, k % 12 + 1)
  {
    hide MonthStart;
    if k % 12 == 11 {
      MakeDayInYear(y + k / 12, 12, 1);
    }
  }

  lemma WeekWhole(now: int, k: int)
    ensures WholeWeek(Edge(now, 2, 7, k), Edge(now, 2, 7, k + 1))
  {
    hide MakeArray, WholeWeek;
    var d := now / MS_PER_DAY;
    var week := (d + 4) / 7 + k - 1;
    assert d - (d + 4) % 7 + 7 * k == 3 + 7 * week;
    WeekFrom(week);
  }

  lemma WeekFrom(week: int)
    ensures WholeWeek((3 + 7 * week) * MS_PER_DAY, (3 + 7 * (week + 1)) * MS_PER_DAY)
  {
    assert (3 + 7 * week) * MS_PER_DAY - 3 * MS_PER_DAY == week * (7 * MS_PER_DAY);
  }

  lemma EdgesAround(now: int, p: nat, days: int)
    requires IsPeriod(p, days)
    ensures Edge(now, p, days, 0) <= now < Edge(now, p, days, 1)
  {
    hide YearOfDay, MonthOfDay, DateOfDay, DayFromYear, MonthStart, MakeDay;
    var a := MakeArray(now);
    if p == 1 {
      MakeDayInYear(a[0], a[1] - 1, 1);
      MakeDayInYear(a[0], a[1], 1);
    }
  }

  // ----- What the code computes -----

  /** Away from the shifted years, a keyword's ends are the calendar's boundaries, clipped to the
      times that Date can hold; a week is NaN at both ends when the day it is sought from is. */
  lemma KeywordIsEdges(now: int, p: nat, days: int, k: int)
    requires IsPeriod(p, days) && -1 <= k <= 1 && Unshifted(MakeArray(now)[0], p, k)
    ensures KeywordRange(now, p, k * Step(days), days)
         == if days == 7 && !IsTime((now / MS_PER_DAY + 7 * k) * MS_PER_DAY) then Range(None, None)
            else Range(TimeClip(Edge(now, p, days, k)), TimeClip(Edge(now, p, days, k + 1)))
  {
    hide KeywordRange, Edge, TimeClip, MakeArray, IsTime;
    if p == 0 {
      YearKeyword(now, k);
    } else if p == 1 {
      MonthKeyword(now, k);
    } else if days == 0 {
      DayKeyword(now, k);
    } else {
      WeekKeyword(now, k);
    }
  }

  lemma YearKeyword(now: int, k: int)
    requires -1 <= k <= 1 && Unshifted(MakeArray(now)[0], 0, k)
    ensures KeywordRange(now, 0, k, 0) == Range(TimeClip(Edge(now, 0, 0, k)), TimeClip(Edge(now, 0, 0, k + 1)))
  {
    hide MakeArray, DayFromYear, Utc, TimeClip;
    var y := MakeArray(now)[0];
    YearUtc(y + k);
    YearUtc(y + k + 1);
    assert Truncate(MakeArray(now)[0 := y + k], 0) == [y + k, 1, 1, 0, 0, 0, 0];
    assert [y + k, 1, 1, 0, 0, 0, 0][0 := y + k + 1] == [y + k + 1, 1, 1, 0, 0, 0, 0];
  }

  lemma MonthKeyword(now: int, k: int)
    requires -1 <= k <= 1 && Unshifted(MakeArray(now)[0], 1, k)
    ensures KeywordRange(now, 1, k, 0) == Range(TimeClip(Edge(now, 1, 0, k)), TimeClip(Edge(now, 1, 0, k + 1)))
  {
    hide MakeArray, MakeDay, TimeClip;
    var a := MakeArray(now);
    assert Truncate(a[1 := a[1] + k], 1) == [a[0], a[1] + k, 1, 0, 0, 0, 0];
  }

  lemma DayKeyword(now: int, k: int)
    requires -1 <= k <= 1 && Unshifted(MakeArray(now)[0], 2, k)
    ensures KeywordRange(now, 2, k, 0) == Range(TimeClip(Edge(now, 2, 0, k)), TimeClip(Edge(now, 2, 0, k + 1)))
  {
    hide MakeArray, MonthStart, Utc, TimeClip;
    var a := MakeArray(now);
    DayUnit(now, now);
    DayUtc(a, a[2] + k);
    DayUtc(a, a[2] + k + 1);
    assert Truncate(a[2 := a[2] + k], 2) == [a[0], a[1], a[2] + k, 0, 0, 0, 0];
    assert [a[0], a[1], a[2] + k, 0, 0, 0, 0][2 := a[2] + k + 1] == [a[0], a[1], a[2] + k + 1, 0, 0, 0, 0];
  }

  lemma WeekKeyword(now: int, k: int)
    requires -1 <= k <= 1 && Unshifted(MakeArray(now)[0], 2, k)
    ensures KeywordRange(now, 2, 7 * k, 7)
         == if !IsTime((now / MS_PER_DAY + 7 * k) * MS_PER_DAY) then Range(None, None)
            else Range(TimeClip(Edge(now, 2, 7, k)), TimeClip(Edge(now, 2, 7, k + 1)))
  {
    hide MakeArray, MonthStart, Utc;
    var a, d, wd := MakeArray(now), now / MS_PER_DAY, Weekday(now);
    DayUnit(now, now);
    WeekdayPeriodic(d, k);
    DayUtc(a, a[2] + 7 * k);
    DayUtc(a, a[2] + 7 * k - wd);
    DayUtc(a, a[2] + 7 * k - wd + 7);
    hide Weekday;
    var dt := [a[0], a[1], a[2] + 7 * k, 0, 0, 0, 0];
    assert Truncate(a[2 := a[2] + 7 * k], 2) == dt;
    assert dt[2 := dt[2] - wd] == [a[0], a[1], a[2] + 7 * k - wd, 0, 0, 0, 0];
    assert dt[2 := dt[2] - wd][2 := dt[2] - wd + 7] == [a[0], a[1], a[2] + 7 * k - wd + 7, 0, 0, 0, 0];
  }

  lemma YearUtc(y: int)
    requires !(0 <= y <= 99)
    ensures Utc([y, 1, 1, 0, 0, 0, 0]) == DayFromYear(y) * MS_PER_DAY
  {
    hide DayFromYear, Leap;
    PlainUtc([y, 1, 1, 0, 0, 0, 0]);
  }

  lemma DayUtc(a: seq<int>, date: int)
    requires |a| == 7 && !(0 <= a[0] <= 99) && 1 <= a[1] <= 12
    ensures Utc([a[0], a[1], date, 0, 0, 0, 0]) == (MonthStart(a[0], a[1] - 1) + date - 1) * MS_PER_DAY
  {
    hide MonthStart, Utc;
    PlainUtc([a[0], a[1], date, 0, 0, 0, 0]);
  }

  lemma WeekdayPeriodic(d: int, k: int)
    ensures Weekday((d + 7 * k) * MS_PER_DAY) == (d + 4) % 7
  {
    assert (d + 7 * k) * MS_PER_DAY / MS_PER_DAY == d + 7 * k;
  }

  lemma EdgesIncrease(now: int, p: nat, days: int, k: int)
    requires IsPeriod(p, days)
    ensures Edge(now, p, days, k) < Edge(now, p, days, k + 1)
  {
    EdgeWhole(now, p, days, k);
    hide Edge, WholeUnit;
  }

  // ----- Shifted years -----

  /** In a shifted year "this" starts after now. */
  lemma ShiftedThis(now: int, p: nat, days: int)
    requires IsPeriod(p, days) && 0 <= MakeArray(now)[0] <= 99
    ensures var r := KeywordRange(now, p, 0, days);
            r.start.Some? ==> now < r.start.value
  {
    hide Utc, MonthOfDay, DateOfDay, YearOfDay;
    var a := MakeArray(now);
    var dt := Truncate(a, p);
    assert a[p := a[p] + 0] == a;
    ShiftedUtc(dt, now);
    if days == 7 && FromArray(dt).Some? {
      var wd := Weekday(FromArray(dt).value);
      ShiftedUtc(dt[2 := dt[2] - wd], now);
    }
  }

  /** In the year 100 "lastyear" starts in 1999. */
  lemma ShiftedLast(now: int)
    requires MakeArray(now)[0] == 100
    ensures !Whole(KeywordRange(now, 0, -1, 0), 0, 0)
  {
    hide MakeArray, TimeClip, Utc, DayFromYear;
    assert Truncate(MakeArray(now)[0 := 100 - 1], 0) == [99, 1, 1, 0, 0, 0, 0];
    assert [99, 1, 1, 0, 0, 0, 0][0 := 100] == [100, 1, 1, 0, 0, 0, 0];
    ShiftedYearUtc(99);
    YearUtc(100);
    YearsIncrease(100, 1999);
    ClippedOrder([99, 1, 1, 0, 0, 0, 0], [100, 1, 1, 0, 0, 0, 0]);
  }

  lemma ShiftedYearUtc(y: int)
    requires 0 <= y <= 99
    ensures Utc([y, 1, 1, 0, 0, 0, 0]) == DayFromYear(1900 + y) * MS_PER_DAY
  {
    hide DayFromYear, Leap;
    MakeDayInYear(1900 + y, 0, 1);
  }

  lemma ClippedOrder(a: seq<int>, b: seq<int>)
    requires |a| == |b| == 7 && Utc(b) <= Utc(a)
    ensures FromArray(a).Some? && FromArray(b).Some? ==> FromArray(b).value <= FromArray(a).value
  {
  }

  /** The year before the year 0 ends in 1900. */
  lemma ShiftedEnd(now: int, k: int)
    requires MakeArray(now)[0] + k == -1
    ensures !Whole(KeywordRange(now, 0, k, 0), 0, 0)
  {
    hide MakeArray, Utc, DayFromYear, UnitStart, UnitEnd, SameUnit;
    assert Truncate(MakeArray(now)[0 := -1], 0) == [-1, 1, 1, 0, 0, 0, 0];
    assert [-1, 1, 1, 0, 0, 0, 0][0 := 0] == [0, 1, 1, 0, 0, 0, 0];
    YearUtc(-1);
    ShiftedYearUtc(0);
    YearsIncrease(-1, 0);
    YearsIncrease(0, 1900);
    var start, x := DayFromYear(-1) * MS_PER_DAY, DayFromYear(0) * MS_PER_DAY;
    YearStartFields(-1);
    UnitMembers(start, 0, x);
  }

  // ----- The theorem -----

  /** The words for the period before now's, now's own and the one after it. */
  function Words(p: nat, days: int): (string, string, string)
    requires IsPeriod(p, days)
  {
    if p == 0 then ("lastyear", "thisyear", "nextyear")
    else if p == 1 then ("lastmonth", "thismonth", "nextmonth")
    else if days == 0 then ("yesterday", "today", "tomorrow")
    else ("lastweek", "thisweek", "nextweek")
  }

  /** The range of a keyword before `parse` makes its end inclusive. */
  function Named(now: int, word: string): Range {
    match Keyword(word)
    case None => Range(None, None)
    case Some((p, offset, days)) => KeywordRange(now, p, offset, days)
  }

  /** The three ranges of a period tile the time around now, if and only if no year they name is
      one that Date.UTC shifts and their outermost boundaries are times that Date can hold. */
  lemma KeywordsTile(now: int, p: nat, days: int)
    requires IsPeriod(p, days) && IsTime(now)
    ensures var (last, this_, next) := Words(p, days);
            Tile(now, p, days, Named(now, last), Named(now, this_), Named(now, next))
            <==> (KeywordYears(MakeArray(now)[0], p)
                  && IsTime(Edge(now, p, days, -1)) && IsTime(Edge(now, p, days, 2)))
  {
    hide MakeArray, KeywordRange, Edge, WholeUnit, WholeWeek;
    var y := MakeArray(now)[0];
    if KeywordYears(y, p) {
      TileAwayFromShift(now, p, days);
    } else if 0 <= y <= 99 {
      ShiftedThis(now, p, days);
    } else if y == 100 {
      ShiftedLast(now);
    } else {
      ShiftedEnd(now, -1 - y);
    }
  }

  lemma TileAwayFromShift(now: int, p: nat, days: int)
    requires IsPeriod(p, days) && IsTime(now) && KeywordYears(MakeArray(now)[0], p)
    ensures Tile(now, p, days, KeywordRange(now, p, -Step(days), days), KeywordRange(now, p, 0, days),
                 KeywordRange(now, p, Step(days), days))
            <==> (IsTime(Edge(now, p, days, -1)) && IsTime(Edge(now, p, days, 2)))
  {
    hide MakeArray, KeywordRange, Edge, WholeUnit, WholeWeek;
    KeywordIsEdges(now, p, days, -1);
    KeywordIsEdges(now, p, days, 0);
    KeywordIsEdges(now, p, days, 1);
    EdgeWhole(now, p, days, -1);
    EdgeWhole(now, p, days, 0);
    EdgeWhole(now, p, days, 1);
    EdgesAround(now, p, days);
    EdgesIncrease(now, p, days, -1);
    EdgesIncrease(now, p, days, 1);
    if days == 7 {
      WeekAround(now);
    }
  }

  /** The day from which a week is sought lies in that week. */
  lemma WeekAround(now: int)
    ensures forall k | -1 <= k <= 1 ::
      Edge(now, 2, 7, k) <= (now / MS_PER_DAY + 7 * k) * MS_PER_DAY < Edge(now, 2, 7, k + 1)
  {
    hide MakeArray;
  }

  // ----- What parse makes of a keyword -----

  function Word(p: nat, days: int, k: int): string
    requires IsPeriod(p, days) && -1 <= k <= 1
  {
    var (last, this_, next) := Words(p, days);
    if k < 0 then last else if k == 0 then this_ else next
  }

  lemma KeywordTerm(now: int, p: nat, days: int, k: int)
    requires IsPeriod(p, days) && -1 <= k <= 1
    ensures ProcTerm(now, Word(p, days, k)) == Some(Span(KeywordRange(now, p, k * Step(days), days)))
  {
    hide KeywordRange, Keyword, Word, NumericGroups, LeadingDigits, MakeArray, Normalised;
    WordIsKeyword(p, days, k);
    NormalisedWord(Word(p, days, k));
  }

  lemma WordIsKeyword(p: nat, days: int, k: int)
    requires IsPeriod(p, days) && -1 <= k <= 1
    ensures var word := Word(p, days, k);
            && word != "" && word != "now" && (forall c | c in word :: IsLetter(c))
            && Keyword(word) == Some((p, k * Step(days), days))
  {
  }

  /** Nineteen centuries later. */
  lemma LaterCentury(y: int, month: int, date: int)
    ensures MakeDay(1900 + y, month, date) > MakeDay(y, month, date) + 10
  {
    hide DayFromYear, Leap;
    YearsIncrease(y + month / 12, 1900 + y + month / 12);
  }

  /** A shifted start is later than the calendar's. */
  lemma ShiftedKeyword(now: int, p: nat, days: int, k: int)
    requires IsPeriod(p, days) && -1 <= k <= 1
    requires if p == 0 then 0 <= MakeArray(now)[0] + k <= 99 else 0 <= MakeArray(now)[0] <= 99
    ensures var r := KeywordRange(now, p, k * Step(days), days);
            r.start.Some? ==> Edge(now, p, days, k) < r.start.value
  {
    hide MakeArray, MakeDay, DayFromYear;
    var a := MakeArray(now);
    if p == 0 {
      ShiftedYearUtc(a[0] + k);
      YearsIncrease(a[0] + k, 1900 + a[0] + k);
      assert Truncate(a[0 := a[0] + k], 0) == [a[0] + k, 1, 1, 0, 0, 0, 0];
    } else if p == 1 {
      LaterCentury(a[0], a[1] - 1 + k, 1);
    } else {
      DayUnit(now, now);
      LaterCentury(a[0], a[1] - 1, a[2] + k * Step(days));
      MakeDayInYear(a[0], a[1] - 1, a[2] + k * Step(days));
      if days == 7 {
        ShiftedWeek(now, k);
      }
    }
  }

  lemma ShiftedWeek(now: int, k: int)
    requires -1 <= k <= 1 && 0 <= MakeArray(now)[0] <= 99
    requires var a := MakeArray(now);
             MakeDay(1900 + a[0], a[1] - 1, a[2] + 7 * k) > now / MS_PER_DAY + 7 * k + 10
    ensures var r := KeywordRange(now, 2, 7 * k, 7);
            r.start.Some? ==> Edge(now, 2, 7, k) < r.start.value
  {
    hide MakeArray, Utc, MakeDay;
    var a := MakeArray(now);
    var dt := Truncate(a[2 := a[2] + 7 * k], 2);
    if FromArray(dt).Some? {
      var wd := Weekday(FromArray(dt).value);
      assert dt[2 := dt[2] - wd] == [a[0], a[1], a[2] + 7 * k - wd, 0, 0, 0, 0];
      ShiftedDayUtc(a, a[2] + 7 * k, wd);
    }
  }

  lemma ShiftedDayUtc(a: seq<int>, date: int, wd: int)
    requires |a| == 7 && 0 <= a[0] <= 99
    ensures Utc([a[0], a[1], date - wd, 0, 0, 0, 0]) == (MakeDay(1900 + a[0], a[1] - 1, date) - wd) * MS_PER_DAY
  {
    hide MonthStart;
  }

  /** The word for the period that is k after now's is read as that period, if and only if Date.UTC
      shifts none of its years, both its boundaries are times, and it does not end at the epoch. */
  lemma KeywordParsed(now: int, p: nat, days: int, k: int)
    requires IsPeriod(p, days) && -1 <= k <= 1
    ensures var start, end := Edge(now, p, days, k), Edge(now, p, days, k + 1);
            Exactly(Parse(now, Some(Word(p, days, k)), Single, None), x => start <= x < end)
            <==> Unshifted(MakeArray(now)[0], p, k) && IsTime(start) && IsTime(end) && end != 0
  {
    hide ProcTerm, KeywordRange, Edge, MakeArray, Word;
    KeywordTerm(now, p, days, k);
    EdgesIncrease(now, p, days, k);
    var y, r := MakeArray(now)[0], Parse(now, Some(Word(p, days, k)), Single, None).value;
    var start, end := Edge(now, p, days, k), Edge(now, p, days, k + 1);
    if Unshifted(y, p, k) {
      KeywordIsEdges(now, p, days, k);
      if days == 7 {
        WeekAround(now);
      }
      if end == 0 && IsTime(start) {
        assert Within(0, r);
      } else if !IsTime(start) || !IsTime(end) {
        assert !Within(start, r);
      }
    } else if p == 0 && y + k == -1 {
      EndsIn1900(now, k);
      assert Within(end, r);
    } else {
      ShiftedKeyword(now, p, days, k);
      assert !Within(start, r);
    }
  }

  lemma EndsIn1900(now: int, k: int)
    requires -1 <= k <= 1 && MakeArray(now)[0] + k == -1
    ensures var r, end := KeywordRange(now, 0, k, 0), Edge(now, 0, 0, k + 1);
            r.start.Some? && r.start.value < end && r.end.Some? && end < r.end.value < 0
  {
    hide MakeArray, Utc, DayFromYear;
    assert Truncate(MakeArray(now)[0 := -1], 0) == [-1, 1, 1, 0, 0, 0, 0];
    assert [-1, 1, 1, 0, 0, 0, 0][0 := 0] == [0, 1, 1, 0, 0, 0, 0];
    YearUtc(-1);
    ShiftedYearUtc(0);
    YearsIncrease(-1, 0);
    YearsIncrease(0, 1900);
    assert DayFromYear(-1) >= -730000 && DayFromYear(1900) < -1 by { YearsOfEdges(); }
  }

  lemma YearsOfEdges()
    ensures DayFromYear(-1) == -719893 && DayFromYear(1900) == -25567
  {
  }
}
