/** The proleptic Gregorian calendar of section 15.9.1 of ECMA-262 5.1: days, years,
    months, and the two field-array conversions that the date range language is built on
    (`makeArray` and `fromArray`). Times are integers, in milliseconds since the epoch. */
module Calendar {
  import opened Wrappers

  const MS_PER_DAY := 86400000

  /** Date.UTC yields NaN for times further than this from the epoch (TimeClip). */
  const MAX_TIME := 8640000000000000

  predicate IsTime(t: int) {
    -MAX_TIME <= t <= MAX_TIME
  }

  // ----- Years -----

  predicate Divides(k: int, y: int)
    requires k > 0
  {
    y % k == 0
  }

  predicate Leap(y: int) {
    Divides(4, y) && (!Divides(100, y) || Divides(400, y))
  }

  function DaysInYear(y: int): int {
    if Leap(y) then 366 else 365
  }

  function Floor(x: int, k: int): int
    requires k > 0
  {
    x / k
  }

  /** The number of the first day of year y, counted from 1 January 1970. */
  function DayFromYear(y: int): int {
    365 * (y - 1970) + Floor(y - 1969, 4) - Floor(y - 1901, 100) + Floor(y - 1601, 400)
  }

  lemma YearLength(y: int)
    ensures DayFromYear(y + 1) == DayFromYear(y) + DaysInYear(y)
    ensures DaysInYear(y) == if y % 4 == 0 && (y % 100 != 0 || y % 400 == 0) then 366 else 365
    ensures DayFromYear(1970) == 0
  {
    assert DayFromYear(1970) == 0 && (Leap(y) <==> y % 4 == 0 && (y % 100 != 0 || y % 400 == 0));
    hide Divides, Floor;
    Quadrennials(y);
    Centuries(y);
    QuadCenturies(y);
    RareCenturies(y);
  }

  lemma Quadrennials(y: int)
    ensures Floor(y + 1 - 1969, 4) == Floor(y - 1969, 4) + if Divides(4, y) then 1 else 0
  {
  }

  lemma Centuries(y: int)
    ensures Floor(y + 1 - 1901, 100) == Floor(y - 1901, 100) + if Divides(100, y) then 1 else 0
  {
  }

  lemma QuadCenturies(y: int)
    ensures Floor(y + 1 - 1601, 400) == Floor(y - 1601, 400) + if Divides(400, y) then 1 else 0
  {
  }

  lemma RareCenturies(y: int)
    ensures Divides(400, y) ==> Divides(100, y)
    ensures Divides(100, y) ==> Divides(4, y)
  {
  }

  lemma {:induction false} YearsIncrease(y: int, z: int)
    requires y < z
    ensures DayFromYear(y) + 365 * (z - y) <= DayFromYear(z)
    decreases z - y
  {
    hide DayFromYear;
    YearLength(z - 1);
    if y == z - 1 {
    } else {
      YearsIncrease(y, z - 1);
    }
  }

  /** The largest year that starts on or before day d, found by walking from 1970. */
  function YearOfDay(d: int): (y: int)
    ensures DayFromYear(y) <= d < DayFromYear(y + 1)
  {
    if d < 0 then YearBelow(d, 1969) else YearAbove(d, 1970)
  }

  function YearAbove(d: int, y: int): (r: int)
    requires DayFromYear(y) <= d
    ensures DayFromYear(r) <= d < DayFromYear(r + 1)
    decreases d - DayFromYear(y)
  {
    YearLength(y);
    if d < DayFromYear(y + 1) then y else YearAbove(d, y + 1)
  }

  function YearBelow(d: int, y: int): (r: int)
    requires d < DayFromYear(y + 1)
    ensures DayFromYear(r) <= d < DayFromYear(r + 1)
    decreases DayFromYear(y + 1) - d
  {
    YearLength(y);
    if DayFromYear(y) <= d then y else YearBelow(d, y - 1)
  }

  lemma YearOfDayUnique(d: int, y: int)
    requires DayFromYear(y) <= d < DayFromYear(y + 1)
    ensures YearOfDay(d) == y
  {
    var z := YearOfDay(d);
    if z < y {
      if z + 1 < y { YearsIncrease(z + 1, y); }
    } else if y < z {
      if y + 1 < z { YearsIncrease(y + 1, z); }
    }
  }

  // ----- Months, numbered from 0 as Date does -----

  /** Days of the year before the given month; month 12 stands for the whole year. */
  function DayFromMonth(leap: bool, month: int): int
    requires 0 <= month <= 12
  {
    var shift := if leap then 1 else 0;
    if month == 0 then 0
    else if month == 1 then 31
    else if month == 2 then 59 + shift
    else if month == 3 then 90 + shift
    else if month == 4 then 120 + shift
    else if month == 5 then 151 + shift
    else if month == 6 then 181 + shift
    else if month == 7 then 212 + shift
    else if month == 8 then 243 + shift
    else if month == 9 then 273 + shift
    else if month == 10 then 304 + shift
    else if month == 11 then 334 + shift
    else 365 + shift
  }

  /** The month in which a day of the year falls. */
  function MonthOfYearDay(leap: bool, day: int): (m: int)
    requires 0 <= day < DayFromMonth(leap, 12)
    ensures 0 <= m < 12
    ensures DayFromMonth(leap, m) <= day < DayFromMonth(leap, m + 1)
  {
    if day < DayFromMonth(leap, 1) then 0
    else if day < DayFromMonth(leap, 2) then 1
    else if day < DayFromMonth(leap, 3) then 2
    else if day < DayFromMonth(leap, 4) then 3
    else if day < DayFromMonth(leap, 5) then 4
    else if day < DayFromMonth(leap, 6) then 5
    else if day < DayFromMonth(leap, 7) then 6
    else if day < DayFromMonth(leap, 8) then 7
    else if day < DayFromMonth(leap, 9) then 8
    else if day < DayFromMonth(leap, 10) then 9
    else if day < DayFromMonth(leap, 11) then 10
    else 11
  }

  /** The day on which month m of year y starts; month 12 starts the next year. */
  function MonthStart(y: int, m: int): int
    requires 0 <= m <= 12
  {
    DayFromYear(y) + DayFromMonth(Leap(y), m)
  }

  // ----- Days -----

  /** MakeDay of ECMA-262: months outside 0..11 carry into the year, and any day of the
      month is accepted. */
  function MakeDay(year: int, month: int, date: int): int {
    MonthStart(year + month / 12, month % 12) + date - 1
  }

  lemma MakeDayInYear(y: int, m: int, date: int)
    requires 0 <= m <= 12
    ensures MakeDay(y, m, date) == MonthStart(y, m) + date - 1
  {
    hide Leap, DayFromYear;
    if m == 12 {
      YearLength(y);
      assert DayFromMonth(Leap(y), 12) == DaysInYear(y);
      assert DayFromMonth(Leap(y + 1), 0) == 0;
    }
  }

  function MonthOfDay(d: int): (m: int)
    ensures 0 <= m < 12
    ensures MonthStart(YearOfDay(d), m) <= d < MonthStart(YearOfDay(d), m + 1)
  {
    hide Leap, DayFromYear, YearOfDay;
    var y := YearOfDay(d);
    YearLength(y);
    MonthOfYearDay(Leap(y), d - DayFromYear(y))
  }

  function DateOfDay(d: int): (r: int)
    ensures 1 <= r <= 31
  {
    hide Leap, DayFromYear, YearOfDay, MonthOfDay;
    d - MonthStart(YearOfDay(d), MonthOfDay(d)) + 1
  }

  /** No other month contains d. */
  lemma MonthUnique(d: int, y: int, m: int)
    requires 0 <= m < 12
    requires MonthStart(y, m) <= d < MonthStart(y, m + 1)
    ensures YearOfDay(d) == y && MonthOfDay(d) == m
  {
    hide Leap, DayFromYear, YearOfDay;
    YearLength(y);
    MonthsIncrease(Leap(y));
    YearOfDayUnique(d, y);
  }

  lemma MonthsIncrease(leap: bool)
    ensures forall i, j :: 0 <= i < j <= 12 ==> DayFromMonth(leap, i) < DayFromMonth(leap, j)
  {
  }

  /** Thirty days has September, and so on. */
  lemma MonthLength(y: int, m: int)
    requires 0 <= m < 12
    ensures MonthStart(y, m + 1) - MonthStart(y, m)
         == if m == 1 then DaysInYear(y) - 337 else if m in {3, 5, 8, 10} then 30 else 31
    ensures MonthStart(y, 0) == DayFromYear(y)
  {
    hide DayFromYear;
  }

  // ----- Field arrays -----

  /** A point in time as makeArray gives it: year, month 1..12, day, hour, minute, second, millisecond. */
  function MakeArray(t: int): (a: seq<int>)
    ensures |a| == 7
    ensures 1 <= a[1] <= 12 && 1 <= a[2] <= 31 && 0 <= a[3] < 24 && 0 <= a[4] < 60 && 0 <= a[5] < 60 && 0 <= a[6] < 1000
  {
    var d := t / MS_PER_DAY;
    [YearOfDay(d), MonthOfDay(d) + 1, DateOfDay(d),
     t / 3600000 % 24, t / 60000 % 60, t / 1000 % 60, t % 1000]
  }

  /** Date.UTC before clipping, on an array whose month counts from 1. A first field from 0
      to 99 means a year of the twentieth century. */
  function Utc(a: seq<int>): int
    requires |a| == 7
  {
    var year := if 0 <= a[0] <= 99 then 1900 + a[0] else a[0];
    MakeDay(year, a[1] - 1, a[2]) * MS_PER_DAY + a[3] * 3600000 + a[4] * 60000 + a[5] * 1000 + a[6]
  }

  function TimeClip(t: int): (r: Option<int>) {
    if IsTime(t) then Some(t) else None
  }

  /** The time an array of seven fields denotes, in range or not; None stands for NaN. */
  function FromArray(a: seq<int>): (r: Option<int>)
    requires |a| == 7
  {
    TimeClip(Utc(a))
  }

  /** Where Date.UTC does not shift the year and the month needs no carry. */
  lemma PlainUtc(a: seq<int>)
    requires |a| == 7 && !(0 <= a[0] <= 99) && 1 <= a[1] <= 13
    ensures Utc(a) == (MonthStart(a[0], a[1] - 1) + a[2] - 1) * MS_PER_DAY
                      + a[3] * 3600000 + a[4] * 60000 + a[5] * 1000 + a[6]
  {
    MakeDayInYear(a[0], a[1] - 1, a[2]);
  }

  /** A year from 0 to 99 is read back nineteen centuries late. */
  lemma ShiftedUtc(a: seq<int>, t: int)
    requires |a| == 7 && 0 <= a[0] <= 99 && 1 <= a[1] <= 12 && -6 <= a[2]
    requires 0 <= a[3] && 0 <= a[4] && 0 <= a[5] && 0 <= a[6]
    requires YearOfDay(t / MS_PER_DAY) == a[0]
    ensures t < Utc(a)
  {
    hide DayFromYear, YearOfDay, Leap, MakeDay;
    MakeDayInYear(1900 + a[0], a[1] - 1, a[2]);
    YearsIncrease(a[0] + 1, 1900 + a[0]);
    assert MakeDay(1900 + a[0], a[1] - 1, a[2]) >= DayFromYear(1900 + a[0]) - 7;
    assert t < DayFromYear(a[0] + 1) * MS_PER_DAY;
  }

  /** Date holds the times from 20 April 271822 BC, the year -271821, to 13 September 275760. */
  lemma FirstAndLastTime()
    ensures FromArray([-271821, 4, 20, 0, 0, 0, 0]).Some? && FromArray([-271821, 4, 19, 23, 59, 59, 999]).None?
    ensures FromArray([275760, 9, 13, 0, 0, 0, 0]).Some? && FromArray([275760, 9, 13, 0, 0, 0, 1]).None?
  {
    assert DayFromYear(-271821) == -100000109;
    assert DayFromYear(275760) == 99999744;
    hide DayFromYear;
    PlainUtc([-271821, 4, 20, 0, 0, 0, 0]);
    PlainUtc([-271821, 4, 19, 23, 59, 59, 999]);
    PlainUtc([275760, 9, 13, 0, 0, 0, 0]);
    PlainUtc([275760, 9, 13, 0, 0, 0, 1]);
  }

  /** The two array conversions are inverse, except on the years that Date.UTC shifts. */
  lemma FieldsRoundTrip(t: int)
    requires IsTime(t)
    ensures FromArray(MakeArray(t)) == Some(t) <==> !(0 <= MakeArray(t)[0] <= 99)
  {
    hide MonthStart, DayFromYear, YearOfDay, MonthOfDay, Utc;
    var a := MakeArray(t);
    if 0 <= a[0] <= 99 {
      ShiftedUtc(a, t);
    } else {
      PlainUtc(a);
      ClockFields(t);
    }
  }

  lemma ClockFields(t: int)
    ensures t == t / MS_PER_DAY * MS_PER_DAY + t / 3600000 % 24 * 3600000
                 + t / 60000 % 60 * 60000 + t / 1000 % 60 * 1000 + t % 1000
  {
    Carries(t);
  }

  lemma Carries(t: int)
    ensures t / 60000 == t / 1000 / 60
    ensures t / 3600000 == t / 60000 / 60
    ensures t / MS_PER_DAY == t / 3600000 / 24
  {
  }

  // ----- Calendar units: years (precision 0), months, days, hours, minutes, seconds, milliseconds (6) -----

  /** Two times lie in the same unit of precision p when their fields up to p agree. */
  ghost predicate SameUnit(x: int, t: int, p: nat)
    requires p < 7
  {
    MakeArray(x)[..p + 1] == MakeArray(t)[..p + 1]
  }

  /** The fields after p set to their least values. */
  function Truncate(a: seq<int>, p: nat): (r: seq<int>)
    requires |a| == 7 && p < 7
    ensures |r| == 7
  {
    [a[0], if p < 1 then 1 else a[1], if p < 2 then 1 else a[2], if p < 3 then 0 else a[3],
     if p < 4 then 0 else a[4], if p < 5 then 0 else a[5], if p < 6 then 0 else a[6]]
  }

  /** No field from which a unit of this precision is built is one of the years Date.UTC shifts. */
  predicate PlainYears(y: int, p: nat) {
    !(0 <= y <= 99) && (p == 0 ==> !(0 <= y + 1 <= 99))
  }

  /** The start and the exclusive end of its unit separate the times that share the fields of t. */
  lemma UnitMembers(t: int, p: nat, x: int)
    requires p < 7
    ensures var a := MakeArray(t);
            UnitStart(a, p) <= x < UnitEnd(a, p) <==> SameUnit(x, t, p)
  {
    hide MonthStart, MakeArray;
    SameFields(x, t, p);
    if p == 0 {
      YearUnit(t, x);
    } else if p == 1 {
      MonthUnit(t, x);
    } else {
      DayUnit(t, x);
      if p > 2 {
        ClockUnit(t, x, p);
      }
    }
  }

  /** Truncating the fields after p gives the start of a unit, and adding one to field p its
      exclusive end, carries included, if and only if Date.UTC shifts none of their years. */
  lemma UnitInterval(t: int, p: nat)
    requires p < 7
    ensures var f := Truncate(MakeArray(t), p);
            (forall x :: Utc(f) <= x < Utc(f[p := f[p] + 1]) <==> SameUnit(x, t, p))
            <==> PlainYears(MakeArray(t)[0], p)
  {
    hide MakeArray, UnitStart, UnitEnd, Utc, Truncate, SameUnit;
    var a, f := MakeArray(t), Truncate(MakeArray(t), p);
    if PlainYears(a[0], p) {
      UnitStarts(a, p);
      UnitEnds(a, p);
      forall x
        ensures Utc(f) <= x < Utc(f[p := f[p] + 1]) <==> SameUnit(x, t, p)
      {
        UnitMembers(t, p, x);
      }
    } else if 0 <= a[0] <= 99 {
      UnitMembers(t, p, t);
      SameFields(t, t, p);
      ShiftedStart(t, p);
    } else {
      YearBeforeShift(t);
    }
  }

  lemma ShiftedStart(t: int, p: nat)
    requires p < 7 && 0 <= MakeArray(t)[0] <= 99
    ensures t < Utc(Truncate(MakeArray(t), p))
  {
    hide Utc, MonthOfDay, DateOfDay, YearOfDay;
    ShiftedUtc(Truncate(MakeArray(t), p), t);
  }

  /** The year -1 seems to end with the year 1899. */
  lemma YearBeforeShift(t: int)
    requires MakeArray(t)[0] == -1
    ensures var f, x := Truncate(MakeArray(t), 0), DayFromYear(0) * MS_PER_DAY;
            Utc(f) <= x < Utc(f[0 := f[0] + 1]) && !SameUnit(x, t, 0)
  {
    hide MakeArray, Utc, DayFromYear, UnitStart, UnitEnd, SameUnit;
    var x := DayFromYear(0) * MS_PER_DAY;
    assert Truncate(MakeArray(t), 0) == [-1, 1, 1, 0, 0, 0, 0];
    assert [-1, 1, 1, 0, 0, 0, 0][0 := 0] == [0, 1, 1, 0, 0, 0, 0];
    PlainUtc([-1, 1, 1, 0, 0, 0, 0]);
    MonthEnds(-1);
    YearZeroShifts();
    YearsIncrease(-1, 0);
    YearsIncrease(0, 1900);
    UnitMembers(t, 0, x);
    EndOfYear(t);
  }

  lemma YearZeroShifts()
    ensures Utc([0, 1, 1, 0, 0, 0, 0]) == DayFromYear(1900) * MS_PER_DAY
  {
    hide DayFromYear;
    MakeDayInYear(1900, 0, 1);
  }

  lemma EndOfYear(t: int)
    ensures UnitEnd(MakeArray(t), 0) == DayFromYear(MakeArray(t)[0] + 1) * MS_PER_DAY
  {
    hide MakeArray, DayFromYear;
  }

  lemma SameFields(x: int, t: int, p: nat)
    requires p < 7
    ensures var a, b := MakeArray(t), MakeArray(x);
            SameUnit(x, t, p) <==> forall i | 0 <= i <= p :: a[i] == b[i]
  {
    hide MakeArray;
    var a, b := MakeArray(t), MakeArray(x);
    if SameUnit(x, t, p) {
      forall i | 0 <= i <= p
        ensures a[i] == b[i]
      {
        assert a[..p + 1][i] == b[..p + 1][i];
      }
    }
  }

  lemma UnitStarts(a: seq<int>, p: nat)
    requires |a| == 7 && p < 7 && !(0 <= a[0] <= 99) && 1 <= a[1] <= 12
    ensures Utc(Truncate(a, p)) == UnitStart(a, p)
  {
    hide DayFromYear, DayFromMonth, Leap, Utc;
    PlainUtc(Truncate(a, p));
    MonthEnds(a[0]);
    hide MonthStart;
  }

  lemma UnitEnds(a: seq<int>, p: nat)
    requires |a| == 7 && p < 7 && PlainYears(a[0], p) && 1 <= a[1] <= 12
    ensures var f := Truncate(a, p);
            Utc(f[p := f[p] + 1]) == UnitEnd(a, p)
  {
    hide DayFromYear, DayFromMonth, Leap, Utc;
    var f := Truncate(a, p);
    PlainUtc(f[p := f[p] + 1]);
    MonthEnds(a[0] + 1);
    hide MonthStart;
  }

  /** The start of the unit with the given fields, worked out without carries. */
  function UnitStart(a: seq<int>, p: nat): int
    requires |a| == 7 && p < 7 && 1 <= a[1] <= 12
  {
    if p == 0 then DayFromYear(a[0]) * MS_PER_DAY
    else if p == 1 then MonthStart(a[0], a[1] - 1) * MS_PER_DAY
    else
      (MonthStart(a[0], a[1] - 1) + a[2] - 1) * MS_PER_DAY + (if p > 2 then a[3] * 3600000 else 0)
      + (if p > 3 then a[4] * 60000 else 0) + (if p > 4 then a[5] * 1000 else 0) + if p > 5 then a[6] else 0
  }

  function UnitEnd(a: seq<int>, p: nat): int
    requires |a| == 7 && p < 7 && 1 <= a[1] <= 12
  {
    if p == 0 then DayFromYear(a[0] + 1) * MS_PER_DAY
    else if p == 1 then MonthStart(a[0], a[1]) * MS_PER_DAY
    else UnitStart(a, p) + UnitLength(p)
  }

  lemma MonthEnds(y: int)
    ensures MonthStart(y, 0) == DayFromYear(y)
  {
  }

  /** The length of the units that all have the same one. */
  function UnitLength(p: nat): int {
    if p <= 2 then MS_PER_DAY else if p == 3 then 3600000 else if p == 4 then 60000 else if p == 5 then 1000 else 1
  }

  lemma YearUnit(t: int, x: int)
    ensures var y := MakeArray(t)[0];
            DayFromYear(y) * MS_PER_DAY <= x < DayFromYear(y + 1) * MS_PER_DAY <==> MakeArray(x)[0] == y
  {
    hide DayFromYear, YearOfDay, MonthOfDay, DateOfDay;
    var y, d := MakeArray(t)[0], x / MS_PER_DAY;
    if DayFromYear(y) <= d < DayFromYear(y + 1) {
      YearOfDayUnique(d, y);
    }
  }

  lemma MonthUnit(t: int, x: int)
    ensures var a, b := MakeArray(t), MakeArray(x);
            MonthStart(a[0], a[1] - 1) * MS_PER_DAY <= x < MonthStart(a[0], a[1]) * MS_PER_DAY
            <==> b[0] == a[0] && b[1] == a[1]
  {
    hide MonthStart, DayFromYear, YearOfDay, MonthOfDay, DateOfDay;
    var a, d := MakeArray(t), x / MS_PER_DAY;
    if MonthStart(a[0], a[1] - 1) <= d < MonthStart(a[0], a[1]) {
      MonthUnique(d, a[0], a[1] - 1);
    }
  }

  lemma DayUnit(t: int, x: int)
    ensures var a, b := MakeArray(t), MakeArray(x);
            t / MS_PER_DAY == x / MS_PER_DAY <==> b[0] == a[0] && b[1] == a[1] && b[2] == a[2]
    ensures var a := MakeArray(t);
            t / MS_PER_DAY == MonthStart(a[0], a[1] - 1) + a[2] - 1
  {
    hide MonthStart, DayFromYear, YearOfDay, MonthOfDay;
  }

  /** The start of the hour, minute, second or millisecond of t, and how long that lasts. */
  lemma ClockUnit(t: int, x: int, p: nat)
    requires 3 <= p < 7
    ensures var a, b := MakeArray(t), MakeArray(x);
            var d := MonthStart(a[0], a[1] - 1) + a[2] - 1;
            var start := d * MS_PER_DAY + a[3] * 3600000 + (if p > 3 then a[4] * 60000 else 0)
                         + (if p > 4 then a[5] * 1000 else 0) + if p > 5 then a[6] else 0;
            start <= x < start + UnitLength(p) <==> forall i | 0 <= i <= p :: a[i] == b[i]
  {
    DayUnit(t, x);
    var a, b := MakeArray(t), MakeArray(x);
    assert (forall i | 0 <= i <= p :: a[i] == b[i]) <==>
        (a[0] == b[0] && a[1] == b[1] && a[2] == b[2] && a[3] == b[3]
         && (p > 3 ==> a[4] == b[4]) && (p > 4 ==> a[5] == b[5]) && (p > 5 ==> a[6] == b[6]));
    Clock(t, x, p);
  }

  lemma Clock(t: int, x: int, p: nat)
    requires 3 <= p < 7
    ensures var start := t / MS_PER_DAY * MS_PER_DAY + t / 3600000 % 24 * 3600000
                         + (if p > 3 then t / 60000 % 60 * 60000 else 0)
                         + (if p > 4 then t / 1000 % 60 * 1000 else 0) + if p > 5 then t % 1000 else 0;
            start <= x < start + UnitLength(p) <==>
              (t / MS_PER_DAY == x / MS_PER_DAY && t / 3600000 % 24 == x / 3600000 % 24
               && (p > 3 ==> t / 60000 % 60 == x / 60000 % 60)
               && (p > 4 ==> t / 1000 % 60 == x / 1000 % 60)
               && (p > 5 ==> t % 1000 == x % 1000))
  {
    Carries(t);
    Carries(x);
    MixedRadix(t / 3600000, x / 3600000, 24);
    MixedRadix(t / 60000, x / 60000, 60);
    MixedRadix(t / 1000, x / 1000, 60);
    MixedRadix(t, x, 1000);
  }

  lemma MixedRadix(q: int, r: int, base: int)
    requires base > 0
    ensures q == r <==> q / base == r / base && q % base == r % base
    ensures q == q / base * base + q % base
  {
  }
}
