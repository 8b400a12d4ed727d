/** Ranges with a term like "2days", with "now", or open at one end. */
module RelativeRanges {
  import opened Wrappers
  import opened Calendar
  import opened Decimal
  import opened DateRange
  import opened DateRoundTrip

  // ----- Terms like "2days" -----

  /** Milliseconds in k units. */
  function Duration(k: nat, unit: string): (n: int)
    requires UnitValue(unit).Some?
    ensures n >= 0 && (n > 0 <==> k > 0)
  {
    k * UnitValue(unit).value
  }

  lemma UnitIsWord(unit: string)
    requires UnitValue(unit).Some?
    ensures unit != "" && forall c | c in unit :: IsLetter(c)
    ensures UnitValue(unit).value > 0
  {
  }

  lemma {:induction false} NormalisedWord(s: string)
    requires forall c | c in s :: IsLetter(c)
    ensures Normalised(s) == s
  {
    if s == "" {
    } else {
      var n := |s| - 1;
      NormalisedWord(s[..n]);
      assert s[n] in s;
      assert s == s[..n] + [s[n]];
    }
  }

  lemma {:induction false} LeadingDigitsOf(digits: string, word: string)
    requires AllDigits(digits) && word != "" && forall c | c in word :: IsLetter(c)
    ensures LeadingDigits(digits + word) == |digits|
  {
    if digits == "" {
      assert digits + word == word && word[0] in word;
    } else {
      assert digits[0] in digits;
      LeadingDigitsOf(digits[1..], word);
      assert (digits + word)[1..] == digits[1..] + word;
    }
  }

  lemma NeitherWordNorNumber(digits: string, word: string)
    requires digits != "" && AllDigits(digits) && word != "" && forall c | c in word :: IsLetter(c)
    ensures var s := digits + word;
            && s[..|digits|] == digits && s[|digits|..] == word
            && !(forall c | c in s :: IsLetter(c)) && !(forall c | c in s :: IsNumericChar(c))
  {
    var s := digits + word;
    assert s[0] == digits[0] && digits[0] in digits && s[0] in s;
    assert s[|digits|] == word[0] && word[0] in word && s[|digits|] in s;
  }

  /** A count with a unit is read as that many units. */
  lemma RelTerm(now: int, k: nat, unit: string)
    requires UnitValue(unit).Some?
    ensures ProcTerm(now, Digits(k) + unit) == Some(Rel(Some(Duration(k, unit))))
    ensures Duration(k, unit) == k * UnitValue(unit).value
  {
    hide UnitValue, Digits, ParseInt, KeywordRange, Keyword, NumericGroups, Normalised, LeadingDigits, IsLetter,
      IsNumericChar;
    UnitIsWord(unit);
    ParseOfDigits(k);
    var digits, s := Digits(k), Digits(k) + unit;
    DigitsAreNumeric(digits);
    NormalisedNumeric(digits);
    NormalisedWord(unit);
    NormalisedConcat(digits, unit);
    LeadingDigitsOf(digits, unit);
    NeitherWordNorNumber(digits, unit);
  }

  lemma DigitsAreNumeric(s: string)
    requires AllDigits(s)
    ensures forall c | c in s :: IsNumericChar(c)
  {
  }

  /** The range is read, and holds exactly these times. */
  ghost predicate Exactly(r: Option<Bounds>, times: int -> bool) {
    r.Some? && forall x :: Within(x, r.value) <==> times(x)
  }

  // ----- Around a printed time -----

  lemma BoundsOfAround(now: int, t: int, p: nat, k: nat, unit: string)
    requires p < 6 && FourDigitYear(t) && UnitValue(unit).Some?
    ensures var end := UnitEnd(MakeArray(t), p) + Duration(k, unit);
            Parse(now, Some(Printed(t, p)), Around, Some(Digits(k) + unit))
            == Some(Bounds(At(UnitStart(MakeArray(t), p) - Duration(k, unit)), At(if end == 0 then 0 else end - 1)))
  {
    hide MakeArray, UnitStart, UnitEnd, ProcTerm, Printed, UnitValue, Digits;
    TermOfPrinted(now, t, p);
    RelTerm(now, k, unit);
  }

  /** x lies within n milliseconds of some time that prints like t. */
  ghost predicate NearPrinted(x: int, t: int, p: nat, n: int)
    requires p < 7
  {
    exists y :: Printed(y, p) == Printed(t, p) && -n <= x - y <= n
  }

  lemma NearInterval(t: int, p: nat, n: int)
    requires p < 6 && FourDigitYear(t) && n >= 0
    ensures forall x :: NearPrinted(x, t, p, n) <==> UnitStart(MakeArray(t), p) - n <= x < UnitEnd(MakeArray(t), p) + n
  {
    hide MakeArray, UnitStart, UnitEnd, Printed;
    UnitInRange(t, p);
    PrintedUnit(t, p);
    var start, end := UnitStart(MakeArray(t), p), UnitEnd(MakeArray(t), p);
    forall x | start - n <= x < end + n
      ensures NearPrinted(x, t, p, n)
    {
      var y := if x < start then start else if x >= end then end - 1 else x;
      assert Printed(y, p) == Printed(t, p);
    }
  }

  /** "a <> 2days" is every time within that of some time that prints like a, except when the last
      such time is the millisecond before the epoch. */
  lemma PrintedAround(now: int, t: int, p: nat, k: nat, unit: string)
    requires p < 6 && FourDigitYear(t) && UnitValue(unit).Some?
    ensures var n := Duration(k, unit);
            Exactly(Parse(now, Some(Printed(t, p)), Around, Some(Digits(k) + unit)), x => NearPrinted(x, t, p, n))
            <==> !(Printed(-n - 1, p) == Printed(t, p) && Printed(-n, p) != Printed(t, p))
  {
    hide MakeArray, UnitStart, UnitEnd, Printed, Parse, UnitValue, Digits, Duration, NearPrinted;
    var n := Duration(k, unit);
    BoundsOfAround(now, t, p, k, unit);
    NearInterval(t, p, n);
    PrintedUnit(t, p);
    if UnitEnd(MakeArray(t), p) + n == 0 {
      UnitInRange(t, p);
      assert Within(0, Parse(now, Some(Printed(t, p)), Around, Some(Digits(k) + unit)).value);
    }
  }

  /** "a <>" alone is the same for a day. */
  lemma PrintedAroundDay(now: int, t: int, p: nat)
    requires p < 6 && FourDigitYear(t)
    ensures Exactly(Parse(now, Some(Printed(t, p)), Around, None), x => NearPrinted(x, t, p, MS_PER_DAY))
            <==> !(Printed(-MS_PER_DAY - 1, p) == Printed(t, p) && Printed(-MS_PER_DAY, p) != Printed(t, p))
  {
    hide MakeArray, UnitStart, UnitEnd, Printed, Parse, NearPrinted;
    BoundsOfAroundDay(now, t, p);
    NearInterval(t, p, MS_PER_DAY);
    PrintedUnit(t, p);
    if UnitEnd(MakeArray(t), p) + MS_PER_DAY == 0 {
      UnitInRange(t, p);
      assert Within(0, Parse(now, Some(Printed(t, p)), Around, None).value);
    }
  }

  lemma BoundsOfAroundDay(now: int, t: int, p: nat)
    requires p < 6 && FourDigitYear(t)
    ensures var end := UnitEnd(MakeArray(t), p) + MS_PER_DAY;
            Parse(now, Some(Printed(t, p)), Around, None)
            == Some(Bounds(At(UnitStart(MakeArray(t), p) - MS_PER_DAY), At(if end == 0 then 0 else end - 1)))
  {
    hide MakeArray, UnitStart, UnitEnd, ProcTerm, Printed;
    TermOfPrinted(now, t, p);
  }

  // ----- From a printed time on, or up to one -----

  /** A term of no length does not count as one. */
  lemma BoundsOfRelTo(now: int, t: int, p: nat, k: nat, unit: string)
    requires p < 6 && FourDigitYear(t) && UnitValue(unit).Some?
    ensures var start, end, n := UnitStart(MakeArray(t), p), UnitEnd(MakeArray(t), p), Duration(k, unit);
            && Parse(now, Some(Printed(t, p)), To, Some(Digits(k) + unit))
               == Some(Bounds(At(start), if k == 0 then Undefined else At(if end + n == 0 then 0 else end + n - 1)))
            && Parse(now, Some(Digits(k) + unit), To, Some(Printed(t, p)))
               == Some(Bounds(if k == 0 then Undefined else At(start - n), At(if end == 0 then 0 else end - 1)))
  {
    hide MakeArray, UnitStart, UnitEnd, ProcTerm, Printed, UnitValue, Digits, Duration;
    TermOfPrinted(now, t, p);
    RelTerm(now, k, unit);
  }

  /** x comes after some time that prints like t, and at most n later than another one. */
  ghost predicate FollowsPrinted(x: int, t: int, p: nat, n: int)
    requires p < 7
  {
    exists a, b :: Printed(a, p) == Printed(t, p) && Printed(b, p) == Printed(t, p) && a <= x <= b + n
  }

  /** x comes before some time that prints like t, and at most n earlier than another one. */
  ghost predicate PrecedesPrinted(x: int, t: int, p: nat, n: int)
    requires p < 7
  {
    exists a, b :: Printed(a, p) == Printed(t, p) && Printed(b, p) == Printed(t, p) && a - n <= x <= b
  }

  /** "a -> 2days" goes on that long after a, except when it ends at the epoch, or for "0days". */
  lemma PrintedThenRel(now: int, t: int, p: nat, k: nat, unit: string)
    requires p < 6 && FourDigitYear(t) && UnitValue(unit).Some?
    ensures var n := Duration(k, unit);
            Exactly(Parse(now, Some(Printed(t, p)), To, Some(Digits(k) + unit)), x => FollowsPrinted(x, t, p, n))
            <==> k > 0 && !(Printed(-n - 1, p) == Printed(t, p) && Printed(-n, p) != Printed(t, p))
  {
    hide MakeArray, UnitStart, UnitEnd, ProcTerm, Printed, Parse, UnitValue, Digits, Duration;
    BoundsOfRelTo(now, t, p, k, unit);
    UnitInRange(t, p);
    PrintedUnit(t, p);
    var n, r := Duration(k, unit), Parse(now, Some(Printed(t, p)), To, Some(Digits(k) + unit)).value;
    var start, end := UnitStart(MakeArray(t), p), UnitEnd(MakeArray(t), p);
    if k == 0 {
      assert FollowsPrinted(t, t, p, n) && !Within(t, r);
    } else if end + n == 0 {
      assert Within(0, r);
    } else {
      forall x | Within(x, r)
        ensures FollowsPrinted(x, t, p, n)
      {
        assert Printed(start, p) == Printed(t, p) && Printed(end - 1, p) == Printed(t, p) && start <= x <= end - 1 + n;
      }
      forall x | FollowsPrinted(x, t, p, n)
        ensures Within(x, r)
      {
      }
    }
  }

  /** "2days -> a" starts that long before a, except when a ends at the epoch, or for "0days". */
  lemma RelThenPrinted(now: int, t: int, p: nat, k: nat, unit: string)
    requires p < 6 && FourDigitYear(t) && UnitValue(unit).Some?
    ensures var n := Duration(k, unit);
            Exactly(Parse(now, Some(Digits(k) + unit), To, Some(Printed(t, p))), x => PrecedesPrinted(x, t, p, n))
            <==> k > 0 && Printed(-1, p) != Printed(t, p)
  {
    hide MakeArray, UnitStart, UnitEnd, ProcTerm, Printed, Parse, UnitValue, Digits, Duration, SameUnit;
    BoundsOfRelTo(now, t, p, k, unit);
    UnitInRange(t, p);
    PrintedUnit(t, p);
    var n, r := Duration(k, unit), Parse(now, Some(Digits(k) + unit), To, Some(Printed(t, p))).value;
    var start, end := UnitStart(MakeArray(t), p), UnitEnd(MakeArray(t), p);
    EndsAtEpoch(t, p);
    PrintedInjective(-1, t, p);
    if k == 0 {
      assert PrecedesPrinted(t, t, p, n) && !Within(t, r);
    } else if end == 0 {
      assert Within(0, r);
    } else {
      forall x | Within(x, r)
        ensures PrecedesPrinted(x, t, p, n)
      {
        assert Printed(start, p) == Printed(t, p) && Printed(end - 1, p) == Printed(t, p) && start - n <= x <= end - 1;
      }
      forall x | PrecedesPrinted(x, t, p, n)
        ensures Within(x, r)
      {
      }
    }
  }

  ghost predicate AfterPrinted(x: int, t: int, p: nat)
    requires p < 7
  {
    exists a :: Printed(a, p) == Printed(t, p) && a <= x
  }

  ghost predicate BeforePrinted(x: int, t: int, p: nat)
    requires p < 7
  {
    exists b :: Printed(b, p) == Printed(t, p) && x <= b
  }

  lemma BoundsOfOpen(now: int, t: int, p: nat)
    requires p < 6 && FourDigitYear(t)
    ensures var start, end := UnitStart(MakeArray(t), p), UnitEnd(MakeArray(t), p);
            && Parse(now, Some(Printed(t, p)), To, None) == Some(Bounds(At(start), Null))
            && Parse(now, None, To, Some(Printed(t, p))) == Some(Bounds(Null, At(if end == 0 then 0 else end - 1)))
  {
    hide MakeArray, UnitStart, UnitEnd, ProcTerm, Printed;
    TermOfPrinted(now, t, p);
  }

  /** "a ->" is every time from the first that prints like a, and "-> a" every time up to the last,
      except when a ends at the epoch. */
  lemma PrintedOpen(now: int, t: int, p: nat)
    requires p < 6 && FourDigitYear(t)
    ensures Exactly(Parse(now, Some(Printed(t, p)), To, None), x => AfterPrinted(x, t, p))
    ensures Exactly(Parse(now, None, To, Some(Printed(t, p))), x => BeforePrinted(x, t, p))
            <==> Printed(-1, p) != Printed(t, p)
  {
    hide MakeArray, UnitStart, UnitEnd, Parse, Printed, SameUnit;
    BoundsOfOpen(now, t, p);
    UnitInRange(t, p);
    PrintedUnit(t, p);
    EndsAtEpoch(t, p);
    PrintedInjective(-1, t, p);
    var start, end := UnitStart(MakeArray(t), p), UnitEnd(MakeArray(t), p);
    assert Printed(start, p) == Printed(t, p) && Printed(end - 1, p) == Printed(t, p);
    if end == 0 {
      assert Within(0, Parse(now, None, To, Some(Printed(t, p))).value);
      assert !BeforePrinted(0, t, p);
    }
  }

  // ----- Around now -----

  lemma BoundsOfNow(now: int, k: nat, unit: string)
    requires UnitValue(unit).Some?
    ensures var n := Duration(k, unit);
            Parse(now, Some(Digits(k) + unit), Single, None)
            == Some(if k == 0 then Bounds(Undefined, Undefined)
                    else Bounds(At(now - n), At(if now + n == 0 then 0 else now + n - 1)))
  {
    hide ProcTerm, UnitValue, Digits, Duration;
    RelTerm(now, k, unit);
  }

  lemma BoundsOfDay(now: int)
    ensures Parse(now, Some("now"), Single, None)
         == if now == 0 then Some(Bounds(At(0), At(0)))
            else Some(Bounds(At(now - MS_PER_DAY), At(if now + MS_PER_DAY == 0 then 0 else now + MS_PER_DAY - 1)))
  {
    hide ProcTerm;
    NowTerm(now);
  }

  /** "2days" alone is the time around now, the end not included, except when that end is 0, and "0days"
      nothing; and "now" is a day on each side, except when now or the end is 0. */
  lemma AroundNow(now: int, k: nat, unit: string)
    requires UnitValue(unit).Some?
    ensures var n := Duration(k, unit);
            Exactly(Parse(now, Some(Digits(k) + unit), Single, None), x => now - n <= x < now + n)
            <==> k == 0 || now + n != 0
    ensures Exactly(Parse(now, Some("now"), Single, None), x => now - MS_PER_DAY <= x < now + MS_PER_DAY)
            <==> now != 0 && now + MS_PER_DAY != 0
  {
    hide Parse, UnitValue, Digits, Duration;
    BoundsOfNow(now, k, unit);
    BoundsOfDay(now);
    var n, r := Duration(k, unit), Parse(now, Some(Digits(k) + unit), Single, None).value;
    var s := Parse(now, Some("now"), Single, None).value;
    if k > 0 && now + n == 0 {
      assert Within(0, r);
    }
    if now == 0 {
      assert !Within(1, s);
    } else if now + MS_PER_DAY == 0 {
      assert Within(0, s);
    }
  }

  lemma NowTerm(now: int)
    ensures ProcTerm(now, "now") == Some(Now(now))
  {
    hide KeywordRange, Keyword, NumericGroups, LeadingDigits, MakeArray;
    NormalisedWord("now");
  }

  // ----- Up to now, or from now on -----

  lemma BoundsOfToNow(now: int, t: int, p: nat)
    requires p < 6 && FourDigitYear(t)
    ensures var start, end := UnitStart(MakeArray(t), p), UnitEnd(MakeArray(t), p);
            && Parse(now, Some(Printed(t, p)), To, Some("now"))
               == Some(Bounds(At(start), At(if now == 0 then 0 else now - 1)))
            && Parse(now, Some("now"), To, Some(Printed(t, p)))
               == Some(Bounds(At(now), At(if end == 0 then 0 else end - 1)))
  {
    hide MakeArray, UnitStart, UnitEnd, ProcTerm, Printed;
    TermOfPrinted(now, t, p);
    NowTerm(now);
  }

  /** "a -> now" is every time from the first that prints like a to the last before now, except when now
      is 0 and a has begun; "now -> a" is every time from now on up to the last that prints like a,
      except when a ends at the epoch and now is not after it. */
  lemma PrintedToNow(now: int, t: int, p: nat)
    requires p < 6 && FourDigitYear(t)
    ensures Exactly(Parse(now, Some(Printed(t, p)), To, Some("now")), x => AfterPrinted(x, t, p) && x < now)
            <==> !(now == 0 && AfterPrinted(0, t, p))
    ensures Exactly(Parse(now, Some("now"), To, Some(Printed(t, p))), x => now <= x && BeforePrinted(x, t, p))
            <==> !(now <= 0 && Printed(-1, p) == Printed(t, p))
  {
    hide MakeArray, UnitStart, UnitEnd, Parse, Printed, SameUnit;
    BoundsOfToNow(now, t, p);
    UnitInRange(t, p);
    PrintedUnit(t, p);
    EndsAtEpoch(t, p);
    PrintedInjective(-1, t, p);
    var start, end := UnitStart(MakeArray(t), p), UnitEnd(MakeArray(t), p);
    assert Printed(start, p) == Printed(t, p) && Printed(end - 1, p) == Printed(t, p);
    if now == 0 && start <= 0 {
      assert Within(0, Parse(now, Some(Printed(t, p)), To, Some("now")).value);
    }
    if end == 0 && now <= 0 {
      assert Within(0, Parse(now, Some("now"), To, Some(Printed(t, p))).value);
      assert !BeforePrinted(0, t, p);
    }
  }

  // ----- A time of day -----

  /** The hour of u, its minute and its second, as far as field p. */
  function ClockText(u: int, p: nat): string
    requires 3 <= p < 6
  {
    var a := MakeArray(u);
    Padded(a[3]) + (if p > 3 then ":" + Padded(a[4]) else "") + if p > 4 then ":" + Padded(a[5]) else ""
  }

  lemma ClockTextIsTail(u: int, p: nat)
    requires 3 <= p < 6
    ensures ClockText(u, p) == Tail(MakeArray(u), 3, p, false)
  {
    hide Padded, MakeArray;
    var a := MakeArray(u);
    assert Tail(a, 6, p, false) == "";
    assert SEPARATORS[4] == ":" && SEPARATORS[5] == ":";
    if p == 3 {
      assert Tail(a, 4, p, false) == "";
    } else if p == 4 {
      assert Tail(a, 5, p, false) == "";
    }
  }

  /** The text has no date, and the fields after its last one are cleared. */
  lemma ClockGroups(now: int, u: int, p: nat)
    requires 3 <= p < 6 && now / MS_PER_DAY == u / MS_PER_DAY
    ensures var g := NumericGroups(ClockText(u, p));
            && g.Some? && LastGiven(g.value, 6) == p
            && NumericFields(now, g.value) == Truncate(MakeArray(u), p)
  {
    hide MakeArray, Padded, ParseInt, TwoDigits, TimeGroups, Tail;
    var a, s := MakeArray(u), ClockText(u, p);
    ClockTextIsTail(u, p);
    TimeGroupsOfTail(a, p);
    PaddedField(a[3]);
    DayUnit(now, u);
    assert |s| >= 4 ==> s[2] == ':' && s[2] in s[..4];
    var g := NumericGroups(s).value;
    assert g[3].Some? && g[0].None? && g[1].None? && g[2].None?;
    assert forall i | 4 <= i < 7 :: GivenBefore(g, i);
    assert forall i | 0 <= i < 3 :: !GivenBefore(g, i);
    LastOfClock(g, p);
  }

  lemma LastOfClock(g: Groups, p: nat)
    requires 3 <= p < 6 && forall i | 3 <= i < 6 :: g[i].Some? <==> i <= p
    ensures LastGiven(g, 6) == p
  {
    assert LastGiven(g, p + 1) == p;
  }

  lemma {:induction false} ClockTextIsNumeric(u: int, p: nat)
    requires 3 <= p < 6
    ensures var s := ClockText(u, p);
            && Normalised(s) == s && (forall c | c in s :: IsNumericChar(c)) && !(forall c | c in s :: IsLetter(c))
  {
    hide MakeArray, Padded, ParseInt;
    var a, s := MakeArray(u), ClockText(u, p);
    PaddedField(a[3]);
    PaddedField(a[4]);
    PaddedField(a[5]);
    NormalisedNumeric(s);
    assert s[0] == Padded(a[3])[0] && s[0] in Padded(a[3]) && s[0] in s;
  }

  lemma ClockTerm(now: int, u: int, p: nat)
    requires 3 <= p < 6 && now / MS_PER_DAY == u / MS_PER_DAY
    ensures var f := Truncate(MakeArray(u), p);
            ProcTerm(now, ClockText(u, p)) == Some(Span(Range(FromArray(f), FromArray(f[p := f[p] + 1]))))
  {
    hide MakeArray, ClockText, Normalised, NumericGroups, NumericFields, LastGiven, Truncate, FromArray, Keyword,
      KeywordRange, LeadingDigits;
    ClockGroups(now, u, p);
    ClockTextIsNumeric(u, p);
    assert ClockText(u, p) != "" by { PaddedField(MakeArray(u)[3]); }
  }

  /** A time of day alone, like "12:30", is that hour, minute or second of now's day, if and only if
      Date.UTC does not shift the year, its boundaries are times, and it does not end at the epoch. */
  lemma ClockParsed(now: int, u: int, p: nat)
    requires 3 <= p < 6 && now / MS_PER_DAY == u / MS_PER_DAY
    ensures var start, end := UnitStart(MakeArray(u), p), UnitEnd(MakeArray(u), p);
            Exactly(Parse(now, Some(ClockText(u, p)), Single, None), x => SameUnit(x, u, p))
            <==> !(0 <= MakeArray(u)[0] <= 99) && IsTime(start) && IsTime(end) && end != 0
  {
    hide MakeArray, ProcTerm, ClockText, UnitStart, UnitEnd, SameUnit, Truncate, Utc;
    ClockTerm(now, u, p);
    var a, r := MakeArray(u), Parse(now, Some(ClockText(u, p)), Single, None).value;
    var start, end := UnitStart(a, p), UnitEnd(a, p);
    forall x
      ensures start <= x < end <==> SameUnit(x, u, p)
    {
      UnitMembers(u, p, x);
    }
    assert SameUnit(u, u, p) by { SameFields(u, u, p); }
    if 0 <= a[0] <= 99 {
      ShiftedStart(u, p);
      assert !Within(u, r);
    } else {
      UnitStarts(a, p);
      UnitEnds(a, p);
      if !IsTime(start) || !IsTime(end) {
        assert !Within(u, r);
      } else if end == 0 {
        assert Within(0, r);
      }
    }
  }

  // ----- The units -----

  /** What the words for units stand for. */
  lemma ClockUnits()
    ensures forall u | u in ["s", "sec", "secs", "second", "seconds"] :: UnitValue(u) == Some(1000)
    ensures forall u | u in ["m", "min", "mins", "minute", "minutes"] :: UnitValue(u) == Some(60 * 1000)
    ensures forall u | u in ["h", "hr", "hrs", "hour", "hours"] :: UnitValue(u) == Some(60 * 60 * 1000)
  {
  }

  lemma CalendarUnits()
    ensures forall u | u in ["d", "dy", "dys", "day", "days"] :: UnitValue(u) == Some(24 * 60 * 60 * 1000)
    ensures forall u | u in ["mo", "mon", "mos", "mons", "month", "months"] ::
              UnitValue(u) == Some(31 * 24 * 60 * 60 * 1000)
    ensures forall u | u in ["y", "yr", "yrs", "year", "years"] :: UnitValue(u) == Some(365 * 24 * 60 * 60 * 1000)
  {
  }
}
