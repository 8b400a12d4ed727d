/** Printing a time and parsing the text gives back the calendar unit that was printed. */
module DateRoundTrip {
  import opened Wrappers
  import opened Calendar
  import opened Decimal
  import opened DateRange

  // ----- What is printed determines the fields -----

  /** The printed fields i..p with their separators; the space before the hour is kept iff spaced. */
  function Tail(a: seq<int>, i: nat, p: nat, spaced: bool): string
    requires |a| == 7 && 0 < i && p < 7
    decreases 7 - i
  {
    if i > p then "" else (if i == 3 && !spaced then "" else SEPARATORS[i]) + Padded(a[i]) + Tail(a, i + 1, p, spaced)
  }

  lemma {:induction false} TailExtends(a: seq<int>, i: nat, p: nat)
    requires |a| == 7 && 0 < i <= p < 7
    ensures Tail(a, i, p, true) == Tail(a, i, p - 1, true) + SEPARATORS[p] + Padded(a[p])
    decreases 7 - i
  {
    hide Padded;
    if i < p {
      TailExtends(a, i + 1, p);
    } else {
      assert Tail(a, p + 1, p, true) == "";
    }
  }

  lemma {:induction false} PrintedIsTail(t: int, p: nat)
    requires p < 7
    ensures Printed(t, p) == Padded(MakeArray(t)[0]) + Tail(MakeArray(t), 1, p, true)
  {
    hide Padded, MakeArray;
    var a := MakeArray(t);
    if p > 0 {
      PrintedIsTail(t, p - 1);
      TailExtends(a, 1, p);
      Regrouped(Padded(a[0]), Tail(a, 1, p - 1, true), SEPARATORS[p], Padded(a[p]));
    }
  }

  lemma Regrouped(a: string, b: string, c: string, d: string)
    ensures a + b + c + d == a + (b + c + d)
  {
  }

  /** Every field after the year is two digits, so the tail has a fixed length and can be read back. */
  lemma {:induction false} TailInjective(a: seq<int>, b: seq<int>, i: nat, p: nat)
    requires |a| == |b| == 7 && 0 < i && p < 6
    requires forall k | 0 < k < 6 :: 0 <= a[k] < 100 && 0 <= b[k] < 100
    ensures |Tail(a, i, p, true)| == |Tail(b, i, p, true)|
    ensures Tail(a, i, p, true) == Tail(b, i, p, true) <==> forall k | i <= k <= p :: a[k] == b[k]
    decreases 7 - i
  {
    hide Padded, ParseInt;
    if i > p {
    } else {
      TailInjective(a, b, i + 1, p);
      PaddedField(a[i]);
      PaddedField(b[i]);
      if Tail(a, i, p, true) == Tail(b, i, p, true) {
        var sep := SEPARATORS[i];
        SplitEqual(sep + Padded(a[i]), Tail(a, i + 1, p, true), sep + Padded(b[i]), Tail(b, i + 1, p, true));
        assert Padded(a[i]) == (sep + Padded(a[i]))[1..] == Padded(b[i]);
      }
    }
  }

  /** For a four-digit year, the text tells the printed fields apart from those of every other time. */
  lemma PrintedInjective(x: int, t: int, p: nat)
    requires p < 6 && 1000 <= MakeArray(t)[0] <= 9999
    ensures Printed(x, p) == Printed(t, p) <==> SameUnit(x, t, p)
  {
    hide Padded, Printed, Tail, SameUnit, MakeArray;
    PrintedIsTail(x, p);
    PrintedIsTail(t, p);
    SameFields(x, t, p);
    FieldsInjective(MakeArray(x), MakeArray(t), p);
  }

  lemma FieldsInjective(a: seq<int>, b: seq<int>, p: nat)
    requires |a| == |b| == 7 && p < 6 && 1000 <= b[0] <= 9999
    requires forall k | 0 < k < 6 :: 0 <= a[k] < 100 && 0 <= b[k] < 100
    ensures Padded(a[0]) + Tail(a, 1, p, true) == Padded(b[0]) + Tail(b, 1, p, true)
            <==> forall k | 0 <= k <= p :: a[k] == b[k]
  {
    hide Padded, Tail;
    TailInjective(a, b, 1, p);
    if Padded(a[0]) + Tail(a, 1, p, true) == Padded(b[0]) + Tail(b, 1, p, true) {
      SplitEqual(Padded(a[0]), Tail(a, 1, p, true), Padded(b[0]), Tail(b, 1, p, true));
      PaddedYearUnique(a[0], b[0]);
    }
  }

  lemma SplitEqual(s: string, s': string, r: string, r': string)
    requires s + s' == r + r' && |s'| == |r'|
    ensures s == r && s' == r'
  {
    assert s == (s + s')[..|s|];
    assert s' == (s + s')[|s|..];
  }

  // ----- The numeric pattern recognises what is printed -----

  lemma {:induction false} NormalisedConcat(s: string, t: string)
    ensures Normalised(s + t) == Normalised(s) + Normalised(t)
  {
    if t == "" {
      assert s + t == s;
    } else {
      var n := |t| - 1;
      NormalisedConcat(s, t[..n]);
      assert (s + t)[..|s + t| - 1] == s + t[..n];
    }
  }

  lemma {:induction false} NormalisedNumeric(s: string)
    requires forall c | c in s :: IsNumericChar(c)
    ensures Normalised(s) == s
  {
    if s == "" {
    } else {
      var n := |s| - 1;
      NormalisedNumeric(s[..n]);
      assert s[n] in s;
      assert s == s[..n] + [s[n]];
    }
  }

  lemma {:induction false} NormalisedTail(a: seq<int>, i: nat, p: nat)
    requires |a| == 7 && 0 < i && p < 6
    requires forall k | 0 < k < 6 :: 0 <= a[k] < 100
    ensures Normalised(Tail(a, i, p, true)) == Tail(a, i, p, false)
    ensures forall c | c in Tail(a, i, p, false) :: IsNumericChar(c)
    decreases 7 - i
  {
    hide Padded, ParseInt, Normalised;
    if i <= p {
      NormalisedTail(a, i + 1, p);
      var sep, digits, rest := SEPARATORS[i], Padded(a[i]), Tail(a, i + 1, p, true);
      NormalisedConcat(sep + digits, rest);
      NormalisedField(i, a[i]);
    } else {
      NormalisedNumeric("");
    }
  }

  lemma {:induction false} NormalisedField(i: nat, n: int)
    requires 0 < i < 6 && 0 <= n < 100
    ensures Normalised(SEPARATORS[i] + Padded(n)) == (if i == 3 then "" else SEPARATORS[i]) + Padded(n)
    ensures forall c | c in (if i == 3 then "" else SEPARATORS[i]) + Padded(n) :: IsNumericChar(c)
  {
    hide Padded, ParseInt;
    PaddedField(n);
    NormalisedConcat(SEPARATORS[i], Padded(n));
    NormalisedNumeric(Padded(n));
    if i != 3 {
      NormalisedNumeric(SEPARATORS[i]);
    } else {
      assert Normalised(" ") == "" by { assert " "[..0] == ""; }
    }
  }

  /** The groups captured from fields 0..p. */
  function Captured(a: seq<int>, p: nat): (g: Groups)
    requires |a| == 7 && p < 6 && forall k | 0 <= k < 6 :: a[k] >= 0
  {
    seq(6, i requires 0 <= i < 6 => if i <= p then Some(a[i] as nat) else None)
  }

  lemma TwoDigitsOfTail(a: seq<int>, i: nat, p: nat)
    requires |a| == 7 && p < 6 && i in {1, 2, 4, 5}
    requires forall k | 0 < k < 6 :: 0 <= a[k] < 100
    ensures TwoDigits(Tail(a, i, p, false), SEPARATORS[i][0])
         == if i <= p then Some((a[i], Tail(a, i + 1, p, false))) else None
  {
    if i <= p {
      PaddedField(a[i]);
      hide Padded, ParseInt;
      var s := Tail(a, i, p, false);
      assert s == SEPARATORS[i] + Padded(a[i]) + Tail(a, i + 1, p, false);
      assert s[1..3] == Padded(a[i]);
      assert s[3..] == Tail(a, i + 1, p, false);
    }
  }

  lemma TimeGroupsOfTail(a: seq<int>, p: nat)
    requires |a| == 7 && p < 6
    requires forall k | 0 < k < 6 :: 0 <= a[k] < 100
    ensures TimeGroups(Tail(a, 3, p, false))
         == Some((if p < 3 then None else Some(a[3]), if p < 4 then None else Some(a[4]),
                  if p < 5 then None else Some(a[5])))
  {
    if p >= 3 {
      PaddedField(a[3]);
      TwoDigitsOfTail(a, 4, p);
      TwoDigitsOfTail(a, 5, p);
      var s, rest := Tail(a, 3, p, false), Tail(a, 4, p, false);
      assert s == "" + Padded(a[3]) + rest;
      assert s[..2] == Padded(a[3]) && s[2..] == rest;
      assert s[0] in s[..2] && s[1] in s[..2];
      assert Tail(a, 6, p, false) == "";
      hide Padded, ParseInt, TwoDigits;
    }
  }

  lemma NumericGroupsOfPrinted(a: seq<int>, p: nat)
    requires |a| == 7 && p < 6 && 1000 <= a[0] <= 9999
    requires forall k | 0 < k < 6 :: 0 <= a[k] < 100
    ensures NumericGroups(Padded(a[0]) + Tail(a, 1, p, false)) == Some(Captured(a, p))
  {
    hide Padded, ParseInt, TwoDigits, TimeGroups;
    PaddedYear(a[0]);
    TwoDigitsOfTail(a, 1, p);
    TwoDigitsOfTail(a, 2, p);
    TimeGroupsOfTail(a, p);
    var s := Padded(a[0]) + Tail(a, 1, p, false);
    assert s[..4] == Padded(a[0]) && s[4..] == Tail(a, 1, p, false);
    assert Tail(a, p + 1, p, false) == "";
    assert p < 2 ==> Tail(a, 3, p, false) == "";
    assert p < 1 ==> Tail(a, 2, p, false) == "";
    var c := Captured(a, p);
    assert c == [c[0], c[1], c[2]] + [c[3], c[4], c[5]];
  }

  lemma CapturedFields(now: int, a: seq<int>, p: nat)
    requires |a| == 7 && p < 6 && forall k | 0 <= k < 6 :: a[k] >= 0
    ensures NumericFields(now, Captured(a, p)) == Truncate(a, p)
    ensures LastGiven(Captured(a, p), 6) == p
  {
    hide MakeArray;
    var g := Captured(a, p);
    assert g[0].Some?;
    assert forall i | 0 < i < 7 :: GivenBefore(g, i);
    LastOfCaptured(a, p, 6);
  }

  lemma {:induction false} LastOfCaptured(a: seq<int>, p: nat, n: nat)
    requires |a| == 7 && p < n <= 6 && forall k | 0 <= k < 6 :: a[k] >= 0
    ensures LastGiven(Captured(a, p), n) == p
  {
    if p == n - 1 {
    } else {
      LastOfCaptured(a, p, n - 1);
    }
  }

  // ----- A printed time is read as its calendar unit -----

  predicate FourDigitYear(t: int) {
    1000 <= MakeArray(t)[0] <= 9999
  }

  lemma UnitInRange(t: int, p: nat)
    requires p < 6 && FourDigitYear(t)
    ensures var a := MakeArray(t);
            IsTime(UnitStart(a, p)) && IsTime(UnitEnd(a, p)) && UnitStart(a, p) <= t < UnitEnd(a, p)
  {
    hide MakeArray, UnitStart, UnitEnd, Utc, Truncate, SameUnit;
    var a := MakeArray(t);
    UnitMembers(t, p, t);
    YearBounds(t);
    UnitAtMostAYear(a, p);
    assert SameUnit(t, t, p) by { SameFields(t, t, p); }
  }

  lemma YearBounds(t: int)
    requires FourDigitYear(t)
    ensures -100000000000000 < t < 300000000000000
  {
    var y := YearOfDay(t / MS_PER_DAY);
    if y > 1000 { YearsIncrease(1000, y); }
    if y < 9999 { YearsIncrease(y + 1, 10000); }
    assert DayFromYear(1000) == -354285 && DayFromYear(10000) == 2932897;
    hide DayFromYear, YearOfDay, MonthOfDay, DateOfDay;
  }

  lemma UnitAtMostAYear(a: seq<int>, p: nat)
    requires |a| == 7 && p < 6 && 1 <= a[1] <= 12
    ensures UnitEnd(a, p) <= UnitStart(a, p) + 366 * MS_PER_DAY
  {
    hide Leap, DayFromYear;
    YearLength(a[0]);
  }

  lemma TermOfPrinted(now: int, t: int, p: nat)
    requires p < 6 && FourDigitYear(t)
    ensures ProcTerm(now, Printed(t, p))
         == Some(Span(Range(Some(UnitStart(MakeArray(t), p)), Some(UnitEnd(MakeArray(t), p)))))
  {
    hide MakeArray, UnitStart, UnitEnd, Printed, Padded, Tail, Normalised, NumericGroups, NumericFields, LastGiven,
      Utc, Truncate, Captured;
    var a := MakeArray(t);
    PrintedIsTail(t, p);
    NormalisedTail(a, 1, p);
    PaddedYear(a[0]);
    NormalisedNumeric(Padded(a[0]));
    NormalisedConcat(Padded(a[0]), Tail(a, 1, p, true));
    NumericGroupsOfPrinted(a, p);
    CapturedFields(now, a, p);
    UnitInRange(t, p);
    UnitStarts(a, p);
    UnitEnds(a, p);
    var s := Padded(a[0]) + Tail(a, 1, p, false);
    assert s[0] == Padded(a[0])[0] && s[0] in s;
  }

  lemma Epoch()
    ensures MakeArray(0)[0] == 1970 && MakeArray(-1)[0] == 1969
  {
    hide YearOfDay, MonthOfDay, DateOfDay;
    YearOfDayUnique(0, 1970);
    YearOfDayUnique(-1, 1969);
  }

  /** The unit of t ends at the epoch exactly when it contains the last millisecond before it. */
  lemma EndsAtEpoch(t: int, p: nat)
    requires p < 6 && FourDigitYear(t)
    ensures UnitEnd(MakeArray(t), p) == 0 <==> SameUnit(-1, t, p)
  {
    Epoch();
    hide MakeArray, UnitStart, UnitEnd, SameUnit;
    UnitMembers(t, p, -1);
    UnitMembers(t, p, 0);
    UnitInRange(t, p);
    SameFields(-1, t, p);
    SameFields(0, t, p);
  }

  lemma PrintedUnit(t: int, p: nat)
    requires p < 6 && FourDigitYear(t)
    ensures forall x :: Printed(x, p) == Printed(t, p) <==> UnitStart(MakeArray(t), p) <= x < UnitEnd(MakeArray(t), p)
  {
    hide MakeArray, UnitStart, UnitEnd, SameUnit, Printed;
    forall x
      ensures Printed(x, p) == Printed(t, p) <==> UnitStart(MakeArray(t), p) <= x < UnitEnd(MakeArray(t), p)
    {
      PrintedInjective(x, t, p);
      UnitMembers(t, p, x);
    }
  }

  /** The range parsed from a printed time is the set of all times that print the same, except for
      the text that is a prefix of "1969-12-31 23:59:59": its exclusive end is 0, which `parse`
      takes for a missing end and does not make inclusive. */
  lemma PrintThenParse(now: int, t: int, p: nat)
    requires p < 6 && FourDigitYear(t)
    ensures Parse(now, Some(Printed(t, p)), Single, None).Some?
    ensures var r := Parse(now, Some(Printed(t, p)), Single, None).value;
            (forall x :: Within(x, r) <==> Printed(x, p) == Printed(t, p)) <==> Printed(-1, p) != Printed(t, p)
  {
    hide MakeArray, UnitStart, UnitEnd, SameUnit, ProcTerm, Printed;
    TermOfPrinted(now, t, p);
    EndsAtEpoch(t, p);
    UnitInRange(t, p);
    var r := Parse(now, Some(Printed(t, p)), Single, None).value;
    PrintedUnit(t, p);
    PrintedInjective(-1, t, p);
    if SameUnit(-1, t, p) {
      assert Within(0, r);
    }
  }

  /** The year before the epoch, read back, reaches one millisecond too far. */
  lemma YearBeforeEpoch(now: int)
    ensures Printed(-1, 0) == "1969"
    ensures Parse(now, Some("1969"), Single, None) == Some(Bounds(At(-31536000000), At(0)))
  {
    LastYear();
    hide MakeArray, ProcTerm;
    assert Digits(1969) == "1969" by {
      assert Digits(1) == "1";
      assert Digits(19) == "19";
      assert Digits(196) == "196";
    }
    TermOfPrinted(now, -1, 0);
  }

  /** All seven fields of the epoch. */
  lemma EpochPrinted()
    ensures Printed(0, 6) == "1970-01-01 00:00:00.00"
  {
    hide MakeArray, Padded;
    EpochFields();
    PaddedEpoch();
    assert Printed(0, 2) == "1970-01-01" by {
      assert Printed(0, 0) == "1970" && Printed(0, 1) == "1970-01";
    }
    assert Printed(0, 4) == "1970-01-01 00:00" by {
      assert Printed(0, 3) == "1970-01-01 00";
    }
    assert Printed(0, 6) == Printed(0, 4) + ":00" + ".00" by {
      assert Printed(0, 5) == Printed(0, 4) + ":" + "00";
    }
  }

  lemma PaddedEpoch()
    ensures Padded(1970) == "1970" && Padded(0) == "00" && Padded(1) == "01"
  {
    assert Digits(1) == "1" && Digits(0) == "0";
    assert Digits(19) == "19";
    assert Digits(197) == "197";
  }

  lemma EpochFields()
    ensures MakeArray(0) == [1970, 1, 1, 0, 0, 0, 0]
  {
    hide YearOfDay, MonthOfDay;
    YearOfDayUnique(0, 1970);
    MonthUnique(0, 1970, 0);
  }

  lemma LastYear()
    ensures MakeArray(-1)[0] == 1969
    ensures UnitStart(MakeArray(-1), 0) == -31536000000 && UnitEnd(MakeArray(-1), 0) == 0
  {
    hide MakeArray, MonthStart;
    Epoch();
  }

  lemma BoundsOfTo(now: int, t: int, p: nat, u: int, q: nat)
    requires p < 6 && q < 6 && FourDigitYear(t) && FourDigitYear(u)
    ensures var end := UnitEnd(MakeArray(u), q);
            Parse(now, Some(Printed(t, p)), To, Some(Printed(u, q)))
            == Some(Bounds(At(UnitStart(MakeArray(t), p)), At(if end == 0 then 0 else end - 1)))
  {
    hide MakeArray, UnitStart, UnitEnd, ProcTerm, Printed;
    TermOfPrinted(now, t, p);
    TermOfPrinted(now, u, q);
  }

  /** x lies between some time that prints like t and some time that prints like u. */
  ghost predicate BetweenPrinted(x: int, t: int, p: nat, u: int, q: nat)
    requires p < 7 && q < 7
  {
    exists a, b :: Printed(a, p) == Printed(t, p) && Printed(b, q) == Printed(u, q) && a <= x <= b
  }

  /** "a -> b" is every time from the first that prints like a to the last that prints like b,
      except when b ends at the epoch and a does not start after it. */
  lemma PrintedTo(now: int, t: int, p: nat, u: int, q: nat)
    requires p < 6 && q < 6 && FourDigitYear(t) && FourDigitYear(u)
    ensures Parse(now, Some(Printed(t, p)), To, Some(Printed(u, q))).Some?
    ensures var r := Parse(now, Some(Printed(t, p)), To, Some(Printed(u, q))).value;
            (forall x :: Within(x, r) <==> BetweenPrinted(x, t, p, u, q))
            <==> !(Printed(-1, q) == Printed(u, q) && (t < 0 || Printed(0, p) == Printed(t, p)))
  {
    hide MakeArray, UnitStart, UnitEnd, SameUnit, Parse, Printed;
    BoundsOfTo(now, t, p, u, q);
    EndsAtEpoch(u, q);
    PrintedInjective(-1, u, q);
    UnitInRange(t, p);
    UnitInRange(u, q);
    PrintedUnit(t, p);
    PrintedUnit(u, q);
    var r := Parse(now, Some(Printed(t, p)), To, Some(Printed(u, q))).value;
    var start, end := UnitStart(MakeArray(t), p), UnitEnd(MakeArray(u), q);
    if end == 0 && start <= 0 {
      assert Within(0, r);
    } else {
      forall x | Within(x, r)
        ensures BetweenPrinted(x, t, p, u, q)
      {
        assert Printed(start, p) == Printed(t, p) && Printed(end - 1, q) == Printed(u, q) && start <= x <= end - 1;
      }
      forall x | BetweenPrinted(x, t, p, u, q)
        ensures Within(x, r)
      {
      }
    }
  }
}
