/** Which texts src/http/http_semantics.cpp takes for a date, and what it makes of days that do not exist. */
module DateForms {
  import opened Bytes
  import opened HttpText
  import opened CivilDates
  import opened HttpDates

  lemma MonthsInOrder()
    ensures MonthName(1) == Ascii("Jan") && MonthName(2) == Ascii("Feb") && MonthName(3) == Ascii("Mar")
    ensures MonthName(4) == Ascii("Apr") && MonthName(5) == Ascii("May") && MonthName(6) == Ascii("Jun")
    ensures MonthName(7) == Ascii("Jul") && MonthName(8) == Ascii("Aug") && MonthName(9) == Ascii("Sep")
    ensures MonthName(10) == Ascii("Oct") && MonthName(11) == Ascii("Nov") && MonthName(12) == Ascii("Dec")
  {
  }

  lemma {:induction false} FoundIs(month: Bytes, i: nat)
    requires i <= 12
    ensures var m := IndexFrom(month, i); m != 0 ==> i < m && month == MonthName(m)
    decreases 12 - i
  {
    hide Ascii;
    if i < 12 {
      FoundIs(month, i + 1);
    }
  }

  /** A month has a number exactly when it is written like the month of that number. */
  lemma IndexIs(month: Bytes, m: nat)
    requires m != 0
    ensures IndexOfMonth(month) == m <==> m <= 12 && month == MonthName(m)
  {
    FoundIs(month, 0);
    hide Ascii, IndexFrom;
    if m <= 12 {
      MonthNamed(m);
    }
  }

  /** Only the ranges are checked; a second 60 passes in every minute, a day 31 in every month. */
  lemma RangesAccepted(year: int, month: nat, day: nat, hour: nat, minute: nat, second: nat)
    ensures MakeTimeUtc(year, month, day, hour, minute, second).Some? <==>
            1 <= month <= 12 && 1 <= day <= 31 && hour <= 23 && minute <= 59 && second <= 60
  {
  }

  /** A day behind the end of its month is the day of the next month that many days further on. */
  lemma RollsOver(year: int, month: nat, day: nat)
    requires 1 <= month <= 12 && DaysInMonth(year, month) < day <= 31
    ensures month < 12 && Days(Date(year, month, day)) == Days(Date(year, month + 1, day - DaysInMonth(year, month)))
  {
    var last := DaysInMonth(year, month);
    ClosedForm(year, month, day);
    ClosedForm(year, month, last);
    ClosedForm(year, month + 1, 1);
    ClosedForm(year, month + 1, day - last);
    ConsecutiveDays(Date(year, month, last));
    hide DaysFromCivil, DaysBefore, MonthStart, IsLeap;
  }

  /** The numbers of a date text, each read where it stands. */
  predicate Numbers(v: Bytes, d: Date, t: Time)
    requires |v| == 29
  {
    && 0 <= d.year && ParseU64(10, v[12..16]) == Some(d.year) && ParseU64(10, v[5..7]) == Some(d.day)
    && ParseU64(10, v[17..19]) == Some(t.hour) && ParseU64(10, v[20..22]) == Some(t.minute)
    && ParseU64(10, v[23..25]) == Some(t.second)
  }

  /**
   * A text is taken for the date and time whose numbers stand in it, exactly when it has 29 characters
   * without the white space around it, a comma and a space behind the day name, GMT at the end, and the
   * name of the month and numbers within their ranges at their places. Nothing else is looked at.
   */
  lemma DateAccepted(text: Bytes, d: Date, t: Time, value: int)
    requires var v := TrimOws(text); |v| == 29 ==> Numbers(v, d, t)
    requires 1 <= d.month <= 12 && (|TrimOws(text)| == 29 ==> TrimOws(text)[8..11] == MonthName(d.month))
    ensures ParseHttpDate(text) == Some(value) <==>
            var v := TrimOws(text);
            && |v| == 29 && v[3] == 44 && v[4] == 32 && v[26..29] == [71, 77, 84]
            && 1 <= d.day <= 31 && ValidTime(t)
            && value == Days(d) * 86400 + t.hour * 3600 + t.minute * 60 + t.second
  {
    var v := TrimOws(text);
    IndexIs(MonthName(d.month), d.month);
    Gmt();
    RangesAccepted(d.year, d.month, d.day, t.hour, t.minute, t.second);
    TimeValue(d, t);
    hide TrimOws, ParseU64, IndexOfMonth, MonthName, DaysFromCivil, Ascii, MakeTimeUtc;
    if |v| == 29 {
      Pair(v);
    }
  }

  lemma TimeValue(d: Date, t: Time)
    ensures var made := MakeTimeUtc(d.year, d.month, d.day, t.hour, t.minute, t.second);
            made.Some? ==> made.value == Days(d) * 86400 + t.hour * 3600 + t.minute * 60 + t.second
  {
    hide DaysFromCivil;
  }

  lemma Pair(v: Bytes)
    requires |v| == 29
    ensures v[3..5] == [44, 32] <==> v[3] == 44 && v[4] == 32
  {
    assert v[3..5] == [v[3], v[4]];
  }

  lemma Gmt()
    ensures Ascii("GMT") == [71, 77, 84]
  {
  }

  /** And a text in which one of them cannot be read is not taken for a date. */
  lemma Unreadable(text: Bytes)
    requires var v := TrimOws(text);
             |v| == 29 ==>
               || (forall m | 1 <= m <= 12 :: v[8..11] != MonthName(m))
               || ParseU64(10, v[12..16]).None? || ParseU64(10, v[5..7]).None? || ParseU64(10, v[17..19]).None?
               || ParseU64(10, v[20..22]).None? || ParseU64(10, v[23..25]).None?
    ensures ParseHttpDate(text).None?
  {
    var v := TrimOws(text);
    if |v| == 29 && IndexOfMonth(v[8..11]) != 0 {
      IndexIs(v[8..11], IndexOfMonth(v[8..11]));
    }
    hide TrimOws, ParseU64, IndexOfMonth, MonthName, MakeTimeUtc, Ascii;
  }

  /** The example of section 5.6.7 of RFC 9110. */
  lemma Example()
    ensures ParseHttpDate(Ascii("Sun, 06 Nov 1994 08:49:37 GMT")) == Some(784111777)
  {
    var d, t := Date(1994, 11, 6), Time(8, 49, 37);
    ExampleForm();
    ExampleTime();
    SunStarts();
    hide FixDate, Ascii, DaysFromCivil, ParseHttpDate;
    FixDateReads(Ascii("Sun"), d, t);
  }

  lemma SunStarts()
    ensures |Ascii("Sun")| == 3 && !IsOws(Ascii("Sun")[0])
  {
  }

  const DATE: Bytes := [83, 117, 110, 44, 32, 48, 54, 32, 78, 111, 118, 32, 49, 57, 57, 52, 32]
  const TIME: Bytes := [48, 56, 58, 52, 57, 58, 51, 55, 32, 71, 77, 84]

  lemma ExampleBytes()
    ensures Ascii("Sun, 06 Nov 1994 08:49:37 GMT") == DATE + TIME
  {
  }

  lemma ExampleDate()
    ensures DatePart(Ascii("Sun"), Two(6), Ascii("Nov"), Four(1994)) == DATE
  {
  }

  lemma ExampleClock()
    ensures TimePart(Two(8), Two(49), Two(37)) == TIME
  {
  }

  lemma ExampleForm()
    ensures |Ascii("Sun")| == 3
    ensures FixDate(Ascii("Sun"), Date(1994, 11, 6), Time(8, 49, 37)) == Ascii("Sun, 06 Nov 1994 08:49:37 GMT")
  {
    MonthsInOrder();
    ExampleBytes();
    ExampleDate();
    ExampleClock();
    SunStarts();
    hide Ascii, MonthName, DatePart, TimePart, Two, Four;
  }

  lemma ExampleTime()
    ensures Utc(Date(1994, 11, 6), Time(8, 49, 37)) == Some(784111777)
  {
    ClosedForm(1994, 11, 6);
    hide DaysFromCivil;
    assert DaysBefore(1994) == 728293 && MonthStart(MonthFromMarch(11)) == 245;
  }
}
