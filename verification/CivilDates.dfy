/** Calendar arithmetic of src/http/http_semantics.cpp: days_from_civil and make_time_utc. */
module CivilDates {
  import opened Bytes

  /** C++ integer division rounds towards zero. */
  function TruncatedDiv(a: int, b: int): int
    requires b > 0
  {
    if a >= 0 then a / b else -((-a) / b)
  }

  /** Conversion to a 32-bit unsigned value. */
  function Unsigned(n: int): nat { n % 0x1_0000_0000 }

  /** days_from_civil; month and day are unsigned. */
  function DaysFromCivil(year: int, month: nat, day: nat): int {
    var y := if month <= 2 then year - 1 else year;
    var era := TruncatedDiv(if y >= 0 then y else y - 399, 400);
    var yoe := Unsigned(y - era * 400);
    var mp := Unsigned(month + Unsigned(if month > 2 then -3 else 9));
    var doy := Unsigned(Unsigned(153 * mp + 2) / 5 + day - 1);
    var doe := Unsigned(yoe * 365 + yoe / 4 - yoe / 100 + doy);
    era * 146097 + doe - 719468
  }

  /** make_time_utc, in seconds since the epoch. */
  function MakeTimeUtc(year: int, month: nat, day: nat, hour: nat, minute: nat, second: nat): Option<int> {
    if month < 1 || month > 12 || day < 1 || day > 31 || hour > 23 || minute > 59 || second > 60 then None
    else Some(DaysFromCivil(year, month, day) * 86400 + hour * 3600 + minute * 60 + second)
  }

  predicate IsLeap(year: int) { year % 4 == 0 && (year % 100 != 0 || year % 400 == 0) }

  function DaysInMonth(year: int, month: nat): nat {
    if month == 2 then (if IsLeap(year) then 29 else 28)
    else if month == 4 || month == 6 || month == 9 || month == 11 then 30
    else 31
  }

  /** A date of the proleptic Gregorian calendar. */
  datatype Date = Date(year: int, month: nat, day: nat)

  predicate ValidDate(d: Date) { 1 <= d.month <= 12 && 1 <= d.day <= DaysInMonth(d.year, d.month) }

  function NextDay(d: Date): Date {
    if d.day < DaysInMonth(d.year, d.month) then d.(day := d.day + 1)
    else if d.month < 12 then Date(d.year, d.month + 1, 1)
    else Date(d.year + 1, 1, 1)
  }

  predicate Earlier(a: Date, b: Date) {
    a.year < b.year || (a.year == b.year && (a.month < b.month || (a.month == b.month && a.day < b.day)))
  }

  function Days(d: Date): int { DaysFromCivil(d.year, d.month, d.day) }

  /** Days before the year that starts on 1 March of y, in closed form. */
  function DaysBefore(y: int): int { 365 * y + y / 4 - y / 100 + y / 400 }

  /** Days from 1 March to the first of the month counted from March. */
  function MonthStart(mp: nat): nat { (153 * mp + 2) / 5 }

  lemma EraIsFloor(y: int)
    ensures TruncatedDiv(if y >= 0 then y else y - 399, 400) == y / 400
  {
  }

  lemma SplitYear(e: int, r: nat)
    requires r < 400
    ensures DaysBefore(400 * e + r) == e * 146097 + r * 365 + r / 4 - r / 100
  {
    var y := 400 * e + r;
    assert y / 4 == 100 * e + r / 4;
    assert y / 100 == 4 * e + r / 100;
    assert y / 400 == e;
  }

  function MonthFromMarch(month: nat): nat { if month > 2 then month - 3 else month + 9 }

  /** The unsigned month arithmetic wraps around once and comes out right. */
  lemma MonthsWrap(month: nat)
    requires 1 <= month <= 12
    ensures Unsigned(month + Unsigned(if month > 2 then -3 else 9)) == MonthFromMarch(month) < 12
  {
  }

  lemma DayOfYear(mp: nat, day: nat)
    requires mp < 12 && 1 <= day <= 31
    ensures Unsigned(Unsigned(153 * mp + 2) / 5 + day - 1) == MonthStart(mp) + day - 1 < 400
  {
  }

  lemma DayOfEra(yoe: nat, doy: nat)
    requires yoe < 400 && doy < 400
    ensures Unsigned(yoe * 365 + yoe / 4 - yoe / 100 + doy) == yoe * 365 + yoe / 4 - yoe / 100 + doy
  {
    assert 0 <= yoe / 4 - yoe / 100 <= 100;
  }

  lemma YearOfEra(y: int)
    ensures Unsigned(y - y / 400 * 400) == y % 400
  {
    assert y == 400 * (y / 400) + y % 400;
  }

  /** The code's arithmetic by eras is the closed form; no unsigned step wraps around. */
  lemma ClosedForm(year: int, month: nat, day: nat)
    requires 1 <= month <= 12 && 1 <= day <= 31
    ensures DaysFromCivil(year, month, day) ==
            DaysBefore(if month <= 2 then year - 1 else year) + MonthStart(MonthFromMarch(month)) + day - 1 - 719468
  {
    var y := if month <= 2 then year - 1 else year;
    EraIsFloor(y);
    YearOfEra(y);
    var yoe := y % 400;
    SplitYear(y / 400, yoe);
    MonthsWrap(month);
    var mp := MonthFromMarch(month);
    DayOfYear(mp, day);
    DayOfEra(yoe, MonthStart(mp) + day - 1);
    assert y == 400 * (y / 400) + yoe;
    hide DaysBefore, MonthStart, Unsigned, TruncatedDiv, MonthFromMarch;
  }

  lemma Carries(n: int)
    ensures (n + 1) / 4 == n / 4 + if (n + 1) % 4 == 0 then 1 else 0
    ensures (n + 1) / 100 == n / 100 + if (n + 1) % 100 == 0 then 1 else 0
    ensures (n + 1) / 400 == n / 400 + if (n + 1) % 400 == 0 then 1 else 0
  {
  }

  /** A year that starts in March has the leap day of the next civil year. */
  lemma YearLength(y: int)
    ensures DaysBefore(y + 1) == DaysBefore(y) + if IsLeap(y + 1) then 366 else 365
  {
    Carries(y);
    Multiples(y + 1);
  }

  lemma Multiples(n: int)
    ensures n % 400 == 0 ==> n % 100 == 0
    ensures n % 100 == 0 ==> n % 4 == 0
  {
  }

  lemma MonthLength(month: nat)
    requires 1 <= month <= 12 && month != 2
    ensures var mp := MonthFromMarch(month);
            MonthStart(mp + 1) == MonthStart(mp) + DaysInMonth(1, month)
  {
  }

  lemma EndOfFebruary(year: int)
    ensures DaysFromCivil(year, 3, 1) == DaysFromCivil(year, 2, DaysInMonth(year, 2)) + 1
  {
    ClosedForm(year, 2, DaysInMonth(year, 2));
    ClosedForm(year, 3, 1);
    YearLength(year - 1);
    hide DaysFromCivil, DaysBefore, IsLeap;
    assert MonthStart(11) == 337 && MonthStart(0) == 0;
  }

  lemma EndOfMonth(d: Date)
    requires ValidDate(d) && d.month != 2 && d.day == DaysInMonth(d.year, d.month)
    ensures Days(NextDay(d)) == Days(d) + 1
  {
    var n := NextDay(d);
    ClosedForm(d.year, d.month, d.day);
    ClosedForm(n.year, n.month, n.day);
    MonthLength(d.month);
    assert MonthFromMarch(n.month) == MonthFromMarch(d.month) + 1;
    hide DaysFromCivil, DaysBefore, MonthStart, MonthFromMarch, IsLeap;
  }

  lemma InsideMonth(d: Date)
    requires ValidDate(d) && d.day < DaysInMonth(d.year, d.month)
    ensures Days(d.(day := d.day + 1)) == Days(d) + 1
  {
    ClosedForm(d.year, d.month, d.day);
    ClosedForm(d.year, d.month, d.day + 1);
    hide DaysFromCivil, DaysBefore, MonthStart, MonthFromMarch, IsLeap;
  }

  /** The day after is one more, across months, years, centuries and eras, also before year 0. */
  lemma ConsecutiveDays(d: Date)
    requires ValidDate(d)
    ensures Days(NextDay(d)) == Days(d) + 1
  {
    hide DaysFromCivil, IsLeap;
    if d.day < DaysInMonth(d.year, d.month) {
      InsideMonth(d);
    } else if d.month == 2 {
      EndOfFebruary(d.year);
    } else {
      EndOfMonth(d);
    }
  }

  lemma Epoch()
    ensures Days(Date(1970, 1, 1)) == 0
  {
    ClosedForm(1970, 1, 1);
  }

  /** Days before the month in its civil year: the months from March on follow January and February. */
  lemma MonthsIncrease(month: nat, month': nat, day: nat)
    requires 1 <= month < month' <= 12 && (month <= 2 <==> month' <= 2)
    requires 1 <= day <= (if month == 2 then 29 else DaysInMonth(1, month))
    ensures MonthStart(MonthFromMarch(month)) + day - 1 < MonthStart(MonthFromMarch(month'))
  {
  }

  lemma BeforeMarch(year: int, month: nat, day: nat)
    requires 1 <= month <= 2 && 1 <= day <= DaysInMonth(year, month)
    ensures MonthStart(MonthFromMarch(month)) + day - 1 < if IsLeap(year) then 366 else 365
  {
  }

  lemma SameYear(year: int, month: nat, month': nat, day: nat, day': nat)
    requires ValidDate(Date(year, month, day)) && ValidDate(Date(year, month', day'))
    requires month < month' || (month == month' && day < day')
    ensures DaysFromCivil(year, month, day) < DaysFromCivil(year, month', day')
  {
    ClosedForm(year, month, day);
    ClosedForm(year, month', day');
    if month <= 2 && month' > 2 {
      YearLength(year - 1);
      BeforeMarch(year, month, day);
    } else if month < month' {
      MonthsIncrease(month, month', day);
    }
    hide DaysFromCivil, DaysBefore, MonthStart, MonthFromMarch, IsLeap;
  }

  lemma YearBounds(d: Date)
    requires ValidDate(d)
    ensures DaysFromCivil(d.year, 1, 1) <= Days(d) < DaysFromCivil(d.year + 1, 1, 1)
  {
    ConsecutiveDays(Date(d.year, 12, 31));
    hide DaysFromCivil;
    if d != Date(d.year, 1, 1) {
      SameYear(d.year, 1, d.month, 1, d.day);
    }
    if d != Date(d.year, 12, 31) {
      SameYear(d.year, d.month, 12, d.day, 31);
    }
  }

  lemma {:induction false} YearsIncrease(a: int, b: int)
    requires a <= b
    ensures DaysFromCivil(a, 1, 1) <= DaysFromCivil(b, 1, 1)
    decreases b - a
  {
    hide DaysFromCivil;
    if a < b {
      YearBounds(Date(a, 1, 1));
      YearsIncrease(a + 1, b);
    }
  }

  /** Later dates have larger numbers. */
  lemma DaysIncrease(a: Date, b: Date)
    requires ValidDate(a) && ValidDate(b) && Earlier(a, b)
    ensures Days(a) < Days(b)
  {
    hide DaysFromCivil, DaysInMonth;
    if a.year == b.year {
      SameYear(a.year, a.month, b.month, a.day, b.day);
    } else {
      YearBounds(a);
      YearsIncrease(a.year + 1, b.year);
      YearBounds(b);
    }
  }

  datatype Time = Time(hour: nat, minute: nat, second: nat)

  /** The times the source accepts: second 60 may stand in every minute. */
  predicate ValidTime(t: Time) { t.hour <= 23 && t.minute <= 59 && t.second <= 60 }

  predicate EarlierTime(s: Time, t: Time) {
    s.hour < t.hour || (s.hour == t.hour && (s.minute < t.minute || (s.minute == t.minute && s.second < t.second)))
  }

  predicate Before(a: Date, s: Time, b: Date, t: Time) { Earlier(a, b) || (a == b && EarlierTime(s, t)) }

  function Utc(d: Date, t: Time): Option<int> { MakeTimeUtc(d.year, d.month, d.day, t.hour, t.minute, t.second) }

  /** The start of the next minute. */
  function NextMinute(d: Date, t: Time): (Date, Time)
    requires ValidDate(d) && ValidTime(t)
  {
    if t.minute < 59 then (d, Time(t.hour, t.minute + 1, 0))
    else if t.hour < 23 then (d, Time(t.hour + 1, 0, 0))
    else (NextDay(d), Time(0, 0, 0))
  }

  /** Minutes since the epoch. */
  function Minutes(d: Date, t: Time): int
    requires ValidDate(d)
  {
    Days(d) * 1440 + t.hour * 60 + t.minute
  }

  lemma UtcByMinutes(d: Date, t: Time)
    requires ValidDate(d) && ValidTime(t)
    ensures Utc(d, t) == Some(Minutes(d, t) * 60 + t.second)
  {
    hide DaysFromCivil;
  }

  lemma NextMinuteIsNext(d: Date, t: Time)
    requires ValidDate(d) && ValidTime(t)
    ensures var (e, u) := NextMinute(d, t);
            ValidDate(e) && ValidTime(u) && u.second == 0 && Minutes(e, u) == Minutes(d, t) + 1
  {
    ConsecutiveDays(d);
    hide DaysFromCivil;
  }

  /** The minute is known from its number. */
  lemma MinutesInjective(a: Date, s: Time, b: Date, t: Time)
    requires ValidDate(a) && ValidDate(b) && ValidTime(s) && ValidTime(t) && Minutes(a, s) == Minutes(b, t)
    ensures a == b && s.hour == t.hour && s.minute == t.minute
  {
    if Earlier(a, b) {
      DaysIncrease(a, b);
    } else if Earlier(b, a) {
      DaysIncrease(b, a);
    }
    hide DaysFromCivil;
  }

  lemma MinutesIncrease(a: Date, s: Time, b: Date, t: Time)
    requires ValidDate(a) && ValidDate(b) && ValidTime(s) && ValidTime(t) && Before(a, s, b, t)
    ensures Minutes(a, s) < Minutes(b, t) || (Minutes(a, s) == Minutes(b, t) && s.second < t.second)
  {
    if Earlier(a, b) {
      DaysIncrease(a, b);
    }
    hide DaysFromCivil;
  }

  /** The time value never decreases, and repeats exactly from a leap second to the start of the next minute. */
  lemma TimeIncreases(a: Date, s: Time, b: Date, t: Time)
    requires ValidDate(a) && ValidDate(b) && ValidTime(s) && ValidTime(t) && Before(a, s, b, t)
    ensures Utc(a, s).Some? && Utc(b, t).Some? && Utc(a, s).value <= Utc(b, t).value
    ensures Utc(a, s) == Utc(b, t) <==> s.second == 60 && (b, t) == NextMinute(a, s)
  {
    UtcByMinutes(a, s);
    UtcByMinutes(b, t);
    MinutesIncrease(a, s, b, t);
    NextMinuteIsNext(a, s);
    var (e, u) := NextMinute(a, s);
    if Minutes(b, t) == Minutes(e, u) {
      MinutesInjective(b, t, e, u);
    }
    hide Minutes, NextMinute, Utc, Before;
  }

  /** Second 60, which the source accepts in every minute, has the value of the second after it. */
  lemma LeapSecondRepeats(d: Date, hour: nat, minute: nat)
    requires ValidDate(d) && hour <= 23 && minute <= 59
    ensures var (e, u) := NextMinute(d, Time(hour, minute, 60)); Utc(d, Time(hour, minute, 60)) == Utc(e, u)
  {
    var t := Time(hour, minute, 60);
    NextMinuteIsNext(d, t);
    var (e, u) := NextMinute(d, t);
    UtcByMinutes(d, t);
    UtcByMinutes(e, u);
    hide Minutes, NextMinute, Utc;
  }

  predicate Int32(n: int) { -0x8000_0000 <= n < 0x8000_0000 }

  /** Within five million years of year 0 every int in the code stays in 32 bits, so unbounded integers are exact. */
  lemma NoOverflow(year: int, month: nat, day: nat)
    requires -5_000_000 <= year <= 5_000_000 && 1 <= month <= 12 && 1 <= day <= 31
    ensures var y := if month <= 2 then year - 1 else year;
            && Int32(y) && Int32(y - 399) && Int32(y / 400 * 400) && Int32(y / 400 * 146097)
            && Int32(DaysFromCivil(year, month, day) + 719468) && Int32(DaysFromCivil(year, month, day))
  {
    ClosedForm(year, month, day);
    hide DaysFromCivil;
  }
}
