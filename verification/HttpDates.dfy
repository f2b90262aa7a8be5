/** parse_http_date of src/http/http_semantics.cpp against the IMF-fixdate form of section 5.6.7 of RFC 9110. */
module HttpDates {
  import opened Bytes
  import opened HttpText
  import opened CivilDates

  const MONTHS: seq<string> := ["Jan", "Feb", "Mar", "Apr", "May", "Jun", "Jul", "Aug", "Sep", "Oct", "Nov", "Dec"]

  /** month_index: 1 to 12, or 0 for no month. */
  method MonthIndex(month: Bytes) returns (m: nat)
    ensures m == IndexOfMonth(month)
  {
    for i := 0 to |MONTHS|
      invariant IndexOfMonth(month) == IndexFrom(month, i)
    {
      if Ascii(MONTHS[i]) == month {
        return i + 1;
      }
    }
    m := 0;
  }

  function MonthName(m: nat): Bytes
    requires 1 <= m <= 12
  {
    Ascii(MONTHS[m - 1])
  }

  function IndexFrom(month: Bytes, i: nat): (m: nat)
    requires i <= |MONTHS|
    ensures m <= 12
    decreases |MONTHS| - i
  {
    if i == |MONTHS| then 0
    else if Ascii(MONTHS[i]) == month then i + 1
    else IndexFrom(month, i + 1)
  }

  function IndexOfMonth(month: Bytes): (m: nat)
    ensures m <= 12
  {
    IndexFrom(month, 0)
  }

  /** The last two letters of a month tell it from all others. */
  function Ending(name: Bytes): int
    requires |name| == 3
  {
    var first: int := name[1];
    first * 0x100 + name[2]
  }

  function EndingOf(i: nat): int {
    match i
    case 0 => 0x616E
    case 1 => 0x6562
    case 2 => 0x6172
    case 3 => 0x7072
    case 4 => 0x6179
    case 5 => 0x756E
    case 6 => 0x756C
    case 7 => 0x7567
    case 8 => 0x6570
    case 9 => 0x6374
    case 10 => 0x6F76
    case _ => 0x6563
  }

  lemma Spelled(s: string, ending: int)
    requires |s| == 3 && s[1] as int < 0x100 && s[2] as int < 0x100 && ending == s[1] as int * 0x100 + s[2] as int
    ensures |Ascii(s)| == 3 && Ending(Ascii(s)) == ending
  {
  }

  lemma FirstHalf(i: nat)
    requires i < 6
    ensures |Ascii(MONTHS[i])| == 3 && Ending(Ascii(MONTHS[i])) == EndingOf(i)
  {
    hide Ascii, Ending;
    match i
    case 0 => Spelled("Jan", 0x616E);
    case 1 => Spelled("Feb", 0x6562);
    case 2 => Spelled("Mar", 0x6172);
    case 3 => Spelled("Apr", 0x7072);
    case 4 => Spelled("May", 0x6179);
    case 5 => Spelled("Jun", 0x756E);
  }

  lemma SecondHalf(i: nat)
    requires 6 <= i < 12
    ensures |Ascii(MONTHS[i])| == 3 && Ending(Ascii(MONTHS[i])) == EndingOf(i)
  {
    hide Ascii, Ending;
    match i
    case 6 => Spelled("Jul", 0x756C);
    case 7 => Spelled("Aug", 0x7567);
    case 8 => Spelled("Sep", 0x6570);
    case 9 => Spelled("Oct", 0x6374);
    case 10 => Spelled("Nov", 0x6F76);
    case 11 => Spelled("Dec", 0x6563);
  }

  lemma MonthEnds(i: nat)
    requires i < 12
    ensures |Ascii(MONTHS[i])| == 3 && Ending(Ascii(MONTHS[i])) == EndingOf(i)
  {
    hide Ascii, Ending, EndingOf;
    if i < 6 {
      FirstHalf(i);
    } else {
      SecondHalf(i);
    }
  }

  lemma EndingsDiffer(i: nat, j: nat)
    requires i < j < 12
    ensures EndingOf(i) != EndingOf(j)
  {
  }

  lemma {:induction false} FoundFrom(i: nat, j: nat)
    requires i <= j < 12
    ensures IndexFrom(Ascii(MONTHS[j]), i) == j + 1
    decreases j - i
  {
    hide Ascii, Ending, EndingOf;
    if i < j {
      MonthEnds(i);
      MonthEnds(j);
      EndingsDiffer(i, j);
      FoundFrom(i + 1, j);
    }
  }

  /** The twelve names are three letters long and different from each other. */
  lemma MonthNamed(m: nat)
    requires 1 <= m <= 12
    ensures |MonthName(m)| == 3 && IndexOfMonth(MonthName(m)) == m
  {
    hide Ascii, Ending, IndexFrom;
    MonthEnds(m - 1);
    FoundFrom(0, m - 1);
  }

  lemma ShortName(s: string)
    ensures |Ascii(s)| == |s|
  {
  }

  /** parse_http_date, in seconds since the epoch. */
  function ParseHttpDate(text: Bytes): Option<int> {
    var v := TrimOws(text);
    if |v| != 29 || v[3..5] != [',' as int, SP] || v[26..29] != Ascii("GMT") then None
    else
      var day, year := ParseU64(10, v[5..7]), ParseU64(10, v[12..16]);
      var hour, minute, second := ParseU64(10, v[17..19]), ParseU64(10, v[20..22]), ParseU64(10, v[23..25]);
      var month := IndexOfMonth(v[8..11]);
      if day.None? || year.None? || hour.None? || minute.None? || second.None? || month == 0 then None
      else MakeTimeUtc(year.value, month, day.value, hour.value, minute.value, second.value)
  }

  function Two(n: nat): Bytes
    requires n < 100
  {
    ['0' as int + n / 10, '0' as int + n % 10]
  }

  function Four(n: nat): Bytes
    requires n < 10000
  {
    Two(n / 100) + Two(n % 100)
  }

  /** The numbers have room in the fixed form, and the month has a name; they need not make a date. */
  predicate TwoDigits(d: Date, t: Time) {
    0 <= d.year < 10000 && 1 <= d.month <= 12 && d.day < 100 && t.hour < 100 && t.minute < 100 && t.second < 100
  }

  function DatePart(dayName: Bytes, day: Bytes, month: Bytes, year: Bytes): Bytes {
    dayName + [',' as int, SP] + day + [SP] + month + [SP] + year + [SP]
  }

  function TimePart(hour: Bytes, minute: Bytes, second: Bytes): Bytes {
    hour + [':' as int] + minute + [':' as int] + second + [SP] + Ascii("GMT")
  }

  /** The fixed form with some three-letter day name. */
  function FixDate(dayName: Bytes, d: Date, t: Time): Bytes
    requires |dayName| == 3 && TwoDigits(d, t)
  {
    DatePart(dayName, Two(d.day), MonthName(d.month), Four(d.year))
    + TimePart(Two(t.hour), Two(t.minute), Two(t.second))
  }

  lemma TwoReads(n: nat)
    requires n < 100
    ensures ParseU64(10, Two(n)) == Some(n) && IsDigit(Two(n)[0]) && IsDigit(Two(n)[1])
            && Numeral(10, Two(n)) == Some(n)
  {
    var s := Two(n);
    assert s[..1] == [s[0]] && s[..1][..0] == [];
    assert Numeral(10, s[..1]) == Some(n / 10);
  }

  lemma FourReads(n: nat)
    requires n < 10000
    ensures ParseU64(10, Four(n)) == Some(n)
  {
    var s := Four(n);
    var high, low := n / 100, n % 100;
    TwoReads(high);
    TwoReads(low);
    assert s[..2] == Two(high) && s[2] == Two(low)[0] && s[3] == Two(low)[1];
    assert s[..3][..2] == s[..2];
    assert Numeral(10, s[..3]) == Some(high * 10 + low / 10);
    assert Numeral(10, s) == Some((high * 10 + low / 10) * 10 + low % 10);
    assert IsDigit(s[0]) && IsDigit(s[3]);
  }

  lemma DateLayout(dayName: Bytes, day: Bytes, month: Bytes, year: Bytes)
    requires |dayName| == 3 && |day| == 2 && |month| == 3 && |year| == 4
    ensures var v := DatePart(dayName, day, month, year);
            && |v| == 17 && v[3..5] == [',' as int, SP] && v[5..7] == day && v[8..11] == month && v[12..16] == year
            && v[0] == dayName[0]
  {
  }

  lemma TimeLayout(hour: Bytes, minute: Bytes, second: Bytes)
    requires |hour| == 2 && |minute| == 2 && |second| == 2
    ensures var v := TimePart(hour, minute, second);
            && |v| == 12 && v[0..2] == hour && v[3..5] == minute && v[6..8] == second && v[9..12] == Ascii("GMT")
            && v[11] == 'T' as int
  {
    ShortName("GMT");
    assert Ascii("GMT")[2] == 'T' as int;
    hide Ascii;
  }

  /** A stretch of two texts joined. */
  lemma Within(a: Bytes, b: Bytes, from: nat, to: nat)
    requires from <= to
    ensures to <= |a| ==> (a + b)[from..to] == a[from..to]
    ensures to <= |b| ==> (a + b)[|a| + from..|a| + to] == b[from..to]
  {
  }

  /** Where the pieces of the fixed form stand. */
  lemma Layout(v: Bytes, date: Bytes, time: Bytes)
    requires |date| == 17 && |time| == 12 && v == date + time
    ensures |v| == 29 && v[3..5] == date[3..5] && v[5..7] == date[5..7] && v[8..11] == date[8..11]
    ensures v[12..16] == date[12..16] && v[17..19] == time[0..2] && v[20..22] == time[3..5]
    ensures v[23..25] == time[6..8] && v[26..29] == time[9..12] && v[0] == date[0] && v[28] == time[11]
  {
    Within(date, time, 3, 5);
    Within(date, time, 5, 7);
    Within(date, time, 8, 11);
    Within(date, time, 12, 16);
    Within(date, time, 0, 2);
    Within(date, time, 6, 8);
    Within(date, time, 9, 12);
  }

  /** Whatever numbers are written in the fixed form, they read back as their time value or as none. */
  lemma FixDateReads(dayName: Bytes, d: Date, t: Time)
    requires |dayName| == 3 && !IsOws(dayName[0]) && TwoDigits(d, t)
    ensures ParseHttpDate(FixDate(dayName, d, t)) == Utc(d, t)
    ensures ValidDate(d) && ValidTime(t) ==> Utc(d, t).Some?
  {
    var v := FixDate(dayName, d, t);
    MonthNamed(d.month);
    TwoReads(d.day);
    FourReads(d.year);
    TwoReads(t.hour);
    TwoReads(t.minute);
    TwoReads(t.second);
    ShortName("GMT");
    hide MonthName, IndexOfMonth, Two, Four, ParseU64, Numeral, MakeTimeUtc, TrimOws, Ascii, DatePart, TimePart;
    var date := DatePart(dayName, Two(d.day), MonthName(d.month), Four(d.year));
    var time := TimePart(Two(t.hour), Two(t.minute), Two(t.second));
    DateLayout(dayName, Two(d.day), MonthName(d.month), Four(d.year));
    TimeLayout(Two(t.hour), Two(t.minute), Two(t.second));
    Layout(v, date, time);
    NotTrimmed(v);
  }

  lemma NotTrimmed(v: Bytes)
    requires v != [] && !IsOws(v[0]) && !IsOws(v[|v| - 1])
    ensures TrimOws(v) == v
  {
  }
}
