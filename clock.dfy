/** Wall-clock time as integer minutes. An instant is the number of minutes
    since midnight at the start of 1 January 1970 (local time, no daylight
    saving); its day index is the instant divided by the minutes of a day,
    rounded down. This replaces the `Date` objects and the date-fns calls
    `startOfDay`, `getDay`, `isSameDay`, `addMinutes`, `parse(_, 'HH:mm', _)`
    and `format(_, 'HH:mm')`. */
module Clock {
  import opened Common
  import opened Text

  const MinutesPerDay: int := 1440

  /** The day an instant falls on (`startOfDay`, `isSameDay`). */
  function DayOf(t: int): int {
    t / MinutesPerDay
  }

  /** `getDay`: Sunday = 0 … Saturday = 6; day 0 (1 January 1970) was a
      Thursday. */
  function Weekday(day: int): (w: int)
    ensures 0 <= w < 7
  {
    (day + 4) % 7
  }

  /** First minute of a day. */
  function DayStart(day: int): (t: int)
    ensures DayOf(t) == day
  {
    day * MinutesPerDay
  }

  /** Every instant of the day's 1440 minutes belongs to that day. */
  lemma WithinDay(day: int, t: int)
    requires DayStart(day) <= t < DayStart(day) + MinutesPerDay
    ensures DayOf(t) == day
  {
    var q, r := t / MinutesPerDay, t % MinutesPerDay;
    assert t == q * MinutesPerDay + r && 0 <= r < MinutesPerDay;
  }

  /** Consecutive days have consecutive weekdays, Saturday wrapping to
      Sunday. */
  lemma WeekdayNext(day: int)
    ensures Weekday(day + 1) == (Weekday(day) + 1) % 7
  {
  }

  /** The weekday repeats every seven days. */
  lemma WeekdayPeriod(day: int, weeks: int)
    ensures Weekday(day + 7 * weeks) == Weekday(day)
  {
  }

  /** Day index of a date of the proleptic Gregorian calendar: whole
      400-year eras of 146097 days, then the year of the era, then the day
      of a year counted from 1 March (so that the leap day comes last). */
  function DayFromDate(year: int, month: int, dayOfMonth: int): int
    requires 1 <= month <= 12
  {
    var y := if month <= 2 then year - 1 else year;
    var era := y / 400;
    var yearOfEra := y - era * 400;
    var dayOfYear := (153 * ((month + 9) % 12) + 2) / 5 + dayOfMonth - 1;
    var dayOfEra := yearOfEra * 365 + yearOfEra / 4 - yearOfEra / 100 + dayOfYear;
    era * 146097 + dayOfEra - 719468
  }

  /** 1 January 1970 is day 0, a Thursday. */
  lemma EpochIsThursday()
    ensures DayFromDate(1970, 1, 1) == 0 && Weekday(DayFromDate(1970, 1, 1)) == 4
  {
  }

  /** 1 January 2024 is a Monday. */
  lemma NewYear2024IsMonday()
    ensures Weekday(DayFromDate(2024, 1, 1)) == 1
  {
    assert DayFromDate(2024, 1, 1) == 19723;
  }

  /** 1 January 2000 is a Saturday. */
  lemma NewYear2000IsSaturday()
    ensures Weekday(DayFromDate(2000, 1, 1)) == 6
  {
    assert DayFromDate(2000, 1, 1) == 10957;
  }

  /** The leap day: 29 February 2024 and 1 March 2024 are consecutive days. */
  lemma LeapDay2024()
    ensures DayFromDate(2024, 3, 1) == DayFromDate(2024, 2, 29) + 1
  {
    assert DayFromDate(2024, 2, 29) == 19782;
  }

  predicate IsDigit(c: char) {
    '0' <= c <= '9'
  }

  function DigitValue(c: char): (n: int)
    requires IsDigit(c)
    ensures 0 <= n < 10
  {
    c as int - '0' as int
  }

  function DigitChar(n: int): (c: char)
    requires 0 <= n < 10
    ensures IsDigit(c) && DigitValue(c) == n
  {
    ('0' as int + n) as char
  }

  /** `parse(s, 'HH:mm', day)` read as minutes since midnight: two digits of
      hour (00-23), a colon, two digits of minute (00-59). Anything else is
      an Invalid Date, here None. */
  function ParseTime(s: string): (r: Option<int>)
    ensures r.Some? ==> 0 <= r.value < MinutesPerDay
  {
    if |s| == 5 && IsDigit(s[0]) && IsDigit(s[1]) && s[2] == ':' && IsDigit(s[3]) && IsDigit(s[4]) then
      var hour := 10 * DigitValue(s[0]) + DigitValue(s[1]);
      var minute := 10 * DigitValue(s[3]) + DigitValue(s[4]);
      if hour < 24 && minute < 60 then Some(60 * hour + minute) else None
    else
      None
  }

  function TwoDigits(n: int): (s: string)
    requires 0 <= n < 100
  {
    [DigitChar(n / 10), DigitChar(n % 10)]
  }

  /** `formatTime` (`format(date, 'HH:mm')`): the zero-padded hour and minute
      of the instant's minute of day. */
  function FormatTime(t: int): (s: string)
    ensures |s| == 5 && s[2] == ':'
  {
    var m := t % MinutesPerDay;
    TwoDigits(m / 60) + ":" + TwoDigits(m % 60)
  }

  /** Formatting then parsing gives back the minute of day. */
  lemma FormatThenParse(t: int)
    ensures ParseTime(FormatTime(t)) == Some(t % MinutesPerDay)
  {
    var m := t % MinutesPerDay;
    var s := FormatTime(t);
    var h, mm := m / 60, m % 60;
    assert s[0] == DigitChar(h / 10) && s[1] == DigitChar(h % 10);
    assert s[3] == DigitChar(mm / 10) && s[4] == DigitChar(mm % 10);
    assert 10 * (h / 10) + h % 10 == h;
    assert 10 * (mm / 10) + mm % 10 == mm;
  }

  /** Every string ParseTime accepts is the canonical "HH:mm" form of its
      value. */
  lemma ParseThenFormat(s: string)
    requires ParseTime(s).Some?
    ensures FormatTime(ParseTime(s).value) == s
  {
    var h := 10 * DigitValue(s[0]) + DigitValue(s[1]);
    var mm := 10 * DigitValue(s[3]) + DigitValue(s[4]);
    var m := 60 * h + mm;
    assert m % MinutesPerDay == m;
    assert m / 60 == h && m % 60 == mm;
    assert h / 10 == DigitValue(s[0]) && h % 10 == DigitValue(s[1]);
    assert mm / 10 == DigitValue(s[3]) && mm % 10 == DigitValue(s[4]);
    var f := FormatTime(m);
    assert f[0] == s[0] && f[1] == s[1] && f[2] == s[2] && f[3] == s[3] && f[4] == s[4];
  }

  /** On well-formed "HH:mm" strings, JavaScript's string order is the
      chronological order, so `startTime >= endTime` compares times. */
  lemma TimeStringOrder(a: string, b: string)
    requires ParseTime(a).Some? && ParseTime(b).Some?
    ensures StrLess(a, b) <==> ParseTime(a).value < ParseTime(b).value
  {
    var x, y := ParseTime(a).value, ParseTime(b).value;
    var a0, a1, a3, a4 := DigitValue(a[0]), DigitValue(a[1]), DigitValue(a[3]), DigitValue(a[4]);
    var b0, b1, b3, b4 := DigitValue(b[0]), DigitValue(b[1]), DigitValue(b[3]), DigitValue(b[4]);
    assert x == 600 * a0 + 60 * a1 + 10 * a3 + a4 && a3 < 6;
    assert y == 600 * b0 + 60 * b1 + 10 * b3 + b4 && b3 < 6;
    assert StrLess(a, b) == StrLess(a[1..], b[1..]) || a[0] != b[0];
    if a[0] != b[0] {
      assert StrLess(a, b) <==> a0 < b0;
    } else if a[1] != b[1] {
      assert StrLess(a, b) == StrLess(a[1..], b[1..]);
      assert StrLess(a[1..], b[1..]) <==> a1 < b1;
    } else {
      assert StrLess(a, b) == StrLess(a[1..], b[1..]) == StrLess(a[2..], b[2..]);
      assert a[2..][0] == b[2..][0] == ':';
      assert StrLess(a[2..], b[2..]) == StrLess(a[3..], b[3..]);
      if a[3] != b[3] {
        assert StrLess(a[3..], b[3..]) <==> a3 < b3;
      } else {
        assert StrLess(a[3..], b[3..]) == StrLess(a[4..], b[4..]);
        if a[4] == b[4] {
          assert a[5..] == b[5..] == [];
          assert StrLess(a[4..], b[4..]) == StrLess(a[5..], b[5..]);
        }
      }
    }
  }
}
