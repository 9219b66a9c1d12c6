/**
 * Calendar dates and clock times, with the `strftime`/`strptime` directives
 * the scripts use: `%m/%d/%Y`, `%m/%d/%y`, `%Y-%m-%d` and `%I:%M %p`
 * (C locale, ASCII digits).
 */
module PyDates {
  import opened Options
  import opened PyText

  predicate IsLeapYear(y: int) {
    y % 4 == 0 && (y % 100 != 0 || y % 400 == 0)
  }

  function DaysInMonth(y: int, m: int): (n: int)
    requires 1 <= m <= 12
    ensures 28 <= n <= 31
  {
    if m == 2 then (if IsLeapYear(y) then 29 else 28)
    else if m == 4 || m == 6 || m == 9 || m == 11 then 30
    else 31
  }

  datatype Date = Date(year: int, month: int, day: int)

  /** The dates Python's `datetime.date` can hold. */
  predicate ValidDate(d: Date) {
    1 <= d.year <= 9999 && 1 <= d.month <= 12 && 1 <= d.day <= DaysInMonth(d.year, d.month)
  }

  type CalDate = d: Date | ValidDate(d) witness Date(2000, 1, 1)

  datatype Time = Time(hour: int, minute: int)

  /** A `datetime.time`, to the minute (the seconds are never printed). */
  type ClockTime = t: Time | 0 <= t.hour < 24 && 0 <= t.minute < 60 witness Time(0, 0)

  /** `d.strftime("%m/%d/%Y")` */
  function FormatMDY(d: CalDate): (r: string)
    ensures |r| == 10 && r[2] == '/' && r[5] == '/'
  {
    Pad2(d.month) + "/" + Pad2(d.day) + "/" + Pad4(d.year)
  }

  /** `t.strftime("%I:%M %p")`: a 01-12 hour, the minute, and AM before noon. */
  function FormatTime12(t: ClockTime): (r: string)
    ensures |r| == 8 && r[2] == ':' && r[5] == ' '
  {
    var h := t.hour % 12;
    Pad2(if h == 0 then 12 else h) + ":" + Pad2(t.minute) + " " + (if t.hour < 12 then "AM" else "PM")
  }

  /** Reads a `%I:%M %p` string back into the 24-hour time it names. */
  function ParseTime12(s: string): Option<ClockTime> {
    if |s| == 8 && Digits2(s[..2]) && s[2] == ':' && Digits2(s[3..5]) && s[5] == ' ' &&
       (s[6..] == "AM" || s[6..] == "PM") then
      var h12 := Digits2Value(s[..2]);
      var mi := Digits2Value(s[3..5]);
      if 1 <= h12 <= 12 && mi < 60 then
        var h := (if h12 == 12 then 0 else h12) + (if s[6..] == "PM" then 12 else 0);
        Some(Time(h, mi))
      else None
    else None
  }

  /** `%I:%M %p` loses nothing: the 24-hour time can be read back from it. */
  lemma Time12RoundTrip(t: ClockTime)
    ensures ParseTime12(FormatTime12(t)) == Some(t)
  {
    var h := t.hour % 12;
    var a := Pad2(if h == 0 then 12 else h);
    var b := Pad2(t.minute);
    var p := if t.hour < 12 then "AM" else "PM";
    var s := FormatTime12(t);
    assert s == a + ":" + b + " " + p;
    assert s[..2] == a && s[3..5] == b && s[6..] == p;
  }

  /** A `%m` field as `strptime` accepts it: 1-9, 01-09 or 10-12. */
  function MonthToken(t: string): (r: Option<int>)
    ensures r.Some? ==> 1 <= r.value <= 12
  {
    if |t| == 1 && '1' <= t[0] <= '9' then Some(DigitValue(t[0]))
    else if |t| == 2 && t[0] == '0' && '1' <= t[1] <= '9' then Some(DigitValue(t[1]))
    else if |t| == 2 && t[0] == '1' && '0' <= t[1] <= '2' then Some(10 + DigitValue(t[1]))
    else None
  }

  /** A `%d` field as `strptime` accepts it: 1-9, 01-09, 10-29, 30, 31 or a space and 1-9. */
  function DayToken(t: string): (r: Option<int>)
    ensures r.Some? ==> 1 <= r.value <= 31
  {
    if |t| == 1 && '1' <= t[0] <= '9' then Some(DigitValue(t[0]))
    else if |t| == 2 && (t[0] == '0' || t[0] == ' ') && '1' <= t[1] <= '9' then Some(DigitValue(t[1]))
    else if |t| == 2 && (t[0] == '1' || t[0] == '2') && IsDigit(t[1]) then
      Some(10 * DigitValue(t[0]) + DigitValue(t[1]))
    else if |t| == 2 && t[0] == '3' && (t[1] == '0' || t[1] == '1') then Some(30 + DigitValue(t[1]))
    else None
  }

  /**
   * A `%Y` field (exactly four digits) or a `%y` field (exactly two digits,
   * 69-99 in the 1900s and 00-68 in the 2000s).
   */
  function YearToken(t: string, fourDigits: bool): (r: Option<int>)
    ensures r.Some? ==> 0 <= r.value <= 9999
  {
    if fourDigits then
      if Digits4(t) then Some(Digits4Value(t)) else None
    else if Digits2(t) then
      var y := Digits2Value(t);
      Some(if y <= 68 then 2000 + y else 1900 + y)
    else None
  }

  function MakeDate(y: int, m: int, d: int): Option<CalDate> {
    var dt := Date(y, m, d);
    if ValidDate(dt) then Some(dt) else None
  }

  /**
   * `datetime.strptime(s, "%m/%d/%Y")` (or `"%m/%d/%y"`): the whole string
   * must be month, day and year fields separated by '/', naming a real date;
   * `None` stands for the ValueError.
   */
  function StrptimeMDY(s: string, fourDigitYear: bool): (r: Option<CalDate>)
    ensures r.Some? ==> |SplitOn(s, "/")| == 3
  {
    var parts := SplitOn(s, "/");
    if |parts| != 3 then None
    else
      var m, d, y := MonthToken(parts[0]), DayToken(parts[1]), YearToken(parts[2], fourDigitYear);
      if m.Some? && d.Some? && y.Some? then MakeDate(y.value, m.value, d.value) else None
  }

  /** `datetime.strptime(s, "%Y-%m-%d")`, `None` standing for the ValueError. */
  function StrptimeYMD(s: string): Option<CalDate> {
    var parts := SplitOn(s, "-");
    if |parts| != 3 then None
    else
      var y, m, d := YearToken(parts[0], true), MonthToken(parts[1]), DayToken(parts[2]);
      if y.Some? && m.Some? && d.Some? then MakeDate(y.value, m.value, d.value) else None
  }

  lemma Pad2NoSlash(n: nat)
    requires n < 100
    ensures '/' !in Pad2(n)
  {
    var r := Pad2(n);
    assert IsDigit(r[0]) && IsDigit(r[1]);
  }

  lemma MonthOfPad2(m: int)
    requires 1 <= m <= 12
    ensures MonthToken(Pad2(m)) == Some(m)
  {
  }

  lemma DayOfPad2(d: int)
    requires 1 <= d <= 31
    ensures DayToken(Pad2(d)) == Some(d)
  {
  }

  /** What `%m/%d/%Y` writes, `%m/%d/%Y` reads back as the same date. */
  lemma MDYRoundTrip(d: CalDate)
    ensures StrptimeMDY(FormatMDY(d), true) == Some(d)
  {
    var m, dd, y := Pad2(d.month), Pad2(d.day), Pad4(d.year);
    Pad2NoSlash(d.month);
    Pad2NoSlash(d.day);
    assert '/' !in y by { assert forall i :: 0 <= i < 4 ==> IsDigit(y[i]); }
    StrptimeMDYFields(FormatMDY(d), m, dd, y, true);
    MonthOfPad2(d.month);
    DayOfPad2(d.day);
  }

  /** A date as `%m/%d/%Y` writes it. */
  predicate IsMDYText(s: string) {
    var r := StrptimeMDY(s, true);
    r.Some? && FormatMDY(r.value) == s
  }

  lemma FormatMDYIsText(d: CalDate)
    ensures IsMDYText(FormatMDY(d))
  {
    MDYRoundTrip(d);
  }

  /** A string of three '/'-free fields joined by '/' is read field by field. */
  lemma StrptimeMDYFields(s: string, m: string, d: string, y: string, fourDigitYear: bool)
    requires '/' !in m && '/' !in d && '/' !in y
    requires s == m + "/" + d + "/" + y
    ensures SplitOn(s, "/") == [m, d, y]
    ensures var mm, dd, yy := MonthToken(m), DayToken(d), YearToken(y, fourDigitYear);
      StrptimeMDY(s, fourDigitYear) == if mm.Some? && dd.Some? && yy.Some? then MakeDate(yy.value, mm.value, dd.value) else None
  {
    assert s == m + ['/'] + (d + ['/'] + y);
    SplitOnFirst(m, '/', d + ['/'] + y);
    SplitOnFirst(d, '/', y);
    SplitOnNone(y, '/');
  }

  /** The two-digit year '99' reads as 1999. */
  lemma ShortYearExample(s: string)
    requires s == "1/1/99"
    ensures StrptimeMDY(s, false) == Some(Date(1999, 1, 1))
  {
    StrptimeMDYFields(s, "1", "1", "99", false);
  }

  /** 1 January 1999 is written '01/01/1999'. */
  lemma LongYearFormatExample()
    ensures FormatMDY(Date(1999, 1, 1)) == "01/01/1999"
  {
  }

  /** '01/10/2023' is a valid `%m/%d/%Y` date. */
  lemma LongYearExample(s: string)
    requires s == "01/10/2023"
    ensures StrptimeMDY(s, true) == Some(Date(2023, 1, 10))
  {
    StrptimeMDYFields(s, "01", "10", "2023", true);
  }

  /** '01/10/ee' is not a `%m/%d/%Y` date. */
  lemma BadYearExample(s: string)
    requires s == "01/10/ee"
    ensures StrptimeMDY(s, true) == None
  {
    StrptimeMDYFields(s, "01", "10", "ee", true);
  }

  /** 8:00 is written '08:00 AM'. */
  lemma Time12Example()
    ensures FormatTime12(Time(8, 0)) == "08:00 AM"
  {
  }

  /** 10:00 is written '10:00 AM'. */
  lemma Time12TenExample()
    ensures FormatTime12(Time(10, 0)) == "10:00 AM"
  {
  }
}
