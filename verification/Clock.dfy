/** The slice of Go's time package the scheduler uses: two Format layouts and Parse with the
    layout "15:04:05". */
module Clock {
  import opened Options
  import opened Decimal

  type Month = n: nat | 1 <= n <= 12 witness 1
  type Day = n: nat | 1 <= n <= 31 witness 1
  type Hour = n: nat | n < 24
  type Minute = n: nat | n < 60
  type Second = n: nat | n < 60

  /** A wall-clock reading. */
  datatype Instant = Instant(year: nat, month: Month, day: Day, hour: Hour, minute: Minute, second: Second)

  function HourMinute(t: Instant): string {
    Pad(t.hour, 2) + ":" + Pad(t.minute, 2)
  }

  /** Format("15:04:05"). */
  function ClockText(t: Instant): string {
    HourMinute(t) + ":" + Pad(t.second, 2)
  }

  function DateText(t: Instant): string {
    Pad(t.year, 4) + "-" + Pad(t.month, 2) + "-" + Pad(t.day, 2)
  }

  /** Format("2006-01-02 15:04"). */
  function Stamp(t: Instant): string {
    DateText(t) + " " + HourMinute(t)
  }

  predicate SameDate(a: Instant, b: Instant) {
    a.year == b.year && a.month == b.month && a.day == b.day
  }

  predicate SameMinuteOfDay(a: Instant, b: Instant) {
    a.hour == b.hour && a.minute == b.minute
  }

  /** Calendar order of the dates alone. */
  predicate NoEarlierDate(a: Instant, b: Instant) {
    a.year < b.year || (a.year == b.year && (a.month < b.month || (a.month == b.month && a.day <= b.day)))
  }

  lemma HourMinuteShape(t: Instant)
    ensures |HourMinute(t)| == 5
    ensures HourMinute(t)[..2] == Pad(t.hour, 2) && HourMinute(t)[3..] == Pad(t.minute, 2)
    ensures IsDigit(HourMinute(t)[0]) && IsDigit(HourMinute(t)[1])
    ensures ClockText(t)[..5] == HourMinute(t)
  {
    TwoDigits(t.hour);
    TwoDigits(t.minute);
  }

  lemma HourMinuteInjective(a: Instant, b: Instant)
    ensures HourMinute(a) == HourMinute(b) <==> SameMinuteOfDay(a, b)
  {
    HourMinuteShape(a);
    HourMinuteShape(b);
    assert Value(HourMinute(a)[..2]) == a.hour && Value(HourMinute(a)[3..]) == a.minute;
    assert Value(HourMinute(b)[..2]) == b.hour && Value(HourMinute(b)[3..]) == b.minute;
  }

  /** The date text read backwards from its fixed-width end. */
  lemma DateTextShape(t: Instant)
    ensures var s := DateText(t); var n := |s|;
            && n >= 10
            && s[n - 2..] == Pad(t.day, 2) && s[n - 5..n - 3] == Pad(t.month, 2) && s[..n - 6] == Pad(t.year, 4)
  {
    TwoDigits(t.month);
    TwoDigits(t.day);
  }

  lemma DateTextInjective(a: Instant, b: Instant)
    requires DateText(a) == DateText(b)
    ensures SameDate(a, b)
  {
    DateTextShape(a);
    DateTextShape(b);
    assert Value(Pad(a.day, 2)) == a.day && Value(Pad(b.day, 2)) == b.day;
    assert Value(Pad(a.month, 2)) == a.month && Value(Pad(b.month, 2)) == b.month;
    assert Value(Pad(a.year, 4)) == a.year && Value(Pad(b.year, 4)) == b.year;
  }

  lemma StampShape(t: Instant)
    ensures var s := Stamp(t); var n := |s|;
            n >= 6 && s[n - 5..] == HourMinute(t) && s[..n - 6] == DateText(t)
  {
    HourMinuteShape(t);
  }

  /** A stamp identifies one minute of one date. */
  lemma StampInjective(a: Instant, b: Instant)
    ensures Stamp(a) == Stamp(b) <==> SameDate(a, b) && SameMinuteOfDay(a, b)
  {
    StampShape(a);
    StampShape(b);
    HourMinuteInjective(a, b);
    if Stamp(a) == Stamp(b) {
      DateTextInjective(a, b);
    }
  }

  // ----- time.Parse("15:04:05", ...) -----

  /** The parser's getnum: two digits, or one where the layout element is not fixed-width. */
  function GetNum(s: string, fixed: bool): Option<(nat, string)> {
    if s == [] || !IsDigit(s[0]) then None
    else if |s| < 2 || !IsDigit(s[1]) then
      if fixed then None else Some((DigitValue(s[0]), s[1..]))
    else Some((DigitValue(s[0]) * 10 + DigitValue(s[1]), s[2..]))
  }

  function Skip(s: string, c: char): Option<string> {
    if s != [] && s[0] == c then Some(s[1..]) else None
  }

  /** A fraction after the seconds is accepted although the layout has none. */
  predicate IsFraction(s: string) {
    |s| >= 2 && (s[0] == '.' || s[0] == ',') && AllDigits(s[1..])
  }

  function ParseClock(s: string): Option<(Hour, Minute, Second)> {
    match GetNum(s, false)
    case None => None
    case Some((hour, s1)) =>
      if hour >= 24 then None
      else match Skip(s1, ':')
        case None => None
        case Some(s2) =>
          match GetNum(s2, true)
          case None => None
          case Some((minute, s3)) =>
            if minute >= 60 then None
            else match Skip(s3, ':')
              case None => None
              case Some(s4) =>
                match GetNum(s4, true)
                case None => None
                case Some((second, s5)) =>
                  if second >= 60 || !(s5 == [] || IsFraction(s5)) then None
                  else Some((hour, minute, second))
  }

  lemma GetNumOfPad(n: nat, rest: string, fixed: bool)
    requires n < 100
    ensures GetNum(Pad(n, 2) + rest, fixed) == Some((n, rest))
  {
    TwoDigitParse(n);
    var s := Pad(n, 2) + rest;
    assert s[2..] == rest && s[0] == Pad(n, 2)[0] && s[1] == Pad(n, 2)[1];
  }

  lemma FromTheRight(a: string, b: string, c: string, d: string)
    ensures a + ":" + b + ":" + c + d == a + ([':'] + (b + ([':'] + (c + d))))
  {
  }

  lemma GetNumAfterColon(n: nat, rest: string)
    requires n < 100
    ensures var s := [':'] + (Pad(n, 2) + rest);
            Skip(s, ':').Some? && GetNum(Skip(s, ':').value, true) == Some((n, rest))
  {
    var s := [':'] + (Pad(n, 2) + rest);
    assert s[1..] == Pad(n, 2) + rest;
    GetNumOfPad(n, rest, true);
  }

  /** Parsing what Format wrote gives the same reading back, whatever the fraction. */
  lemma ParseFormatted(t: Instant, fraction: string)
    requires fraction == [] || IsFraction(fraction)
    ensures ParseClock(ClockText(t) + fraction) == Some((t.hour, t.minute, t.second))
  {
    var s3 := [':'] + (Pad(t.second, 2) + fraction);
    var s1 := [':'] + (Pad(t.minute, 2) + s3);
    FromTheRight(Pad(t.hour, 2), Pad(t.minute, 2), Pad(t.second, 2), fraction);
    GetNumOfPad(t.hour, s1, false);
    GetNumAfterColon(t.minute, s3);
    GetNumAfterColon(t.second, fraction);
  }

  /** Any digits may follow, after a point or a comma. */
  lemma FractionIsDropped(t: Instant, digits: string)
    requires digits != [] && AllDigits(digits)
    ensures ParseClock(ClockText(t) + "." + digits) == ParseClock(ClockText(t) + "," + digits) == Some((t.hour, t.minute, t.second))
  {
    assert ("." + digits)[1..] == digits && ("," + digits)[1..] == digits;
    assert ClockText(t) + "." + digits == ClockText(t) + ("." + digits);
    assert ClockText(t) + "," + digits == ClockText(t) + ("," + digits);
    ParseFormatted(t, "." + digits);
    ParseFormatted(t, "," + digits);
  }
}
