/** The localtime pattern of internal/hue/schedules.go: what Create accepts and what the
    ticker can ever match. */
module LocalTime {
  import opened Options
  import opened Decimal
  import opened Text
  import opened Clock

  const WEEKLY_TIME_PREFIX := "W127/T"

  datatype Rejection = Unsupported | TooShort | NotATime

  function Validate(localTime: string): Result<(Hour, Minute, Second), Rejection> {
    if !HasPrefix(localTime, WEEKLY_TIME_PREFIX) then Err(Unsupported)
    else
      var rest := TrimPrefix(localTime, WEEKLY_TIME_PREFIX);
      if |rest| < 5 then Err(TooShort)
      else match ParseClock(rest)
        case None => Err(NotATime)
        case Some(hms) => Ok(hms)
  }

  /** matchesWeeklyTime: the first five characters after the prefix against "15:04:05". */
  predicate Matches(pattern: string, now: Instant) {
    if !HasPrefix(pattern, WEEKLY_TIME_PREFIX) then false
    else
      var want := TrimPrefix(pattern, WEEKLY_TIME_PREFIX);
      if |want| < 5 then false
      else HasPrefix(ClockText(now), want[..5])
  }

  /** The second character of the time is a digit, so the hour was written with two. */
  predicate TwoDigitHour(localTime: string) {
    |localTime| > 7 && IsDigit(localTime[7])
  }

  /** A pattern matches at most one minute of the day. */
  lemma MatchesOneMinute(pattern: string, a: Instant, b: Instant)
    requires Matches(pattern, a)
    ensures Matches(pattern, b) <==> SameMinuteOfDay(a, b)
  {
    var want := TrimPrefix(pattern, WEEKLY_TIME_PREFIX)[..5];
    HourMinuteShape(a);
    HourMinuteShape(b);
    assert want == ClockText(a)[..5] == HourMinute(a);
    assert Matches(pattern, b) <==> want == ClockText(b)[..5];
    HourMinuteInjective(a, b);
  }

  /** Validator against matcher. An accepted pattern whose hour has two digits matches all
      sixty seconds of the minute it names and nothing else; one whose hour has a single
      digit, which Go's "15" also accepts, never matches at all. */
  lemma AcceptedMatchesItsMinuteIffTwoDigitHour(localTime: string, now: Instant)
    requires Validate(localTime).Ok?
    ensures var (hour, minute, _) := Validate(localTime).value;
            Matches(localTime, now) <==> TwoDigitHour(localTime) && now.hour == hour && now.minute == minute
  {
    var rest := TrimPrefix(localTime, WEEKLY_TIME_PREFIX);
    assert localTime[7] == rest[1];
    HourMinuteShape(now);
    assert Matches(localTime, now) <==> rest[..5] == ClockText(now)[..5];
    if IsDigit(rest[1]) {
      var (hour, minute, second) := Validate(localTime).value;
      AcceptedPrefix(rest, hour, minute, second);
      var named := Instant(0, 1, 1, hour, minute, 0);
      HourMinuteInjective(named, now);
    } else {
      assert !IsDigit(rest[..5][1]);
    }
  }

  /** An accepted time with a two-digit hour starts with that minute's text. */
  lemma AcceptedPrefix(rest: string, hour: Hour, minute: Minute, second: Second)
    requires |rest| >= 5 && IsDigit(rest[1]) && ParseClock(rest) == Some((hour, minute, second))
    ensures rest[..5] == HourMinute(Instant(0, 1, 1, hour, minute, 0))
  {
    var s1 := rest[2..];
    var s2 := s1[1..];
    assert s1[0] == ':' && IsDigit(s2[0]) && IsDigit(s2[1]);
    TwoDigitParse(hour);
    TwoDigitParse(minute);
    var text := HourMinute(Instant(0, 1, 1, hour, minute, 0));
    assert text == Pad(hour, 2) + ":" + Pad(minute, 2);
    assert s2[0] == rest[3] && s2[1] == rest[4];
    SameTwoDigits(rest[0], rest[1], Pad(hour, 2)[0], Pad(hour, 2)[1]);
    SameTwoDigits(rest[3], rest[4], Pad(minute, 2)[0], Pad(minute, 2)[1]);
  }

  /** Every minute of the day can be scheduled: its own text is accepted and matches it. */
  lemma EveryMinuteIsSchedulable(t: Instant)
    ensures Validate(WEEKLY_TIME_PREFIX + ClockText(t)) == Ok((t.hour, t.minute, t.second))
    ensures Matches(WEEKLY_TIME_PREFIX + ClockText(t), t)
  {
    var localTime := WEEKLY_TIME_PREFIX + ClockText(t);
    assert TrimPrefix(localTime, WEEKLY_TIME_PREFIX) == ClockText(t);
    assert ClockText(t) + [] == ClockText(t);
    ParseFormatted(t, []);
    HourMinuteShape(t);
    assert localTime[7] == ClockText(t)[1] == HourMinute(t)[1];
    AcceptedMatchesItsMinuteIffTwoDigitHour(localTime, t);
  }

  /** The comment on validateLocalTime promises that whatever the ticker cannot evaluate is
      refused at create time; this pattern is accepted and never fires. */
  lemma OneDigitHourIsAcceptedAndNeverFires(now: Instant)
    ensures Validate("W127/T7:00:00") == Ok((7, 0, 0))
    ensures !Matches("W127/T7:00:00", now)
  {
    var localTime := "W127/T7:00:00";
    assert TrimPrefix(localTime, WEEKLY_TIME_PREFIX) == "7:00:00";
    var s := "7:00:00";
    assert s[1..] == ":00:00" && ":00:00"[1..] == "00:00" && "00:00"[2..] == ":00" && ":00"[1..] == "00" && "00"[2..] == [];
    AcceptedMatchesItsMinuteIffTwoDigitHour(localTime, now);
  }

  // ----- Exactly what is accepted. -----

  /** localtime is the prefix, the hour in one digit or two, minute and second in two, and possibly
      a fraction of a second, which the layout does not have. */
  ghost predicate Names(localTime: string, hour: Hour, minute: Minute, second: Second) {
    exists hourText, fraction ::
      && NamesWith(localTime, hourText, fraction, minute, second)
      && (hourText == Pad(hour, 2) || (hour < 10 && hourText == Digits(hour)))
  }

  predicate NamesWith(localTime: string, hourText: string, fraction: string, minute: Minute, second: Second) {
    && localTime == WEEKLY_TIME_PREFIX + (hourText + ([':'] + (Pad(minute, 2) + ([':'] + (Pad(second, 2) + fraction)))))
    && (fraction == [] || IsFraction(fraction))
  }

  /** What GetNum reads is a number in two digits or, where allowed, in one before no other. */
  lemma GetNumReads(s: string, fixed: bool, n: nat, rest: string)
    ensures GetNum(s, fixed) == Some((n, rest)) <==>
            || (n < 100 && s == Pad(n, 2) + rest)
            || (!fixed && n < 10 && s == Digits(n) + rest && (rest == [] || !IsDigit(rest[0])))
  {
    if n < 100 && s == Pad(n, 2) + rest {
      GetNumOfPad(n, rest, fixed);
    }
    if n < 10 && s == Digits(n) + rest {
      assert s[1..] == rest;
    }
    if GetNum(s, fixed) == Some((n, rest)) {
      if |s| >= 2 && IsDigit(s[1]) {
        TwoDigitParse(n);
        SameTwoDigits(s[0], s[1], Pad(n, 2)[0], Pad(n, 2)[1]);
        assert s == s[..2] + rest && s[..2] == Pad(n, 2);
      } else {
        assert s == s[..1] + rest && s[..1] == Digits(n);
      }
    }
  }

  lemma SkipReads(s: string, rest: string)
    ensures Skip(s, ':') == Some(rest) <==> s == [':'] + rest
  {
    if Skip(s, ':') == Some(rest) {
      assert s == s[..1] + s[1..];
    }
  }

  /** Validate accepts exactly these texts, and reads them as they are written. */
  lemma AcceptedIffNamed(localTime: string, hour: Hour, minute: Minute, second: Second)
    ensures Validate(localTime) == Ok((hour, minute, second)) <==> Names(localTime, hour, minute, second)
  {
    if Validate(localTime) == Ok((hour, minute, second)) {
      AcceptedIsNamed(localTime, hour, minute, second);
    }
    if Names(localTime, hour, minute, second) {
      var hourText, fraction :|
        && NamesWith(localTime, hourText, fraction, minute, second)
        && (hourText == Pad(hour, 2) || (hour < 10 && hourText == Digits(hour)));
      NamedIsAccepted(localTime, hourText, fraction, hour, minute, second);
    }
  }

  lemma AcceptedIsNamed(localTime: string, hour: Hour, minute: Minute, second: Second)
    requires Validate(localTime) == Ok((hour, minute, second))
    ensures Names(localTime, hour, minute, second)
  {
    var rest := TrimPrefix(localTime, WEEKLY_TIME_PREFIX);
    var s1 := GetNum(rest, false).value.1;
    var s2 := Skip(s1, ':').value;
    var s3 := GetNum(s2, true).value.1;
    var s4 := Skip(s3, ':').value;
    var s5 := GetNum(s4, true).value.1;
    GetNumReads(rest, false, hour, s1);
    SkipReads(s1, s2);
    GetNumReads(s2, true, minute, s3);
    SkipReads(s3, s4);
    GetNumReads(s4, true, second, s5);
    var hourText := if rest == Pad(hour, 2) + s1 then Pad(hour, 2) else Digits(hour);
    assert localTime == WEEKLY_TIME_PREFIX + rest;
    assert NamesWith(localTime, hourText, s5, minute, second);
  }

  lemma NamedIsAccepted(localTime: string, hourText: string, fraction: string, hour: Hour, minute: Minute, second: Second)
    requires NamesWith(localTime, hourText, fraction, minute, second)
    requires hourText == Pad(hour, 2) || (hour < 10 && hourText == Digits(hour))
    ensures Validate(localTime) == Ok((hour, minute, second))
  {
    var s4 := Pad(second, 2) + fraction;
    var s2 := Pad(minute, 2) + ([':'] + s4);
    var rest := hourText + ([':'] + s2);
    TrimPrefixUndoesIt(rest, WEEKLY_TIME_PREFIX);
    GetNumReads(rest, false, hour, [':'] + s2);
    SkipReads([':'] + s2, s2);
    GetNumReads(s2, true, minute, [':'] + s4);
    SkipReads([':'] + s4, s4);
    GetNumReads(s4, true, second, fraction);
  }
}
