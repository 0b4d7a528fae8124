/**
 What a date of `-b` or `-t` comes to in seconds since 1970-01-01 00:00, as one formula in its
 year, month, day, hour and minute, and what an ill-formed date is refused for.
 */
module EpochSeconds {
  import opened Text
  import opened Numbers
  import opened Calendar
  import opened DateOption
  import opened OptionText
  import OptionReading
  import TimeFields

  /** The days of a common year before each month. */
  const OFFSETS: seq<nat> := [0, 31, 59, 90, 120, 151, 181, 212, 243, 273, 304, 334]

  function LeapDay(leap: bool): nat {
    if leap then 1 else 0
  }

  lemma FirstHalf(year: nat)
    ensures DaysBeforeMonth(year, 1) == 31
    ensures DaysBeforeMonth(year, 2) == 59 + LeapDay(Leap(year))
    ensures DaysBeforeMonth(year, 3) == 90 + LeapDay(Leap(year))
    ensures DaysBeforeMonth(year, 4) == 120 + LeapDay(Leap(year))
    ensures DaysBeforeMonth(year, 5) == 151 + LeapDay(Leap(year))
    ensures DaysBeforeMonth(year, 6) == 181 + LeapDay(Leap(year))
  {
    assert DaysBeforeMonth(year, 1) == DaysBeforeMonth(year, 0) + DaysInMonth(year, 0);
    assert DaysBeforeMonth(year, 2) == DaysBeforeMonth(year, 1) + DaysInMonth(year, 1);
    assert DaysBeforeMonth(year, 3) == DaysBeforeMonth(year, 2) + DaysInMonth(year, 2);
    assert DaysBeforeMonth(year, 4) == DaysBeforeMonth(year, 3) + DaysInMonth(year, 3);
    assert DaysBeforeMonth(year, 5) == DaysBeforeMonth(year, 4) + DaysInMonth(year, 4);
  }

  lemma SecondHalf(year: nat)
    ensures DaysBeforeMonth(year, 7) == 212 + LeapDay(Leap(year))
    ensures DaysBeforeMonth(year, 8) == 243 + LeapDay(Leap(year))
    ensures DaysBeforeMonth(year, 9) == 273 + LeapDay(Leap(year))
    ensures DaysBeforeMonth(year, 10) == 304 + LeapDay(Leap(year))
    ensures DaysBeforeMonth(year, 11) == 334 + LeapDay(Leap(year))
    ensures DaysBeforeMonth(year, 12) == 365 + LeapDay(Leap(year))
  {
    FirstHalf(year);
    assert DaysBeforeMonth(year, 7) == DaysBeforeMonth(year, 6) + DaysInMonth(year, 6);
    assert DaysBeforeMonth(year, 8) == DaysBeforeMonth(year, 7) + DaysInMonth(year, 7);
    assert DaysBeforeMonth(year, 9) == DaysBeforeMonth(year, 8) + DaysInMonth(year, 8);
    assert DaysBeforeMonth(year, 10) == DaysBeforeMonth(year, 9) + DaysInMonth(year, 9);
    assert DaysBeforeMonth(year, 11) == DaysBeforeMonth(year, 10) + DaysInMonth(year, 10);
  }

  lemma MonthOffset(year: nat, month: nat)
    requires month < 12
    ensures DaysBeforeMonth(year, month) == OFFSETS[month] + LeapDay(Leap(year) && month >= 2)
  {
    FirstHalf(year);
    SecondHalf(year);
    assert DaysBeforeMonth(year, 0) == 0;
  }

  /** Leap years from year 1 on, up to and with this one. */
  function Leaps(year: nat): int {
    year / 4 - year / 100 + year / 400
  }

  /**
   Days since 1970-01-01, the month from 0 on: 365 a year, one more for every leap year, 477 of
   which lie before 1970, and the days of the year that have passed.
   */
  function SinceEpoch(year: nat, month: nat, day: nat): int
    requires year > 0 && month < 12
  {
    365 * (year - 1970) + Leaps(year - 1) - 477 + OFFSETS[month]
    + (if month >= 2 && year % 4 == 0 && (year % 100 != 0 || year % 400 == 0) then 1 else 0) + day - 1
  }

  lemma Fours(n: nat)
    ensures (n + 1) / 4 == n / 4 + if (n + 1) % 4 == 0 then 1 else 0
  {
  }

  lemma Hundreds(n: nat)
    ensures (n + 1) / 100 == n / 100 + if (n + 1) % 100 == 0 then 1 else 0
  {
  }

  lemma FourHundreds(n: nat)
    ensures (n + 1) / 400 == n / 400 + if (n + 1) % 400 == 0 then 1 else 0
  {
  }

  lemma ByFourHundred(year: nat, q: nat)
    requires year == 400 * q
    ensures year % 100 == 0
  {
    assert year == 100 * (4 * q);
  }

  lemma ByHundred(year: nat, q: nat)
    requires year == 100 * q
    ensures year % 4 == 0
  {
    assert year == 4 * (25 * q);
  }

  lemma LeapByDivisors(year: nat)
    ensures LeapDay(Leap(year)) == (if year % 4 == 0 then 1 else 0) - (if year % 100 == 0 then 1 else 0)
                                   + (if year % 400 == 0 then 1 else 0)
  {
    if year % 400 == 0 { ByFourHundred(year, year / 400); }
    if year % 100 == 0 { ByHundred(year, year / 100); }
  }

  lemma NextLeaps(year: nat)
    requires year > 0
    ensures Leaps(year) == Leaps(year - 1) + LeapDay(Leap(year))
  {
    Fours(year - 1);
    Hundreds(year - 1);
    FourHundreds(year - 1);
    LeapByDivisors(year);
  }

  lemma {:induction false} DaysOfYears(year: nat)
    requires year > 0
    ensures DaysBeforeYear(year) == 365 * year + Leaps(year - 1) + 1
  {
    var last := year - 1;
    SecondHalf(last);
    if last == 0 {
      assert DaysBeforeYear(1) == DaysBeforeYear(0) + DaysBeforeMonth(0, 12);
    } else {
      DaysOfYears(last);
      NextLeaps(last);
      assert DaysBeforeYear(year) == DaysBeforeYear(last) + DaysBeforeMonth(last, 12);
    }
  }

  lemma LeapsUntil(year: nat)
    requires year == 1969
    ensures Leaps(year) == 477
  {
  }

  lemma EpochYear(year: nat)
    requires year == 1970
    ensures DayNumber(year, 0, 1) == 719528
  {
    DaysOfYears(year);
    LeapsUntil(year - 1);
  }

  lemma DaysAreCounted(year: nat, month: nat, day: nat)
    requires year > 0 && month < 12 && day >= 1
    ensures DayNumber(year, month, day) == 719528 + SinceEpoch(year, month, day)
  {
    MonthOffset(year, month);
    DaysOfYears(year);
  }

  /** An instant in seconds. */
  lemma InSeconds(year: nat, month: nat, day: nat, hour: nat, minute: nat)
    requires year > 0 && month < 12 && day >= 1
    ensures TimeT(DayNumber(year, month, day) * 1440 + hour * 60 + minute)
         == 86400 * SinceEpoch(year, month, day) + 3600 * hour + 60 * minute
  {
    DaysAreCounted(year, month, day);
    EpochYear(1970);
  }

  /** What `mktime` gives for a month that may be the first of the next year. */
  function Seconds(tm: Civil): int
    requires tm.year > 0 && tm.month <= 12
  {
    3600 * tm.hour + 60 * tm.minute + 86400 *
      if tm.month < 12 then SinceEpoch(tm.year, tm.month, tm.day) else SinceEpoch(tm.year + 1, 0, tm.day)
  }

  lemma MkTimeInSeconds(tm: Civil)
    requires tm.year > 0 && tm.month <= 12 && tm.day >= 1
    ensures TimeT(MkTime(tm)) == Seconds(tm)
  {
    if tm.month < 12 {
      MinutesInYear(tm);
      InSeconds(tm.year, tm.month, tm.day, tm.hour, tm.minute);
    } else {
      assert tm.month / 12 == 1 && tm.month % 12 == 0;
      InSeconds(tm.year + 1, 0, tm.day, tm.hour, tm.minute);
    }
  }

  lemma TargetBounds(f: Fields, now: Civil)
    requires Proper(f) && Valid(now)
    ensures var tm := Target(f, now); tm.month <= 12 && tm.day >= 1
  {
  }

  lemma TargetInSeconds(f: Fields, now: Civil)
    requires Proper(f) && Valid(now) && Target(f, now).year > 0
    ensures Target(f, now).month <= 12
    ensures TimeT(MkTime(Target(f, now))) == Seconds(Target(f, now))
  {
    TargetBounds(f, now);
    MkTimeInSeconds(Target(f, now));
  }

  lemma DateOfFields(text: string, f: Fields, now: OptionReading.Now)
    requires text != "" && text[0] != ':' && ReadFields(TimeFields.Tokens(text, ':')) == Ok(f)
    ensures OptionReading.Date(text, now) == Ok(TimeT(MkTime(Target(f, now))))
  {
  }

  lemma NoLeadingColon(f: Fields)
    ensures var s := Join(DateParts(f), ":"); s != "" && s[0] != ':'
  {
    var parts := DateParts(f);
    assert parts[0] != "" && parts[0][0] in DIGITS;
    assert Join(parts, ":") == parts[0] + ":" + Join(parts[1..], ":");
    assert Join(parts, ":")[0] == parts[0][0];
  }

  lemma DateIsTarget(f: Fields, now: OptionReading.Now)
    requires Proper(f) && (f.year.Some? ==> Fits(f.year.value))
    ensures OptionReading.Date(Join(DateParts(f), ":"), now) == Ok(TimeT(MkTime(Target(f, now))))
  {
    DateRoundTrip(f);
    NoLeadingColon(f);
    DateOfFields(Join(DateParts(f), ":"), f, now);
  }

  /** A written date, in seconds. */
  lemma DateInSeconds(f: Fields, now: OptionReading.Now)
    requires Proper(f) && (f.year.Some? ==> Fits(f.year.value)) && Target(f, now).year > 0
    ensures OptionReading.Date(Join(DateParts(f), ":"), now) == Ok(Seconds(Target(f, now)))
  {
    DateIsTarget(f, now);
    TargetInSeconds(f, now);
  }

  /** A date that names its year, in seconds: nothing of the present matters. */
  lemma FullDateInSeconds(f: Fields, now: OptionReading.Now)
    requires Proper(f) && f.year.Some? && Fits(f.year.value)
    ensures OptionReading.Date(Join(DateParts(f), ":"), now)
         == Ok(86400 * SinceEpoch(f.year.value, f.month.value - 1, f.day.value) + 3600 * f.hour + 60 * f.minute)
  {
    DateInSeconds(f, now);
    FullTarget(f, now);
  }

  lemma FullTarget(f: Fields, now: Civil)
    requires Proper(f) && f.year.Some?
    ensures Seconds(Target(f, now))
         == 86400 * SinceEpoch(f.year.value, f.month.value - 1, f.day.value) + 3600 * f.hour + 60 * f.minute
  {
  }

  lemma FiveNumbers(a: string, b: string, c: string, d: string, e: string)
    requires IsNumerical(a) && IsNumerical(b) && IsNumerical(c) && IsNumerical(d) && IsNumerical(e)
    ensures forall i | 0 <= i < 5 :: IsNumerical([a, b, c, d, e][i])
  {
    forall i | 0 <= i < 5 ensures IsNumerical([a, b, c, d, e][i]) {
      assert i == 0 || i == 1 || i == 2 || i == 3 || i == 4;
    }
  }

  /** The first field out of range, from the minute up, is what a date of five numbers is refused for. */
  lemma FirstBadField(a: string, b: string, c: string, d: string, e: string,
                      minute: nat, hour: nat, day: nat, month: nat, year: nat)
    requires Means(a, minute) && Means(b, hour) && Means(c, day) && Means(d, month) && Means(e, year)
    ensures var r := ReadFields([a, b, c, d, e]);
            if 60 <= minute then r == Error(BadMinute)
            else if 24 <= hour then r == Error(BadHour)
            else if day == 0 || 32 <= day then r == Error(BadDay)
            else if month == 0 || 13 <= month then r == Error(BadMonth)
            else if year < 1970 then r == Error(BadYear)
            else r == Ok(Fields(minute, hour, Some(day), Some(month), Some(year)))
  {
    FiveNumbers(a, b, c, d, e);
  }

  /** A field that is no number, or a single field, refuses the date. */
  lemma NoDate(text: string)
    requires ':' !in text
    ensures ReadFields(TimeFields.Tokens(text, ':')) == Error(if IsNumerical(text) then TooFewFields else NotIntegers)
  {
    TimeFields.NoSeparator(text, ':');
    assert [text][0] == text;
  }

  /** Fields beyond the year must be numbers, but add nothing. */
  lemma FurtherFields(tokens: seq<string>, further: seq<string>)
    requires |tokens| == 5 && forall i | 0 <= i < |further| :: IsNumerical(further[i])
    ensures ReadFields(tokens + further) == ReadFields(tokens)
  {
    var all := tokens + further;
    assert forall i | 0 <= i < 5 :: all[i] == tokens[i];
    assert forall i | 5 <= i < |all| :: all[i] == further[i - 5];
  }

  /** A date that starts with a colon has no result; one without any is refused. */
  lemma NotADate(text: string, now: OptionReading.Now)
    ensures OptionReading.Date(":" + text, now) == Error(OptionReading.NoResult)
    ensures ':' !in text ==> OptionReading.Date(text, now) == Error(OptionReading.BadValue)
  {
    if ':' !in text { NoDate(text); }
  }
}
