/**
 The date of the `-b` and `-t` options, `[[[year:]month:]day:]hour:minute`. Fields left out
 are chosen so that the date does not lie in the past.
 */
module DateOption {
  import opened Text
  import opened Numbers
  import opened TimeFields
  import opened Calendar

  datatype Fields = Fields(
    minute: nat, hour: nat, day: Option<nat>, month: Option<nat>, year: Option<nat>)

  datatype DateError = NotIntegers | TooFewFields | BadMinute | BadHour | BadDay | BadMonth | BadYear

  // ---- Reading the fields --------------------------------------------------------------

  /** The fields in the order of `Tokens`; any beyond the fifth are checked for digits only. */
  function ReadFields(tokens: seq<string>): (r: Result<Fields, DateError>)
    ensures r.Ok? ==> Proper(r.value)
  {
    if exists i | 0 <= i < |tokens| :: !IsNumerical(tokens[i]) then Error(NotIntegers)
    else if |tokens| < 2 then Error(TooFewFields)
    else
      var minute, hour := ConvertToInt(tokens[0]), ConvertToInt(tokens[1]);
      var day := if |tokens| >= 3 then ConvertToInt(tokens[2]) else 1;
      var month := if |tokens| >= 4 then ConvertToInt(tokens[3]) else 1;
      var year := if |tokens| >= 5 then ConvertToInt(tokens[4]) else 1970;
      if minute < 0 || minute > 59 then Error(BadMinute)
      else if hour < 0 || hour > 23 then Error(BadHour)
      else if day < 1 || day > 31 then Error(BadDay)
      else if month < 1 || month > 12 then Error(BadMonth)
      else if year < 1970 then Error(BadYear)
      else
        Ok(Fields(minute, hour,
                  if |tokens| >= 3 then Some(day) else None,
                  if |tokens| >= 4 then Some(month) else None,
                  if |tokens| >= 5 then Some(year) else None))
  }

  /** Fields in range, given from the minute up without a gap. */
  predicate Proper(f: Fields) {
    && f.minute < 60 && f.hour < 24
    && (f.day.Some? ==> 1 <= f.day.value <= 31)
    && (f.month.Some? ==> f.day.Some? && 1 <= f.month.value <= 12)
    && (f.year.Some? ==> f.month.Some? && f.year.value >= 1970)
  }

  // ---- Choosing the fields left out ----------------------------------------------------

  predicate EarlierInDay(f: Fields, now: Civil) {
    f.hour < now.hour || (f.hour == now.hour && f.minute < now.minute)
  }

  predicate EarlierInMonth(f: Fields, now: Civil)
    requires f.day.Some?
  {
    f.day.value < now.day || (f.day.value == now.day && EarlierInDay(f, now))
  }

  predicate EarlierInYear(f: Fields, now: Civil)
    requires f.day.Some? && f.month.Some? && f.month.value >= 1
  {
    f.month.value - 1 < now.month || (f.month.value - 1 == now.month && EarlierInMonth(f, now))
  }

  /** The broken-down time handed to `mktime`. */
  function Target(f: Fields, now: Civil): Civil
    requires Proper(f)
  {
    Civil(
      if f.year.Some? then f.year.value
        else now.year + if f.month.Some? && EarlierInYear(f, now) then 1 else 0,
      if f.month.Some? then f.month.value - 1
        else now.month + if f.day.Some? && EarlierInMonth(f, now) then 1 else 0,
      if f.day.Some? then f.day.value
        else now.day + if EarlierInDay(f, now) then 1 else 0,
      f.hour, f.minute)
  }

  method ConvertDateToTime(date: string, now: Civil) returns (r: Result<int, DateError>)
    requires date == "" || date[0] != ':'
    requires Valid(now)
    ensures r == match ReadFields(Tokens(date, ':'))
                 case Ok(f) => Ok(TimeT(MkTime(Target(f, now))))
                 case Error(e) => Error(e)
  {
    var minute, hour, day, month, year := -1, -1, -1, -1, -1;
    var tokens := GetTimeTokens(date, ':');
    for i := 0 to |tokens|
      invariant forall j | 0 <= j < i :: IsNumerical(tokens[j])
    {
      if !IsNumerical(tokens[i]) {
        return Error(NotIntegers);
      }
    }
    if |tokens| < 2 {
      return Error(TooFewFields);
    }
    minute := ConvertToInt(tokens[0]);
    if minute < 0 || minute > 59 {
      return Error(BadMinute);
    }
    hour := ConvertToInt(tokens[1]);
    if hour < 0 || hour > 23 {
      return Error(BadHour);
    }
    if |tokens| >= 3 {
      day := ConvertToInt(tokens[2]);
      if day < 1 || day > 31 {
        return Error(BadDay);
      }
    }
    if |tokens| >= 4 {
      month := ConvertToInt(tokens[3]);
      if month < 1 || month > 12 {
        return Error(BadMonth);
      }
    }
    if |tokens| >= 5 {
      year := ConvertToInt(tokens[4]);
      if year < 1970 {
        return Error(BadYear);
      }
    }

    var tmYear, tmMon, tmMday := 0, 0, 0;
    if |tokens| >= 3 {
      tmMday := day;
    } else if hour < now.hour || (hour == now.hour && minute < now.minute) {
      tmMday := now.day + 1;
    } else {
      tmMday := now.day;
    }
    if |tokens| >= 4 {
      tmMon := month - 1;
    } else if (day != -1 && day < now.day)
           || (day == now.day && hour < now.hour)
           || (day == now.day && hour == now.hour && minute < now.minute) {
      tmMon := now.month + 1;
    } else {
      tmMon := now.month;
    }
    if |tokens| >= 5 {
      tmYear := year;
    } else if (month != -1 && month - 1 < now.month)
           || (month - 1 == now.month && day < now.day)
           || (month - 1 == now.month && day == now.day && hour < now.hour)
           || (month - 1 == now.month && day == now.day && hour == now.hour && minute < now.minute) {
      tmYear := now.year + 1;
    } else {
      tmYear := now.year;
    }
    assert Target(ReadFields(tokens).value, now) == Civil(tmYear, tmMon, tmMday, hour, minute);
    return Ok(TimeT(MkTime(Civil(tmYear, tmMon, tmMday, hour, minute))));
  }

  // ---- What the choice amounts to ------------------------------------------------------

  predicate Matches(c: Civil, f: Fields) {
    && c.minute == f.minute && c.hour == f.hour
    && (f.day.Some? ==> c.day == f.day.value)
    && (f.month.Some? ==> c.month == f.month.value - 1)
    && (f.year.Some? ==> c.year == f.year.value)
  }

  /** The first instant, not before now, that matches every given field. */
  ghost predicate FirstMatch(f: Fields, now: Civil, minutes: nat)
    requires Valid(now)
  {
    && Minutes(now) <= minutes
    && (exists c: Civil :: Valid(c) && Matches(c, f) && Minutes(c) == minutes)
    && (forall c: Civil :: Valid(c) && Matches(c, f) && Minutes(now) <= Minutes(c) ==> minutes <= Minutes(c))
  }

  /** The chosen month of the chosen year has the day asked for. */
  predicate DayExists(f: Fields, now: Civil)
    requires Proper(f)
  {
    var tm := Target(f, now);
    f.day.None? || f.day.value <= DaysInMonth(tm.year + tm.month / 12, tm.month % 12)
  }

  lemma TargetInRange(f: Fields, now: Civil)
    requires Proper(f) && Valid(now)
    ensures var tm := Target(f, now);
            tm.month <= 12 && 1 <= tm.day <= 32 && tm.hour < 24 && tm.minute < 60
    ensures MkTime(Target(f, now)) == Minutes(Normal(Target(f, now)))
  {
    MkTimeNormalises(Target(f, now));
  }

  /** A date without a year is never in the past. */
  lemma NeverPast(f: Fields, now: Civil)
    requires Proper(f) && Valid(now) && f.year.None?
    ensures Minutes(now) <= MkTime(Target(f, now))
  {
    TargetInRange(f, now);
    var c := Normal(Target(f, now));
    assert !Before(c, now);
    OrderOfInstants(c, now);
  }

  /** A time of day at or after now is today's, or of a later day where today's is past. */
  lemma LaterDay(today: int, thatDay: int, f: Fields, now: Civil)
    requires f.hour < 24 && f.minute < 60 && now.hour < 24 && now.minute < 60
    requires today * 1440 + now.hour * 60 + now.minute <= thatDay * 1440 + f.hour * 60 + f.minute
    ensures today + (if EarlierInDay(f, now) then 1 else 0) <= thatDay
  {
  }

  lemma MinutesInYear(tm: Civil)
    requires tm.month < 12 && tm.day >= 1
    ensures MkTime(tm) == DayNumber(tm.year, tm.month, tm.day) * 1440 + tm.hour * 60 + tm.minute
  {
    assert tm.month / 12 == 0 && tm.month % 12 == tm.month;
  }

  lemma DaysAdd(year: nat, month: nat, day: nat, more: nat)
    requires month < 12 && day >= 1
    ensures DayNumber(year, month, day + more) == DayNumber(year, month, day) + more
  {
  }

  lemma TargetMinutes(f: Fields, now: Civil)
    requires Proper(f) && Valid(now) && f.day.None?
    ensures MkTime(Target(f, now))
         == (DayNumber(now.year, now.month, now.day) + if EarlierInDay(f, now) then 1 else 0) * 1440
            + f.hour * 60 + f.minute
  {
    MinutesInYear(Target(f, now));
    DaysAdd(now.year, now.month, now.day, if EarlierInDay(f, now) then 1 else 0);
  }

  /** With only hour and minute, any later match is on the chosen day or after it. */
  lemma NoEarlierTime(f: Fields, now: Civil, c: Civil)
    requires Proper(f) && Valid(now) && f.day.None?
    requires Valid(c) && Matches(c, f) && Minutes(now) <= Minutes(c)
    ensures MkTime(Target(f, now)) <= Minutes(c)
  {
    TargetMinutes(f, now);
    LaterDay(DayNumber(now.year, now.month, now.day), DayNumber(c.year, c.month, c.day), f, now);
  }

  /** With the day given and existing, no match lies between now and the choice. */
  lemma NoEarlierDay(f: Fields, now: Civil, c: Civil)
    requires Proper(f) && Valid(now) && f.day.Some? && f.year.None? && DayExists(f, now)
    requires Valid(c) && Matches(c, f) && Minutes(now) <= Minutes(c)
    ensures MkTime(Target(f, now)) <= Minutes(c)
  {
    TargetInRange(f, now);
    var chosen := Normal(Target(f, now));
    OrderOfInstants(c, now);
    OrderOfInstants(now, c);
    assert !Before(c, now);
    assert !Before(c, chosen);
    OrderOfInstants(c, chosen);
  }

  /** Where the day does not exist, the date rolls over and matches nothing. */
  lemma RollsOver(f: Fields, now: Civil, c: Civil)
    requires Proper(f) && Valid(now) && !DayExists(f, now)
    requires Valid(c) && Minutes(c) == MkTime(Target(f, now))
    ensures !Matches(c, f)
  {
    TargetInRange(f, now);
    var rolled := Normal(Target(f, now));
    OrderOfInstants(c, rolled);
  }

  lemma NoneEarlier(f: Fields, now: Civil, c: Civil)
    requires Proper(f) && Valid(now) && f.year.None? && DayExists(f, now)
    requires Valid(c) && Matches(c, f) && Minutes(now) <= Minutes(c)
    ensures MkTime(Target(f, now)) <= Minutes(c)
  {
    if f.day.None? { NoEarlierTime(f, now, c); } else { NoEarlierDay(f, now, c); }
  }

  lemma ChosenMatches(f: Fields, now: Civil)
    requires Proper(f) && Valid(now) && DayExists(f, now)
    ensures var c := Normal(Target(f, now)); Matches(c, f) && Minutes(c) == MkTime(Target(f, now))
  {
    TargetInRange(f, now);
  }

  /**
   A date without a year is the first matching instant from the current minute on, exactly
   when the month it falls in has the day asked for.
   */
  lemma FirstMatchIffDayExists(f: Fields, now: Civil)
    requires Proper(f) && Valid(now) && f.year.None?
    ensures FirstMatch(f, now, MkTime(Target(f, now))) <==> DayExists(f, now)
  {
    var minutes := MkTime(Target(f, now));
    NeverPast(f, now);
    TargetInRange(f, now);
    if DayExists(f, now) {
      ChosenMatches(f, now);
      forall c: Civil | Valid(c) && Matches(c, f) && Minutes(now) <= Minutes(c)
        ensures minutes <= Minutes(c)
      {
        NoneEarlier(f, now, c);
      }
    } else {
      forall c: Civil | Valid(c) && Minutes(c) == minutes ensures !Matches(c, f) {
        RollsOver(f, now, c);
      }
    }
  }

  /** Days that every month has always exist. */
  lemma ShortDaysExist(f: Fields, now: Civil)
    requires Proper(f) && Valid(now) && f.year.None? && (f.day.Some? ==> f.day.value <= 28)
    ensures FirstMatch(f, now, MkTime(Target(f, now)))
  {
    FirstMatchIffDayExists(f, now);
  }

  lemma MatchIsTarget(f: Fields, now: Civil, c: Civil)
    requires Proper(f) && f.year.Some? && Valid(c)
    ensures Matches(c, f) <==> c == Target(f, now)
    ensures c == Target(f, now) ==> DayExists(f, now)
  {
  }

  lemma NormalIfExists(f: Fields, now: Civil)
    requires Proper(f) && Valid(now) && f.year.Some? && DayExists(f, now)
    ensures Normal(Target(f, now)) == Target(f, now)
  {
    TargetInRange(f, now);
  }

  /** A date with a year is that date, past or not, where it exists. */
  lemma GivenYearIsKept(f: Fields, now: Civil, c: Civil)
    requires Proper(f) && Valid(now) && f.year.Some? && Valid(c)
    ensures Minutes(c) == MkTime(Target(f, now)) && DayExists(f, now) <==> Matches(c, f)
  {
    MatchIsTarget(f, now, c);
    if DayExists(f, now) {
      TargetInRange(f, now);
      NormalIfExists(f, now);
      OrderOfInstants(c, Normal(Target(f, now)));
    }
  }
}
