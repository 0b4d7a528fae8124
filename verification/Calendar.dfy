/**
 Civil time in UTC on the proleptic Gregorian calendar, in minutes, and `mktime`, which
 brings fields out of range back into it (C11, section 7.27.2.3). Months run from 0, as in
 the `tm` structure.
 */
module Calendar {

  datatype Civil = Civil(year: nat, month: nat, day: nat, hour: nat, minute: nat)

  predicate Leap(year: nat) {
    year % 4 == 0 && (year % 100 != 0 || year % 400 == 0)
  }

  function DaysInMonth(year: nat, month: nat): (d: nat)
    requires month < 12
    ensures 28 <= d <= 31
  {
    if month == 1 then if Leap(year) then 29 else 28
    else if month in {3, 5, 8, 10} then 30 else 31
  }

  /** Days of the year before the month; for month 12, all of them. */
  function DaysBeforeMonth(year: nat, month: nat): nat
    requires month <= 12
  {
    if month == 0 then 0 else DaysBeforeMonth(year, month - 1) + DaysInMonth(year, month - 1)
  }

  function DaysBeforeYear(year: nat): nat {
    if year == 0 then 0 else DaysBeforeYear(year - 1) + DaysBeforeMonth(year - 1, 12)
  }

  predicate Valid(c: Civil) {
    c.month < 12 && 1 <= c.day <= DaysInMonth(c.year, c.month) && c.hour < 24 && c.minute < 60
  }

  function DayNumber(year: nat, month: nat, day: nat): nat
    requires month < 12 && day >= 1
  {
    DaysBeforeYear(year) + DaysBeforeMonth(year, month) + day - 1
  }

  function Minutes(c: Civil): nat
    requires Valid(c)
  {
    DayNumber(c.year, c.month, c.day) * 1440 + c.hour * 60 + c.minute
  }

  /** `mktime` for fields whose month may run into the next year, and day past its month. */
  function MkTime(tm: Civil): nat
    requires tm.day >= 1
  {
    DayNumber(tm.year + tm.month / 12, tm.month % 12, tm.day) * 1440 + tm.hour * 60 + tm.minute
  }

  /** Seconds since the Epoch. */
  function TimeT(minutes: nat): int {
    60 * (minutes - DayNumber(1970, 0, 1) * 1440)
  }

  // ---- The order of instants is the order of their fields ------------------------------

  predicate DayBefore(a: Civil, b: Civil) {
    a.year < b.year || (a.year == b.year && (a.month < b.month || (a.month == b.month && a.day < b.day)))
  }

  predicate SameDay(a: Civil, b: Civil) {
    a.year == b.year && a.month == b.month && a.day == b.day
  }

  predicate Before(a: Civil, b: Civil) {
    DayBefore(a, b) || (SameDay(a, b) && (a.hour < b.hour || (a.hour == b.hour && a.minute < b.minute)))
  }

  lemma {:induction false} MonthsAdvance(year: nat, a: nat, b: nat)
    requires a < b <= 12
    ensures DaysBeforeMonth(year, a) + DaysInMonth(year, a) <= DaysBeforeMonth(year, b)
  {
    if a + 1 < b { MonthsAdvance(year, a, b - 1); }
  }

  lemma {:induction false} YearsAdvance(a: nat, b: nat)
    requires a < b
    ensures DaysBeforeYear(a) + DaysBeforeMonth(a, 12) <= DaysBeforeYear(b)
  {
    if a + 1 < b { YearsAdvance(a, b - 1); }
  }

  lemma DaysAdvance(a: Civil, b: Civil)
    requires Valid(a) && Valid(b) && DayBefore(a, b)
    ensures DayNumber(a.year, a.month, a.day) < DayNumber(b.year, b.month, b.day)
  {
    if a.year < b.year {
      YearsAdvance(a.year, b.year);
      MonthsAdvance(a.year, a.month, 12);
    } else if a.month < b.month {
      MonthsAdvance(a.year, a.month, b.month);
    }
  }

  lemma MinutesAdvance(a: Civil, b: Civil)
    requires Valid(a) && Valid(b) && Before(a, b)
    ensures Minutes(a) < Minutes(b)
  {
    if DayBefore(a, b) { DaysAdvance(a, b); }
  }

  /** Two valid times compare as their instants do, and no two share an instant. */
  lemma OrderOfInstants(a: Civil, b: Civil)
    requires Valid(a) && Valid(b)
    ensures Minutes(a) < Minutes(b) <==> Before(a, b)
    ensures Minutes(a) == Minutes(b) <==> a == b
  {
    if Before(a, b) {
      MinutesAdvance(a, b);
    } else if Before(b, a) {
      MinutesAdvance(b, a);
    }
  }

  function NextMonth(c: Civil): Civil {
    if c.month == 11 then c.(year := c.year + 1, month := 0) else c.(month := c.month + 1)
  }

  /** The day after the last of a month is the first of the next. */
  lemma MonthCarry(year: nat, month: nat)
    requires month < 12
    ensures var n := NextMonth(Civil(year, month, 1, 0, 0));
            DayNumber(year, month, 1) + DaysInMonth(year, month) == DayNumber(n.year, n.month, 1)
  {
  }

  /** The valid time that `mktime` makes of a day up to 31 in a month up to 12. */
  function Normal(tm: Civil): (c: Civil)
    requires tm.month <= 12 && 1 <= tm.day <= 32 && tm.hour < 24 && tm.minute < 60
    ensures Valid(c)
  {
    var year, month := tm.year + tm.month / 12, tm.month % 12;
    if tm.day <= DaysInMonth(year, month) then tm.(year := year, month := month)
    else NextMonth(tm.(year := year, month := month)).(day := tm.day - DaysInMonth(year, month))
  }

  lemma SameDayNumber(year: nat, month: nat, day: nat)
    requires month < 12 && DaysInMonth(year, month) < day
    ensures var n := NextMonth(Civil(year, month, 1, 0, 0));
            DayNumber(year, month, day) == DayNumber(n.year, n.month, day - DaysInMonth(year, month))
  {
    MonthCarry(year, month);
  }

  lemma NormalDay(tm: Civil)
    requires tm.month <= 12 && 1 <= tm.day <= 32 && tm.hour < 24 && tm.minute < 60
    ensures var c := Normal(tm);
            && DayNumber(c.year, c.month, c.day) == DayNumber(tm.year + tm.month / 12, tm.month % 12, tm.day)
            && c.hour == tm.hour && c.minute == tm.minute
  {
    var year, month := tm.year + tm.month / 12, tm.month % 12;
    if tm.day > DaysInMonth(year, month) {
      SameDayNumber(year, month, tm.day);
    }
  }

  lemma MkTimeNormalises(tm: Civil)
    requires tm.month <= 12 && 1 <= tm.day <= 32 && tm.hour < 24 && tm.minute < 60
    ensures MkTime(tm) == Minutes(Normal(tm))
  {
    NormalDay(tm);
  }
}
