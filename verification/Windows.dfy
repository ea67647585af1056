/** config/windows.py: the bounds of a window, and the guard that never lets a window be empty or reversed.
    Instants are microseconds since midnight of 1 January of year 1. */
module Windows {
  const DAY := 86_400_000_000

  /** A bound as spelled: missing, text that is no date, a bare calendar date, or an instant with or without a
      zone (an aware one in UTC). */
  datatype Bound = Absent | Unparsed(text: string) | Date(day: int) | Instant(at: int, aware: bool)

  predicate Parses(b: Bound) { b.Date? || b.Instant? }

  /** The moment a parsed bound stands for; a bare date is its midnight. */
  function Moment(b: Bound): int
    requires Parses(b)
  {
    if b.Date? then b.day * DAY else b.at
  }

  predicate Aware(b: Bound) { b.Instant? && b.aware }

  /** Python refuses to compare a bound with a zone to one without. */
  predicate Comparable(a: Bound, b: Bound) { Parses(a) && Parses(b) && Aware(a) == Aware(b) }

  predicate Forward(start: Bound, end: Bound) { Comparable(start, end) && Moment(end) > Moment(start) }

  function Max(a: int, b: int): int { if a >= b then a else b }

  /** The start plus whole days, in the start's own spelling. */
  function Later(start: Bound, days: int): Bound
    requires Parses(start)
  {
    if start.Date? then Date(start.day + days) else Instant(start.at + days * DAY, start.aware)
  }

  function EnsureNonzeroSpan(start: Bound, end: Bound, minSpanDays: int): (Bound, Bound) {
    if !Parses(start) then (start, end)
    else if Parses(end) && !Comparable(start, end) then (start, end)
    else if Parses(end) && Moment(end) > Moment(start) then (start, end)
    else (start, Later(start, Max(1, minSpanDays)))
  }

  /** The guard keeps the start, never touches a forward span, and otherwise, for a parsed start and an end that
      is missing or comparable, puts the end exactly max(1, minSpanDays) days after the start. */
  lemma GuardMeetsSpec(start: Bound, end: Bound, minSpanDays: int)
    ensures var (s, e) := EnsureNonzeroSpan(start, end, minSpanDays);
      && s == start
      && (Forward(start, end) ==> e == end)
      && (Parses(start) && !Forward(start, end) && (!Parses(end) || Comparable(start, end)) ==>
            Comparable(s, e) && (e.Date? <==> s.Date?)
            && Moment(e) - Moment(s) == (if minSpanDays >= 1 then minSpanDays else 1) * 86_400_000_000)
  {}

  /** Guarding a guarded window changes nothing. */
  lemma GuardIdempotent(start: Bound, end: Bound, minSpanDays: int)
    ensures var (s, e) := EnsureNonzeroSpan(start, end, minSpanDays);
      EnsureNonzeroSpan(s, e, minSpanDays) == (s, e)
  {}

  /** The guarded window is forward exactly when the start parses and the end is not of the other kind. */
  lemma ForwardExactly(start: Bound, end: Bound, minSpanDays: int)
    ensures var (s, e) := EnsureNonzeroSpan(start, end, minSpanDays);
      Forward(s, e) <==> Parses(start) && (Parses(end) ==> Comparable(start, end))
  {}

  /** A bare start date with a zoned end is left as it is, even when the end lies a day before. */
  lemma MixedBoundsUntouched()
    ensures EnsureNonzeroSpan(Date(2), Instant(DAY, true), 1) == (Date(2), Instant(DAY, true))
    ensures !Forward(Date(2), Instant(DAY, true))
  {}

  // ---------------------------------------------------------------- the calendar

  predicate Leap(year: nat) { year % 4 == 0 && (year % 100 != 0 || year % 400 == 0) }

  function MonthLength(year: nat, month: nat): (n: nat)
    requires 1 <= month <= 12
    ensures 28 <= n <= 31
  {
    if month == 2 then (if Leap(year) then 29 else 28)
    else if month == 4 || month == 6 || month == 9 || month == 11 then 30
    else 31
  }

  function Next(year: nat, month: nat): (nat, nat)
    requires 1 <= month <= 12
  {
    if month == 12 then (year + 1, 1) else (year, month + 1)
  }

  /** The month a day falls in, counting from the first day of the given month, and the day within it (0 for
      the 1st). */
  function MonthFrom(year: nat, month: nat, days: nat): (r: (nat, nat, nat))
    requires 1 <= month <= 12
    ensures 1 <= r.1 <= 12 && r.2 < MonthLength(r.0, r.1) && r.2 <= days
    decreases days
  {
    if days < MonthLength(year, month) then (year, month, days)
    else var (y, m) := Next(year, month); MonthFrom(y, m, days - MonthLength(year, month))
  }

  /** Year, month and day-of-month (from 0) of a day counted from 1 January of year 1. */
  function Civil(day: nat): (r: (nat, nat, nat)) 
    ensures 1 <= r.1 <= 12 && r.2 < MonthLength(r.0, r.1) && r.2 <= day
  {
    MonthFrom(1, 1, day)
  }

  /** The Gregorian months. */
  lemma MonthLengths(year: nat, month: nat)
    requires 1 <= month <= 12
    ensures MonthLength(year, month) ==
      if month in {4, 6, 9, 11} then 30
      else if month != 2 then 31
      else if year % 400 == 0 || (year % 4 == 0 && year % 100 != 0) then 29 else 28
  {}

  /** The day after a date: the next of the month, else the 1st of the next month, of the next year after December. */
  lemma {:induction false} NextDay(year: nat, month: nat, days: nat)
    requires 1 <= month <= 12
    ensures var (y, m, d) := MonthFrom(year, month, days);
      MonthFrom(year, month, days + 1) ==
        if d + 1 < MonthLength(y, m) then (y, m, d + 1) else if m < 12 then (y, m + 1, 0) else (y + 1, 1, 0)
    decreases days
  {
    if days >= MonthLength(year, month) {
      var (y, m) := Next(year, month);
      NextDay(y, m, days - MonthLength(year, month));
    }
  }

  /** The calendar counts on, day by day, from 1 January of year 1. */
  lemma CivilCounts(day: nat)
    ensures Civil(0) == (1, 1, 0)
    ensures var (y, m, d) := Civil(day);
      Civil(day + 1) == if d + 1 < MonthLength(y, m) then (y, m, d + 1) else if m < 12 then (y, m + 1, 0) else (y + 1, 1, 0)
  {
    NextDay(1, 1, day);
  }

  /** Monday is 0; 1 January of year 1 was a Monday. */
  function Weekday(day: nat): nat { day % 7 }

  /** Stepping back to the 1st stays in the same month. */
  lemma {:induction false} FirstOfMonth(year: nat, month: nat, days: nat)
    requires 1 <= month <= 12
    ensures var (y, m, d) := MonthFrom(year, month, days); MonthFrom(year, month, days - d) == (y, m, 0)
    decreases days
  {
    if days >= MonthLength(year, month) {
      var (y, m) := Next(year, month);
      FirstOfMonth(y, m, days - MonthLength(year, month));
    }
  }
}
