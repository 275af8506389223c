/** How long a plan period lasts: one calendar month in UTC, clamped to the length of the month it ends in. */
module Period {
  import opened CivilTime

  const BILLING_PERIOD_MONTHS := 1
  const TRIAL_DAYS := 14

  function SmallerOf(a: int, b: int): int {
    if a <= b then a else b
  }

  /** A mutable instant, with the setters the period arithmetic uses. */
  class UtcDate {
    var time: int

    constructor (time: int)
      ensures this.time == time
    {
      this.time := time;
    }

    function Value(): Moment reads this { MomentOf(time) }

    /** Moves to another month by number, keeping the date; a date the month lacks runs on into the next. */
    method SetUTCMonth(k: int)
      modifies this
      ensures Value() == old(Value()).(day := DayFrom(k, DateOf(old(Value()).day)))
    {
      var m := Moment(DayFrom(k, DateOf(Value().day)), Value().time);
      MsRoundTrip(m);
      time := Ms(m);
    }

    /** Moves to another date of the same month; date 0 is the last day of the month before. */
    method SetUTCDate(d: int)
      modifies this
      ensures Value() == old(Value()).(day := DayFrom(MonthOf(old(Value()).day), d))
    {
      var m := Moment(DayFrom(MonthOf(Value().day), d), Value().time);
      MsRoundTrip(m);
      time := Ms(m);
    }
  }

  /** The same date one month on, or the last day of that month if it has no such date. */
  function DayAfterPeriod(day: int): int {
    var k := MonthOf(day) + BILLING_PERIOD_MONTHS;
    DayFrom(k, SmallerOf(DateOf(day), MonthLength(k)))
  }

  /** At the same time of day. */
  function PeriodEnd(start: Moment): Moment {
    start.(day := DayAfterPeriod(start.day))
  }

  method PeriodEndFrom(start: UtcDate) returns (end: UtcDate)
    ensures fresh(end) && end.Value() == PeriodEnd(start.Value())
  {
    end := new UtcDate(start.time);
    DayInMonth(end.Value().day);
    MonthLengthBounds(MonthOf(end.Value().day));
    var day := DateOf(end.Value().day);
    var k := MonthOf(end.Value().day) + BILLING_PERIOD_MONTHS;
    end.SetUTCMonth(k);
    Overflow(k, day);
    if DateOf(end.Value().day) != day {
      end.SetUTCDate(0);
    }
  }

  /** A date up to 31 stays in its month, or runs on into the next with another date. */
  lemma Overflow(k: int, date: int)
    requires 1 <= date <= 31
    ensures date <= MonthLength(k) ==> MonthOf(DayFrom(k, date)) == k && DateOf(DayFrom(k, date)) == date
    ensures date > MonthLength(k) ==>
              && MonthOf(DayFrom(k, date)) == k + 1 && DateOf(DayFrom(k, date)) != date
              && DayFrom(k + 1, 0) == DayFrom(k, MonthLength(k))
  {
    if date <= MonthLength(k) {
      CivilRoundTrip(k, date);
    } else {
      MonthLengthBounds(k);
      MonthLengthBounds(k + 1);
      NextMonth(k);
      assert DayFrom(k, date) == DayFrom(k + 1, date - MonthLength(k));
      CivilRoundTrip(k + 1, date - MonthLength(k));
    }
  }

  /** One step: the month moves by one, the date is clamped. */
  lemma PeriodParts(day: int)
    ensures var k := MonthOf(day) + 1;
            MonthOf(DayAfterPeriod(day)) == k && DateOf(DayAfterPeriod(day)) == SmallerOf(DateOf(day), MonthLength(k))
  {
    var k := MonthOf(day) + 1;
    DayInMonth(day);
    MonthLengthBounds(k);
    CivilRoundTrip(k, SmallerOf(DateOf(day), MonthLength(k)));
  }

  /** The shortest of the n months after month k. */
  function Shortest(k: int, n: nat): int {
    if n == 0 then 31 else SmallerOf(Shortest(k, n - 1), MonthLength(k + n))
  }

  function Periods(start: Moment, n: nat): Moment {
    if n == 0 then start else PeriodEnd(Periods(start, n - 1))
  }

  /**
   * n periods on: n calendar months later, at the same time of day, on the start date or, if some month on the
   * way was shorter, on that month's last date for good.
   */
  lemma {:induction false} PeriodsLand(start: Moment, n: nat)
    ensures MonthOf(Periods(start, n).day) == MonthOf(start.day) + n
    ensures DateOf(Periods(start, n).day) == SmallerOf(DateOf(start.day), Shortest(MonthOf(start.day), n))
    ensures Periods(start, n).time == start.time
  {
    if n == 0 {
      DayInMonth(start.day);
      MonthLengthBounds(MonthOf(start.day));
    } else {
      PeriodsLand(start, n - 1);
      PeriodParts(Periods(start, n - 1).day);
    }
  }

  /** Every period lasts 28 to 31 days, to the millisecond. */
  lemma PeriodLength(start: Moment)
    ensures 28 <= PeriodEnd(start).day - start.day <= 31
    ensures Ms(PeriodEnd(start)) - Ms(start) == (PeriodEnd(start).day - start.day) * DAY_MS
  {
    var k := MonthOf(start.day);
    DayInMonth(start.day);
    NextMonth(k);
    MonthLengthBounds(k);
    MonthLengthBounds(k + 1);
  }

  /** The day a period ends on lies in the month after. */
  lemma EndsInNextMonth(day: int)
    ensures var k := MonthOf(day) + 1;
            MonthStart(k) <= DayAfterPeriod(day) < MonthStart(k) + MonthLength(k)
  {
    DayInMonth(day);
    MonthLengthBounds(MonthOf(day) + 1);
  }

  /** A period that starts on a later day ends on a day no earlier. */
  lemma PeriodMonotoneOnDays(a: Moment, b: Moment)
    requires a.day <= b.day
    ensures PeriodEnd(a).day <= PeriodEnd(b).day
  {
    var j, k := MonthOf(a.day), MonthOf(b.day);
    DayInMonth(a.day);
    DayInMonth(b.day);
    if j < k {
      EndsInNextMonth(a.day);
      EndsInNextMonth(b.day);
      MonthsAscend(j + 1, k + 1);
    } else if k < j {
      MonthsAscend(k, j);
    }
  }

  /** The turn: an earlier day of one month, already past what the next month has, but at a later time of day. */
  predicate Turns(a: Moment, b: Moment) {
    && a.time > b.time && a.day < b.day && MonthOf(a.day) == MonthOf(b.day)
    && DateOf(a.day) >= MonthLength(MonthOf(a.day) + 1)
  }

  /** A later start ends no earlier exactly when the two starts do not turn. */
  lemma LaterEndsNoEarlier(a: Moment, b: Moment)
    requires 0 <= a.time < DAY_MS && 0 <= b.time < DAY_MS && Ms(a) <= Ms(b)
    ensures Ms(PeriodEnd(a)) <= Ms(PeriodEnd(b)) <==> !Turns(a, b)
  {
    PeriodMonotoneOnDays(a, b);
    SameEndDay(a.day, b.day);
  }

  /** It can happen: two dates clamped to one keep their times of day. */
  lemma NotMonotoneOnInstants(k: int, a: Moment, b: Moment)
    requires MonthLength(k) == 31 && MonthLength(k + 1) <= 30
    requires a == Moment(DayFrom(k, 30), 1) && b == Moment(DayFrom(k, 31), 0)
    ensures Ms(a) < Ms(b) && Ms(PeriodEnd(a)) > Ms(PeriodEnd(b))
  {
    CivilRoundTrip(k, 30);
    CivilRoundTrip(k, 31);
    assert Turns(a, b);
    LaterEndsNoEarlier(a, b);
  }

  /** Two days end on one day exactly when they are one, or both are clamped in one month. */
  lemma SameEndDay(a: int, b: int)
    requires a <= b
    ensures DayAfterPeriod(a) == DayAfterPeriod(b)
       <==> a == b || (MonthOf(a) == MonthOf(b) && DateOf(a) >= MonthLength(MonthOf(a) + 1))
  {
    var j, k := MonthOf(a), MonthOf(b);
    DayInMonth(a);
    DayInMonth(b);
    EndsInNextMonth(a);
    EndsInNextMonth(b);
    if j < k {
      MonthsAscend(j + 1, k + 1);
    } else if k < j {
      MonthsAscend(k, j);
    }
  }

  /** Ended once the clock has passed the UTC midnight after which the period's last day is over. */
  predicate PeriodHasEnded(end: Moment, now: Moment) {
    Ms(end) < Ms(Moment(DayFrom(MonthOf(now.day), DateOf(now.day)), 0))
  }

  /** The last day still counts as paid, all of it. */
  lemma LastDayIsPaid(end: Moment, now: Moment)
    requires 0 <= end.time < DAY_MS
    ensures PeriodHasEnded(end, now) <==> end.day < now.day
  {
    DayInMonth(now.day);
  }

  /** A trial ends fourteen days on at the same time of day, whatever months it crosses. */
  method TrialPeriod(periodStart: UtcDate) returns (periodEnd: UtcDate)
    ensures fresh(periodEnd)
    ensures periodEnd.Value() == periodStart.Value().(day := periodStart.Value().day + 14)
  {
    periodEnd := new UtcDate(periodStart.time);
    DayInMonth(periodEnd.Value().day);
    periodEnd.SetUTCDate(DateOf(periodEnd.Value().day) + TRIAL_DAYS);
  }

  /** From the last of March 2023 to the last of April, whatever the time of day. */
  lemma FromMarchToApril(start: Moment)
    requires start.day == 19_447
    ensures MonthOf(start.day) == 12 * 2023 + 2 && DateOf(start.day) == 31
    ensures PeriodEnd(start) == Moment(19_477, start.time)
    ensures MonthOf(19_477) == 12 * 2023 + 3 && DateOf(19_477) == 30
  {
    InSpring(2023);
    CivilRoundTrip(12 * 2023 + 2, 31);
    CivilRoundTrip(12 * 2023 + 3, 30);
  }

  lemma InSpring(y: int)
    requires y == 2023
    ensures DayFrom(12 * y + 2, 31) == 19_447 && MonthLength(12 * y + 2) == 31
    ensures DayFrom(12 * y + 3, 30) == 19_477 && MonthLength(12 * y + 3) == 30
  {
    assert (y - 1969) / 4 == 13 && (y - 1901) / 100 == 1 && (y - 1601) / 400 == 1;
    YearStart(y);
    MonthInYear(y, 2);
    MonthInYear(y, 3);
  }
}
