/** The proleptic Gregorian calendar in UTC, as JavaScript dates compute it. */
module CivilTime {

  const DAY_MS := 86_400_000

  predicate Leap(y: int) {
    y % 4 == 0 && (y % 100 != 0 || y % 400 == 0)
  }

  /** Months are numbered through: month m (from 0) of year y is 12 y + m. */
  function MonthIndex(y: int, m: int): int {
    12 * y + m
  }

  const EPOCH_MONTH := 23_640

  function MonthLength(k: int): int {
    var m := k % 12;
    if m == 1 then if Leap(k / 12) then 29 else 28
    else if m == 3 || m == 5 || m == 8 || m == 10 then 30
    else 31
  }

  lemma MonthLengthBounds(k: int)
    ensures 28 <= MonthLength(k) <= 31
  {}

  /** The day number of the first of a month, counted from January 1970 month by month. */
  function MonthStart(k: int): int
    decreases if k >= EPOCH_MONTH then k - EPOCH_MONTH else EPOCH_MONTH - k
  {
    if k == EPOCH_MONTH then 0
    else if k > EPOCH_MONTH then MonthStart(k - 1) + MonthLength(k - 1)
    else MonthStart(k + 1) - MonthLength(k)
  }

  /** Months follow each other without gap or overlap. */
  lemma NextMonth(k: int)
    ensures MonthStart(k + 1) == MonthStart(k) + MonthLength(k)
  {}

  /** Twelve months make a year of 365 days, or of 366 if it is a leap year. */
  lemma YearLength(y: int)
    ensures MonthStart(MonthIndex(y + 1, 0)) - MonthStart(MonthIndex(y, 0)) == if Leap(y) then 366 else 365
  {
    FirstHalf(y);
    SecondHalf(y);
  }

  lemma FirstHalf(y: int)
    ensures MonthStart(MonthIndex(y, 6)) - MonthStart(MonthIndex(y, 0)) == if Leap(y) then 182 else 181
  {
    HalfYear(MonthIndex(y, 0));
    LengthInYear(y, 0); LengthInYear(y, 1); LengthInYear(y, 2); LengthInYear(y, 3); LengthInYear(y, 4); LengthInYear(y, 5);
  }

  lemma SecondHalf(y: int)
    ensures MonthStart(MonthIndex(y + 1, 0)) - MonthStart(MonthIndex(y, 6)) == 184
  {
    HalfYear(MonthIndex(y, 6));
    LengthInYear(y, 6); LengthInYear(y, 7); LengthInYear(y, 8); LengthInYear(y, 9); LengthInYear(y, 10); LengthInYear(y, 11);
  }

  lemma LengthInYear(y: int, m: int)
    requires 0 <= m < 12
    ensures MonthLength(MonthIndex(y, m))
         == if m == 1 then if Leap(y) then 29 else 28 else if m == 3 || m == 5 || m == 8 || m == 10 then 30 else 31
  {
    assert MonthIndex(y, m) / 12 == y && MonthIndex(y, m) % 12 == m;
  }

  lemma HalfYear(k: int)
    ensures MonthStart(k + 6) == MonthStart(k) + MonthLength(k) + MonthLength(k + 1) + MonthLength(k + 2)
                                 + MonthLength(k + 3) + MonthLength(k + 4) + MonthLength(k + 5)
  {
    NextMonth(k);
    NextMonth(k + 1);
    NextMonth(k + 2);
    NextMonth(k + 3);
    NextMonth(k + 4);
    NextMonth(k + 5);
  }

  lemma {:induction false} MonthsAscend(a: int, b: int)
    requires a < b
    ensures MonthStart(a) + MonthLength(a) <= MonthStart(b)
    decreases b - a
  {
    NextMonth(a);
    MonthLengthBounds(a + 1);
    if a + 1 < b { MonthsAscend(a + 1, b); }
  }

  /** How far a guessed month is from the month of a day. */
  function Miss(day: int, k: int): nat {
    if day < MonthStart(k) then MonthStart(k) - day
    else if day >= MonthStart(k + 1) then day - MonthStart(k + 1) + 1
    else 0
  }

  lemma MonthsAround(k: int)
    ensures MonthStart(k - 1) < MonthStart(k) < MonthStart(k + 1) < MonthStart(k + 2)
  {
    NextMonth(k - 1);
    NextMonth(k);
    NextMonth(k + 1);
    MonthLengthBounds(k - 1);
    MonthLengthBounds(k);
    MonthLengthBounds(k + 1);
  }

  /** The month a day lies in, searched from a guess. */
  function Search(day: int, k: int): int
    decreases Miss(day, k)
  {
    MonthsAround(k);
    if day < MonthStart(k) then Search(day, k - 1)
    else if day >= MonthStart(k + 1) then Search(day, k + 1)
    else k
  }

  lemma {:induction false} SearchFinds(day: int, k: int)
    ensures MonthStart(Search(day, k)) <= day < MonthStart(Search(day, k) + 1)
    decreases Miss(day, k)
  {
    MonthsAround(k);
    if day < MonthStart(k) {
      SearchFinds(day, k - 1);
    } else if day >= MonthStart(k + 1) {
      SearchFinds(day, k + 1);
    }
  }

  function MonthOf(day: int): int {
    Search(day, EPOCH_MONTH)
  }

  /** The day of the month, from 1. */
  function DateOf(day: int): int {
    day - MonthStart(MonthOf(day)) + 1
  }

  /** A day lies in its month. */
  lemma DayInMonth(day: int)
    ensures 1 <= DateOf(day) <= MonthLength(MonthOf(day)) && DayFrom(MonthOf(day), DateOf(day)) == day
  {
    SearchFinds(day, EPOCH_MONTH);
    NextMonth(MonthOf(day));
  }

  /** The day number of a date; dates beyond the month run on into the months around it. */
  function DayFrom(k: int, d: int): int {
    MonthStart(k) + d - 1
  }

  /** A month and a date within it are read back from their day number. */
  lemma CivilRoundTrip(k: int, d: int)
    requires 1 <= d <= MonthLength(k)
    ensures MonthOf(DayFrom(k, d)) == k && DateOf(DayFrom(k, d)) == d
  {
    var r := MonthOf(DayFrom(k, d));
    DayInMonth(DayFrom(k, d));
    if r < k { MonthsAscend(r, k); }
    if k < r { MonthsAscend(k, r); }
  }

  /** Day 0 is the first of January 1970. */
  lemma EpochIsJanuary1970()
    ensures MonthOf(0) == 12 * 1970 && DateOf(0) == 1
  {
    CivilRoundTrip(12 * 1970, 1);
  }

  /** Leap days from 1970 to the start of a year: one in four years, but not in hundred, but in four hundred. */
  function LeapDays(y: int): int {
    (y - 1969) / 4 - (y - 1901) / 100 + (y - 1601) / 400
  }

  lemma Fours(y: int)
    ensures (y - 1968) / 4 - (y - 1969) / 4 == if y % 4 == 0 then 1 else 0
  {
    assert y - 1968 == 4 * (y / 4 - 492) + y % 4;
  }

  lemma Hundreds(y: int)
    ensures (y - 1900) / 100 - (y - 1901) / 100 == if y % 100 == 0 then 1 else 0
  {
    assert y - 1900 == 100 * (y / 100 - 19) + y % 100;
  }

  lemma FourHundreds(y: int)
    ensures (y - 1600) / 400 - (y - 1601) / 400 == if y % 400 == 0 then 1 else 0
  {
    assert y - 1600 == 400 * (y / 400 - 4) + y % 400;
  }

  lemma LeapDaysStep(y: int)
    ensures LeapDays(y + 1) - LeapDays(y) == if Leap(y) then 1 else 0
  {
    Fours(y);
    Hundreds(y);
    FourHundreds(y);
    LeapCounts(y);
  }

  lemma LeapCounts(y: int)
    ensures (if y % 4 == 0 then 1 else 0) - (if y % 100 == 0 then 1 else 0) + (if y % 400 == 0 then 1 else 0)
         == if Leap(y) then 1 else 0
  {
    FourHundredIsHundred(y);
    HundredIsFour(y);
  }

  lemma FourHundredIsHundred(y: int)
    ensures y % 400 == 0 ==> y % 100 == 0
  {
    assert y == 100 * (4 * (y / 400)) + y % 400;
  }

  lemma HundredIsFour(y: int)
    ensures y % 100 == 0 ==> y % 4 == 0
  {
    assert y == 4 * (25 * (y / 100)) + y % 100;
  }

  lemma YearAdds(y: int)
    ensures MonthStart(12 * (y + 1)) - LeapDays(y + 1) == MonthStart(12 * y) - LeapDays(y) + 365
  {
    YearLength(y);
    LeapDaysStep(y);
  }

  lemma {:induction false} YearsAdd(y: int)
    ensures MonthStart(12 * y) - LeapDays(y) == 365 * (y - 1970)
    decreases if y >= 1970 then y - 1970 else 1970 - y
  {
    if y > 1970 {
      YearsAdd(y - 1);
      YearAdds(y - 1);
    } else if y < 1970 {
      YearsAdd(y + 1);
      YearAdds(y);
    } else {
      EpochIsJanuary1970();
    }
  }

  /** The day number of the first of January of any year. */
  lemma YearStart(y: int)
    ensures MonthStart(12 * y) == 365 * (y - 1970) + (y - 1969) / 4 - (y - 1901) / 100 + (y - 1601) / 400
  {
    YearsAdd(y);
  }

  /** Days before a month in a year without a leap day. */
  const BEFORE: seq<int> := [0, 31, 59, 90, 120, 151, 181, 212, 243, 273, 304, 334]

  /** The day number of any date, written out. */
  lemma DateNumber(y: int, m: int, d: int)
    requires 1 <= m <= 12
    ensures DayFrom(12 * y + m - 1, d)
         == 365 * (y - 1970) + (y - 1969) / 4 - (y - 1901) / 100 + (y - 1601) / 400
            + BEFORE[m - 1] + (if m > 2 && y % 4 == 0 && (y % 100 != 0 || y % 400 == 0) then 1 else 0) + d - 1
  {
    YearStart(y);
    MonthInYear(y, m - 1);
  }

  lemma {:induction false} MonthInYear(y: int, m: nat)
    requires m < 12
    ensures MonthStart(12 * y + m) == MonthStart(12 * y) + BEFORE[m] + if m >= 2 && Leap(y) then 1 else 0
  {
    if m > 0 {
      MonthInYear(y, m - 1);
      NextMonth(12 * y + m - 1);
      LengthInYear(y, m - 1);
    }
  }

  /** A day number and the milliseconds into that day. */
  datatype Moment = Moment(day: int, time: int)

  function DayOf(ms: int): int { ms / DAY_MS }

  function TimeOfDay(ms: int): int { ms % DAY_MS }

  function Instant(day: int, time: int): int { day * DAY_MS + time }

  function MomentOf(ms: int): (m: Moment)
    ensures 0 <= m.time < DAY_MS
  {
    Moment(DayOf(ms), TimeOfDay(ms))
  }

  function Ms(m: Moment): int { Instant(m.day, m.time) }

  lemma MsRoundTrip(m: Moment)
    requires 0 <= m.time < DAY_MS
    ensures MomentOf(Ms(m)) == m
  {}
}
