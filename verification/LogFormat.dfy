/** The stamp and the level of a log line, written and read back. */
module LogFormat {
  import opened Prelude
  import opened CivilTime
  import opened Decimal

  // ----- Levels -----

  const LEVEL_NAMES: seq<(nat, string)> :=
    [(10, "TRACE"), (20, "DEBUG"), (30, "INFO"), (40, "WARN"), (50, "ERROR"), (60, "FATAL")]

  function NameIn(names: seq<(nat, string)>, level: nat): Option<string> {
    if names == [] then None
    else if names[0].0 == level then Some(names[0].1)
    else NameIn(names[1..], level)
  }

  function LevelIn(names: seq<(nat, string)>, name: string): Option<nat> {
    if names == [] then None
    else if names[0].1 == name then Some(names[0].0)
    else LevelIn(names[1..], name)
  }

  /** An unknown level keeps its digits. */
  function LevelName(level: nat): string {
    var known := NameIn(LEVEL_NAMES, level);
    if known.Some? then known.value else "L" + Print(level)
  }

  function LevelFromName(name: string): Option<nat> {
    var known := LevelIn(LEVEL_NAMES, name);
    if known.Some? then known
    else if |name| > 1 && name[0] == 'L' && AllDigits(name[1..]) then Some(Parse(name[1..]))
    else None
  }

  /** Names and levels of the table are told apart, and no name looks like a numbered level. */
  ghost predicate Sound(names: seq<(nat, string)>) {
    && (forall i, j :: 0 <= i < j < |names| ==> names[i].0 != names[j].0 && names[i].1 != names[j].1)
    && (forall i :: 0 <= i < |names| ==> names[i].1 != "" && names[i].1[0] != 'L')
  }

  lemma {:induction false} TableReadsBack(names: seq<(nat, string)>, level: nat)
    requires Sound(names)
    ensures NameIn(names, level).Some? ==> LevelIn(names, NameIn(names, level).value) == Some(level)
    ensures NameIn(names, level).Some? ==> exists i :: 0 <= i < |names| && names[i].1 == NameIn(names, level).value
    ensures forall s: string :: s != "" && s[0] == 'L' ==> LevelIn(names, s) == None
  {
    if names != [] {
      assert Sound(names[1..]);
      TableReadsBack(names[1..], level);
    }
  }

  lemma LevelsSound()
    ensures Sound(LEVEL_NAMES)
  {
    var n := LEVEL_NAMES;
    assert n[0].1 == "TRACE" && n[1].1 == "DEBUG" && n[2].1 == "INFO" && n[3].1 == "WARN" && n[4].1 == "ERROR" && n[5].1 == "FATAL";
    assert n[0].1[0] == 'T' && n[1].1[0] == 'D' && n[2].1[0] == 'I' && n[3].1[0] == 'W' && n[4].1[0] == 'E' && n[5].1[0] == 'F';
  }

  /** Every level is read back from its name. */
  lemma LevelRoundTrip(level: nat)
    ensures LevelFromName(LevelName(level)) == Some(level)
  {
    LevelsSound();
    TableReadsBack(LEVEL_NAMES, level);
    if NameIn(LEVEL_NAMES, level) == None {
      var name := "L" + Print(level);
      assert name[1..] == Print(level);
      ParsePrint(level);
    }
  }

  /** The names of the six known levels. */
  lemma LevelNamesAre(level: nat)
    ensures LevelName(level)
         == if level == 10 then "TRACE" else if level == 20 then "DEBUG" else if level == 30 then "INFO"
            else if level == 40 then "WARN" else if level == 50 then "ERROR" else if level == 60 then "FATAL"
            else "L" + Print(level)
  {
    SixNames(LEVEL_NAMES, level);
  }

  lemma SixNames(names: seq<(nat, string)>, level: nat)
    requires |names| == 6
    ensures NameIn(names, level)
         == if level == names[0].0 then Some(names[0].1) else if level == names[1].0 then Some(names[1].1)
            else if level == names[2].0 then Some(names[2].1) else if level == names[3].0 then Some(names[3].1)
            else if level == names[4].0 then Some(names[4].1) else if level == names[5].0 then Some(names[5].1)
            else None
  {
    assert names[1..][1..] == names[2..] && names[2..][1..] == names[3..] && names[3..][1..] == names[4..];
    assert names[4..][1..] == names[5..] && names[5..][1..] == [];
    assert NameIn(names[5..], level) == if level == names[5].0 then Some(names[5].1) else None;
    assert NameIn(names[4..], level) == if level == names[4].0 then Some(names[4].1) else NameIn(names[5..], level);
    assert NameIn(names[3..], level) == if level == names[3].0 then Some(names[3].1) else NameIn(names[4..], level);
    assert NameIn(names[2..], level) == if level == names[2].0 then Some(names[2].1) else NameIn(names[3..], level);
    assert NameIn(names[1..], level) == if level == names[1].0 then Some(names[1].1) else NameIn(names[2..], level);
  }

  lemma {:induction false} LevelInNames(names: seq<(nat, string)>, name: string)
    ensures LevelIn(names, name).Some? <==> exists i :: 0 <= i < |names| && names[i].1 == name
  {
    if names != [] {
      LevelInNames(names[1..], name);
      assert forall i :: 1 <= i < |names| ==> names[i] == names[1..][i - 1];
    }
  }

  /** A level is read from its six names, and from an L with at least one digit and nothing else behind it. */
  lemma LevelsReadAre(name: string)
    ensures LevelFromName(name).Some?
       <==> name in {"TRACE", "DEBUG", "INFO", "WARN", "ERROR", "FATAL"} || (|name| >= 2 && name[0] == 'L' && AllDigits(name[1..]))
  {
    LevelInNames(LEVEL_NAMES, name);
    KnownNames(LEVEL_NAMES, name);
  }

  lemma KnownNames(names: seq<(nat, string)>, name: string)
    requires names == LEVEL_NAMES
    ensures (exists i :: 0 <= i < |names| && names[i].1 == name) <==> name in {"TRACE", "DEBUG", "INFO", "WARN", "ERROR", "FATAL"}
  {
    assert names[0].1 == "TRACE" && names[1].1 == "DEBUG" && names[2].1 == "INFO";
    assert names[3].1 == "WARN" && names[4].1 == "ERROR" && names[5].1 == "FATAL";
    if i :| 0 <= i < |names| && names[i].1 == name {
      assert i == 0 || i == 1 || i == 2 || i == 3 || i == 4 || i == 5;
    }
  }

  // ----- Stamps -----

  function Two(n: nat): string {
    Pad(Print(n), 2)
  }

  /** The parts of a local time with its offset from UTC. */
  datatype Clock = Clock(year: nat, month: nat, date: nat, hour: nat, minute: nat, second: nat, east: bool, offset: nat)

  function Shape(c: Clock): string {
    Print(c.year) + "-" + Two(c.month) + "-" + Two(c.date) + " "
    + Two(c.hour) + ":" + Two(c.minute) + ":" + Two(c.second)
    + " UTC" + (if c.east then "+" else "-") + Two(c.offset / 60) + ":" + Two(c.offset % 60)
  }

  /** The clock on the wall, `offset` minutes ahead of UTC. */
  function LocalClock(ms: int, offset: int): Clock
    requires MonthOf(DayOf(ms + offset * 60_000)) >= 0
  {
    var local := ms + offset * 60_000;
    var k, t := MonthOf(DayOf(local)), TimeOfDay(local);
    DayInMonth(DayOf(local));
    Clock(k / 12, k % 12 + 1, DateOf(DayOf(local)), t / 3_600_000, t / 60_000 % 60, t / 1000 % 60,
          offset >= 0, if offset >= 0 then offset else -offset)
  }

  function LocalStamp(ms: int, offset: int): string
    requires MonthOf(DayOf(ms + offset * 60_000)) >= 0
  {
    Shape(LocalClock(ms, offset))
  }

  /** Digits everywhere a digit belongs, and the punctuation in between. */
  predicate Matches(s: string) {
    && |s| == 29
    && AllDigits(s[0..4]) && s[4] == '-' && AllDigits(s[5..7]) && s[7] == '-' && AllDigits(s[8..10]) && s[10] == ' '
    && AllDigits(s[11..13]) && s[13] == ':' && AllDigits(s[14..16]) && s[16] == ':' && AllDigits(s[17..19])
    && s[19..23] == " UTC" && (s[23] == '+' || s[23] == '-')
    && AllDigits(s[24..26]) && s[26] == ':' && AllDigits(s[27..29])
  }

  function Fields(s: string): Clock
    requires Matches(s)
  {
    Clock(Parse(s[0..4]), Parse(s[5..7]), Parse(s[8..10]), Parse(s[11..13]), Parse(s[14..16]), Parse(s[17..19]),
          s[23] == '+', 60 * Parse(s[24..26]) + Parse(s[27..29]))
  }

  /** The values a date-time string may carry (section 21.4.1.32 of ECMA-262). */
  predicate InRange(c: Clock) {
    && 1 <= c.month <= 12 && 1 <= c.date <= MonthLength(MonthIndex(c.year, c.month - 1))
    && (c.hour < 24 || (c.hour == 24 && c.minute == 0 && c.second == 0)) && c.minute < 60 && c.second < 60
    && c.offset < 24 * 60
  }

  function InstantOf(c: Clock): int
    requires InRange(c)
  {
    var local := Instant(DayFrom(MonthIndex(c.year, c.month - 1), c.date),
                         c.hour * 3_600_000 + c.minute * 60_000 + c.second * 1000);
    if c.east then local - c.offset * 60_000 else local + c.offset * 60_000
  }

  /** The instant a stamp names, if it is one. */
  function ParseStamp(s: string): Option<int> {
    if !Matches(s) || !InRange(Fields(s)) then None else Some(InstantOf(Fields(s)))
  }

  lemma TwoDigits(n: nat)
    requires n < 100
    ensures |Two(n)| == 2 && AllDigits(Two(n)) && Parse(Two(n)) == n
  {
    assert Pow10(2) == 100 by { assert Pow10(1) == 10; }
    PaddedField(n, 2);
  }

  lemma FourDigits(n: nat)
    requires 1000 <= n <= 9999
    ensures |Print(n)| == 4 && Parse(Print(n)) == n
  {
    ParsePrint(n);
    assert |Print(n / 1000)| == 1;
    assert n / 10 / 10 / 10 == n / 1000;
    assert |Print(n / 10 / 10)| == 2;
    assert |Print(n / 10)| == 3;
  }

  /** A clock with four-digit year and two-digit parts is read back from its shape. */
  lemma ShapeReadsBack(c: Clock)
    requires 1000 <= c.year <= 9999 && c.month < 100 && c.date < 100 && c.hour < 100 && c.minute < 100 && c.second < 100
    requires c.offset < 6000
    ensures Matches(Shape(c)) && Fields(Shape(c)) == c
  {
    FourDigits(c.year);
    TwoDigits(c.month);
    TwoDigits(c.date);
    TwoDigits(c.hour);
    TwoDigits(c.minute);
    TwoDigits(c.second);
    TwoDigits(c.offset / 60);
    TwoDigits(c.offset % 60);
    ShapeSlices(Print(c.year), Two(c.month), Two(c.date), Two(c.hour), Two(c.minute), Two(c.second),
                if c.east then "+" else "-", Two(c.offset / 60), Two(c.offset % 60));
  }

  lemma ShapeSlices(y: string, m: string, d: string, h: string, i: string, s: string, sign: string, oh: string, om: string)
    requires |y| == 4 && |m| == |d| == |h| == |i| == |s| == |oh| == |om| == 2 && |sign| == 1
    ensures var r := y + "-" + m + "-" + d + " " + h + ":" + i + ":" + s + " UTC" + sign + oh + ":" + om;
            && |r| == 29 && r[0..4] == y && r[4] == '-' && r[5..7] == m && r[7] == '-' && r[8..10] == d && r[10] == ' '
            && r[11..13] == h && r[13] == ':' && r[14..16] == i && r[16] == ':' && r[17..19] == s
            && r[19..23] == " UTC" && r[23] == sign[0] && r[24..26] == oh && r[26] == ':' && r[27..29] == om
  {}

  /** A text of the form of a stamp, from its parts. */
  predicate Joins(s: string, y: string, m: string, d: string, h: string, i: string, sec: string, sign: string, oh: string, om: string) {
    && |y| == 4 && |m| == |d| == |h| == |i| == |sec| == |oh| == |om| == 2
    && AllDigits(y + m + d + h + i + sec + oh + om) && sign in {"+", "-"}
    && s == y + "-" + m + "-" + d + " " + h + ":" + i + ":" + sec + " UTC" + sign + oh + ":" + om
  }

  lemma DigitsApart(a: string, b: string)
    ensures AllDigits(a + b) <==> AllDigits(a) && AllDigits(b)
  {
    if AllDigits(a + b) {
      assert forall k :: 0 <= k < |a| ==> a[k] == (a + b)[k];
      assert forall k :: 0 <= k < |b| ==> b[k] == (a + b)[|a| + k];
    }
  }

  lemma EightApart(y: string, m: string, d: string, h: string, i: string, sec: string, oh: string, om: string)
    ensures AllDigits(y + m + d + h + i + sec + oh + om)
       <==> && AllDigits(y) && AllDigits(m) && AllDigits(d) && AllDigits(h) && AllDigits(i) && AllDigits(sec)
            && AllDigits(oh) && AllDigits(om)
  {
    DigitsApart(y, m);
    DigitsApart(y + m, d);
    DigitsApart(y + m + d, h);
    DigitsApart(y + m + d + h, i);
    DigitsApart(y + m + d + h + i, sec);
    DigitsApart(y + m + d + h + i + sec, oh);
    DigitsApart(y + m + d + h + i + sec + oh, om);
  }

  /** Exactly the texts of that form are looked at. */
  lemma MatchesAre(s: string)
    ensures Matches(s) <==> exists y, m, d, h, i, sec, sign, oh, om :: Joins(s, y, m, d, h, i, sec, sign, oh, om)
  {
    if Matches(s) {
      var y, m, d, h, i, sec, sign, oh, om := s[0..4], s[5..7], s[8..10], s[11..13], s[14..16], s[17..19], s[23..24], s[24..26], s[27..29];
      EightApart(y, m, d, h, i, sec, oh, om);
      assert s == y + "-" + m + "-" + d + " " + h + ":" + i + ":" + sec + " UTC" + sign + oh + ":" + om by { Rejoined(s); }
      assert sign == [s[23]];
      assert Joins(s, y, m, d, h, i, sec, sign, oh, om);
    }
    if y, m, d, h, i, sec, sign, oh, om :| Joins(s, y, m, d, h, i, sec, sign, oh, om) {
      ShapeSlices(y, m, d, h, i, sec, sign, oh, om);
      EightApart(y, m, d, h, i, sec, oh, om);
    }
  }

  lemma Rejoined(s: string)
    requires |s| == 29 && s[4] == '-' && s[7] == '-' && s[10] == ' ' && s[13] == ':' && s[16] == ':'
    requires s[19..23] == " UTC" && s[26] == ':'
    ensures s == s[0..4] + "-" + s[5..7] + "-" + s[8..10] + " " + s[11..13] + ":" + s[14..16] + ":" + s[17..19] + " UTC" + s[23..24]
                 + s[24..26] + ":" + s[27..29]
  {}

  lemma TimeParts(t: int)
    requires 0 <= t < DAY_MS
    ensures 0 <= t / 3_600_000 < 24
    ensures t / 3_600_000 * 3_600_000 + t / 60_000 % 60 * 60_000 + t / 1000 % 60 * 1000 == t / 1000 * 1000
  {
    var s := t / 1000;
    assert t / 60_000 == s / 60 && t / 3_600_000 == s / 60 / 60;
  }

  /** What the clock on the wall showed, to the second. */
  function WholeSecond(ms: int, offset: int): int {
    var local := ms + offset * 60_000;
    Instant(DayOf(local), TimeOfDay(local) / 1000 * 1000) - offset * 60_000
  }

  /** The clock on the wall stands for its instant, without the milliseconds. */
  lemma ClockReadsBack(ms: int, offset: int)
    requires -24 * 60 < offset < 24 * 60
    requires 12 * 1000 <= MonthOf(DayOf(ms + offset * 60_000)) < 12 * 10_000
    ensures var c := LocalClock(ms, offset); 1000 <= c.year <= 9999 && InRange(c) && InstantOf(c) == WholeSecond(ms, offset)
  {
    var local := ms + offset * 60_000;
    var c, k := LocalClock(ms, offset), MonthOf(DayOf(local));
    TimeParts(TimeOfDay(local));
    DayInMonth(DayOf(local));
    assert MonthIndex(c.year, c.month - 1) == k;
    assert DayFrom(k, c.date) == DayOf(local);
  }

  lemma ClockIsShort(ms: int, offset: int)
    requires MonthOf(DayOf(ms + offset * 60_000)) >= 0
    ensures LocalClock(ms, offset).date <= 31
  {
    DayInMonth(DayOf(ms + offset * 60_000));
    MonthLengthBounds(MonthOf(DayOf(ms + offset * 60_000)));
  }

  lemma ShapeParses(c: Clock)
    requires InRange(c) && 1000 <= c.year <= 9999 && c.date < 100
    ensures ParseStamp(Shape(c)) == Some(InstantOf(c))
  {
    ShapeReadsBack(c);
  }

  lemma StampParses(ms: int, offset: int)
    requires -24 * 60 < offset < 24 * 60
    requires 12 * 1000 <= MonthOf(DayOf(ms + offset * 60_000)) < 12 * 10_000
    ensures ParseStamp(LocalStamp(ms, offset)) == Some(WholeSecond(ms, offset))
  {
    ClockReadsBack(ms, offset);
    ClockIsShort(ms, offset);
    ShapeParses(LocalClock(ms, offset));
  }

  /** A stamp is read back as its instant, rounded down to the second. */
  lemma StampRoundTrip(ms: int, offset: int)
    requires -24 * 60 < offset < 24 * 60
    requires 12 * 1000 <= MonthOf(DayOf(ms + offset * 60_000)) < 12 * 10_000
    ensures ParseStamp(LocalStamp(ms, offset)) == Some(ms / 1000 * 1000)
  {
    StampParses(ms, offset);
    SecondsRoundDown(ms, offset);
  }

  lemma SecondsRoundDown(ms: int, offset: int)
    ensures WholeSecond(ms, offset) == ms / 1000 * 1000
  {
    var local := ms + offset * 60_000;
    assert local / 1000 == ms / 1000 + offset * 60;
    assert local / 1000 == DayOf(local) * 86_400 + TimeOfDay(local) / 1000;
  }

  function OffsetOf(c: Clock): int { if c.east then c.offset as int else -(c.offset as int) }

  /** Some instant shows this clock somewhere less than a day away from UTC. */
  ghost predicate Shown(c: Clock) {
    exists ms, offset :: -1440 < offset < 1440 && MonthOf(DayOf(ms + offset * 60_000)) >= 0 && LocalClock(ms, offset) == c
  }

  /** The instant of a clock shows that clock. */
  lemma InstantShows(c: Clock)
    requires InRange(c) && c.hour < 24 && (c.east || c.offset > 0)
    ensures MonthOf(DayOf(InstantOf(c) + OffsetOf(c) * 60_000)) >= 0
    ensures LocalClock(InstantOf(c), OffsetOf(c)) == c
  {
    var ms: nat := 0;
    ClockShows(c.year, c.month, c.date, c.hour, c.minute, c.second, ms, OffsetOf(c));
    var day := DayFrom(12 * c.year + c.month - 1, c.date);
    assert InstantOf(c) == ((day * 24 + c.hour) * 60 + c.minute) * 60_000 + c.second * 1000 + ms - OffsetOf(c) * 60_000;
  }

  /** The clocks that are read are exactly those that instants show, and midnight written as the end of a day. */
  lemma RangeIsWhatIsShown(c: Clock)
    requires c.east || c.offset > 0
    ensures c.hour < 24 ==> (InRange(c) <==> Shown(c))
    ensures c.hour >= 24 ==> (InRange(c) <==> c.hour == 24 && c.minute == 0 && c.second == 0 && InRange(c.(hour := 0)))
  {
    if c.hour < 24 && InRange(c) { InstantShows(c); }
    if ms, offset :| -1440 < offset < 1440 && MonthOf(DayOf(ms + offset * 60_000)) >= 0 && LocalClock(ms, offset) == c {
      ShownIsInRange(ms, offset);
    }
  }

  lemma ShownIsInRange(ms: int, offset: int)
    requires -1440 < offset < 1440 && MonthOf(DayOf(ms + offset * 60_000)) >= 0
    ensures InRange(LocalClock(ms, offset)) && LocalClock(ms, offset).hour < 24
  {
    var day := DayOf(ms + offset * 60_000);
    DayInMonth(day);
    TimeParts(TimeOfDay(ms + offset * 60_000));
    assert MonthIndex(MonthOf(day) / 12, MonthOf(day) % 12) == MonthOf(day);
  }

  /** The end of a day is the start of the next. */
  lemma EndOfDay(c: Clock)
    requires InRange(c) && c.hour == 24
    ensures InstantOf(c) == InstantOf(c.(hour := 0)) + 86_400_000
  {}

  /** A stamp shows the local date and time of its instant, with the offset; instants count milliseconds from 1970. */
  lemma StampShows(y: nat, m: nat, d: nat, hour: nat, minute: nat, second: nat, ms: nat, offset: int)
    requires 1 <= m <= 12 && 1 <= d <= MonthLength(12 * y + m - 1)
    requires hour < 24 && minute < 60 && second < 60 && ms < 1000
    ensures var local := ((DayFrom(12 * y + m - 1, d) * 24 + hour) * 60 + minute) * 60_000 + second * 1000 + ms;
            var utc := local - offset * 60_000;
            var away := if offset < 0 then -offset else offset;
            && MonthOf(DayOf(utc + offset * 60_000)) >= 0
            && LocalStamp(utc, offset)
            == Print(y) + "-" + Two(m) + "-" + Two(d) + " " + Two(hour) + ":" + Two(minute) + ":" + Two(second)
               + " UTC" + (if offset < 0 then "-" else "+") + Two(away / 60) + ":" + Two(away % 60)
  {
    var away := if offset < 0 then -offset else offset;
    ClockShows(y, m, d, hour, minute, second, ms, offset);
    ShapeShows(Clock(y, m, d, hour, minute, second, offset >= 0, away));
  }

  lemma ShapeShows(c: Clock)
    ensures Shape(c)
         == Print(c.year) + "-" + Two(c.month) + "-" + Two(c.date) + " " + Two(c.hour) + ":" + Two(c.minute) + ":" + Two(c.second)
            + " UTC" + (if c.east then "+" else "-") + Two(c.offset / 60) + ":" + Two(c.offset % 60)
  {}

  lemma ClockShows(y: nat, m: nat, d: nat, hour: nat, minute: nat, second: nat, ms: nat, offset: int)
    requires 1 <= m <= 12 && 1 <= d <= MonthLength(12 * y + m - 1)
    requires hour < 24 && minute < 60 && second < 60 && ms < 1000
    ensures var utc := ((DayFrom(12 * y + m - 1, d) * 24 + hour) * 60 + minute) * 60_000 + second * 1000 + ms - offset * 60_000;
            && MonthOf(DayOf(utc + offset * 60_000)) >= 0
            && LocalClock(utc, offset)
            == Clock(y, m, d, hour, minute, second, offset >= 0, if offset < 0 then -offset else offset)
  {
    var k := 12 * y + m - 1;
    var day := DayFrom(k, d);
    var time := (hour * 60 + minute) * 60_000 + second * 1000 + ms;
    var local := ((day * 24 + hour) * 60 + minute) * 60_000 + second * 1000 + ms;
    DayAndTime(day, time, local);
    CivilRoundTrip(k, d);
    ClockParts(hour, minute, second, ms);
  }

  lemma DayAndTime(day: int, time: int, local: int)
    requires local == day * 86_400_000 + time && 0 <= time < 86_400_000
    ensures DayOf(local) == day && TimeOfDay(local) == time
  {}

  lemma ClockParts(hour: nat, minute: nat, second: nat, ms: nat)
    requires hour < 24 && minute < 60 && second < 60 && ms < 1000
    ensures var t := (hour * 60 + minute) * 60_000 + second * 1000 + ms;
            t / 3_600_000 == hour && t / 60_000 % 60 == minute && t / 1000 % 60 == second
  {
    var t := (hour * 60 + minute) * 60_000 + second * 1000 + ms;
    var minutes, seconds := hour * 60 + minute, (hour * 60 + minute) * 60 + second;
    assert t / 1000 == seconds;
    assert t / 60_000 == minutes;
    assert t == hour * 3_600_000 + (minute * 60 + second) * 1000 + ms;
  }

  /** The first instant of all. */
  lemma EpochStamp()
    ensures MonthOf(DayOf(0)) >= 0 && LocalStamp(0, 0) == "1970-01-01 00:00:00 UTC+00:00"
  {
    var c := FirstClock(1970, 1, 0);
    ShapeShows(c);
    FirstParts(c.year, c.month, c.hour);
    FirstJoined(Print(c.year), Two(c.month), Two(c.hour));
  }

  lemma FirstJoined(y: string, one: string, zero: string)
    requires y == "1970" && one == "01" && zero == "00"
    ensures y + "-" + one + "-" + one + " " + zero + ":" + zero + ":" + zero + " UTC" + "+" + zero + ":" + zero
         == "1970-01-01 00:00:00 UTC+00:00"
  {}

  lemma FirstClock(y: nat, one: nat, zero: nat) returns (c: Clock)
    requires y == 1970 && one == 1 && zero == 0
    ensures MonthOf(DayOf(0)) >= 0 && c == LocalClock(0, 0)
    ensures c == Clock(y, one, one, zero, zero, zero, true, zero) && c.offset / 60 == zero && c.offset % 60 == zero
  {
    EpochIsJanuary1970();
    assert DayOf(0) == 0 && TimeOfDay(0) == 0;
    c := LocalClock(0, 0);
  }

  lemma FirstParts(y: nat, one: nat, zero: nat)
    requires y == 1970 && one == 1 && zero == 0
    ensures Print(y) == "1970" && Two(zero) == "00" && Two(one) == "01"
  {
    assert Print(1) == "1" && Print(0) == "0";
    assert Print(19) == Print(1) + "9";
    assert Print(197) == Print(19) + "7";
    assert Print(1970) == Print(197) + "0";
    assert Two(0) == Pad(Print(0), 2) == Pad("00", 2);
    assert Two(1) == Pad(Print(1), 2) == Pad("01", 2);
  }
}
