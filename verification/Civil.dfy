/** `unix_to_civil` (`src/remote_screenshot.rs`) against the proleptic Gregorian
    calendar, defined independently by counting year and month lengths. */
module Civil {
  const I32_MIN := -0x8000_0000
  const I32_MAX := 0x7fff_ffff

  /** What a release build's `i32` arithmetic leaves of `n`. */
  function I32(n: int): int {
    (n + 0x8000_0000) % 0x1_0000_0000 - 0x8000_0000
  }

  datatype Civil = Civil(year: int, month: int, day: int, hour: int, minute: int, second: int)

  // ----- the fast conversion -----

  /** Days since 0000-03-01, split into 400-year eras. */
  function Era(secs: int): int {
    (secs / 86_400 + 719_468) / 146_097
  }

  function DayOfEra(secs: int): int {
    secs / 86_400 + 719_468 - Era(secs) * 146_097
  }

  function YearOfEra(doe: int): int {
    (doe - doe / 1460 + doe / 36524 - doe / 146_096) / 365
  }

  function DayOfYear(doe: int): int {
    var yoe := YearOfEra(doe);
    doe - (365 * yoe + yoe / 4 - yoe / 100)
  }

  /** Months since March. */
  function MonthIndex(doy: int): int {
    (5 * doy + 2) / 153
  }

  function MonthOf(mp: int): int {
    if mp < 10 then mp + 3 else mp - 9
  }

  function DayOfMonth(doy: int): int {
    doy - (153 * MonthIndex(doy) + 2) / 5 + 1
  }

  function UnixToCivil(secs: int): Civil {
    var rem := secs % 86_400;
    var h := rem / 3600;
    var min := rem % 3600 / 60;
    var s := rem % 60;
    var doe := DayOfEra(secs);
    var y := I32(YearOfEra(doe) + I32(I32(Era(secs)) * 400));
    var doy := DayOfYear(doe);
    var d := DayOfMonth(doy);
    var m := MonthOf(MonthIndex(doy));
    var y' := if m <= 2 then I32(y + 1) else y;
    Civil(y', m, d, h, min, s)
  }

  // ----- the calendar, by counting -----

  predicate IsLeap(y: int) {
    y % 4 == 0 && (y % 100 != 0 || y % 400 == 0)
  }

  function YearLen(y: int): int {
    if IsLeap(y) then 366 else 365
  }

  function MonthLen(y: int, m: int): int {
    if m == 2 then (if IsLeap(y) then 29 else 28)
    else if m == 4 || m == 6 || m == 9 || m == 11 then 30
    else 31
  }

  /** Day number of January 1st of year `y`, counting from 1970-01-01. */
  function YearStart(y: int): int
    decreases if y >= 1970 then y - 1970 else 1970 - y
  {
    if y == 1970 then 0
    else if y > 1970 then YearStart(y - 1) + YearLen(y - 1)
    else YearStart(y + 1) - YearLen(y)
  }

  /** Days in year `y` before month `m`. */
  function MonthStart(y: int, m: nat): int {
    if m <= 1 then 0 else MonthStart(y, m - 1) + MonthLen(y, m - 1)
  }

  predicate ValidDate(y: int, m: int, d: int) {
    1 <= m <= 12 && 1 <= d <= MonthLen(y, m)
  }

  function DayNumber(y: int, m: int, d: int): int
    requires ValidDate(y, m, d)
  {
    YearStart(y) + MonthStart(y, m) + d - 1
  }

  /** `y`-`m`-`d` is a date, and it is day `n`. */
  predicate DateIs(y: int, m: int, d: int, n: int) {
    ValidDate(y, m, d) && DayNumber(y, m, d) == n
  }

  predicate ValidTime(c: Civil) {
    0 <= c.hour < 24 && 0 <= c.minute < 60 && 0 <= c.second < 60
  }

  // ----- closed form of the count -----

  function LeapsThrough(y: int): int {
    y / 4 - y / 100 + y / 400
  }

  lemma HundredIsFour(y: int)
    ensures y % 400 == 0 ==> y % 100 == 0
    ensures y % 100 == 0 ==> y % 4 == 0
  {
  }

  lemma LeapStep(y: int)
    ensures LeapsThrough(y) == LeapsThrough(y - 1) + if IsLeap(y) then 1 else 0
  {
    assert y / 4 == (y - 1) / 4 + if y % 4 == 0 then 1 else 0;
    assert y / 100 == (y - 1) / 100 + if y % 100 == 0 then 1 else 0;
    assert y / 400 == (y - 1) / 400 + if y % 400 == 0 then 1 else 0;
    HundredIsFour(y);
  }

  lemma {:induction false} YearStartClosed(y: int)
    ensures YearStart(y) == 365 * (y - 1970) + LeapsThrough(y - 1) - LeapsThrough(1969)
    decreases if y >= 1970 then y - 1970 else 1970 - y
  {
    if y > 1970 {
      YearStartClosed(y - 1);
      LeapStep(y - 1);
    } else if y < 1970 {
      YearStartClosed(y + 1);
      LeapStep(y);
    }
  }

  lemma MonthStarts(y: int)
    ensures var l := if IsLeap(y) then 1 else 0;
      && MonthStart(y, 1) == 0 && MonthStart(y, 2) == 31 && MonthStart(y, 3) == 59 + l
      && MonthStart(y, 4) == 90 + l && MonthStart(y, 5) == 120 + l && MonthStart(y, 6) == 151 + l
      && MonthStart(y, 7) == 181 + l && MonthStart(y, 8) == 212 + l && MonthStart(y, 9) == 243 + l
      && MonthStart(y, 10) == 273 + l && MonthStart(y, 11) == 304 + l && MonthStart(y, 12) == 334 + l
      && MonthStart(y, 13) == YearLen(y)
  {
    assert MonthStart(y, 3) == MonthStart(y, 2) + MonthLen(y, 2);
    assert MonthStart(y, 5) == MonthStart(y, 3) + MonthLen(y, 3) + MonthLen(y, 4);
    assert MonthStart(y, 7) == MonthStart(y, 5) + MonthLen(y, 5) + MonthLen(y, 6);
    assert MonthStart(y, 9) == MonthStart(y, 7) + MonthLen(y, 7) + MonthLen(y, 8);
    assert MonthStart(y, 11) == MonthStart(y, 9) + MonthLen(y, 9) + MonthLen(y, 10);
    assert MonthStart(y, 13) == MonthStart(y, 11) + MonthLen(y, 11) + MonthLen(y, 12);
  }

  // ----- the arithmetic of one era -----

  /** Whether the March-based year `yoe` of an era ends with a 29 February. */
  predicate LongMarchYear(yoe: int) {
    IsLeap(yoe + 1)
  }

  lemma YearFromParts(doe: int, c: int, q: int, r: int, t: int)
    requires 0 <= c <= 3 && 0 <= q <= 24 && 0 <= r <= 3 && 0 <= t <= 365
    requires doe == 36524 * c + 1461 * q + 365 * r + t
    requires t == 365 ==> r == 3 && (q < 24 || c == 3)
    ensures YearOfEra(doe) == 100 * c + 4 * q + r
  {
    var e := if 24 * c + q + 365 * r + t >= 1460 then 1 else 0;
    assert doe / 1460 == 25 * c + q + e;
    var f := if q == 24 && r == 3 && t == 365 then 1 else 0;
    assert doe / 36524 == c + f;
    assert doe / 146_096 == f;
    assert doe - doe / 1460 + doe / 36524 - doe / 146_096 == 365 * (100 * c + 4 * q + r) + t - e;
    assert 0 <= t - e < 365;
  }

  /** Every intermediate of the year-of-era step is in range: no unsigned
      subtraction goes below zero, and the day lies in the year found for it. */
  lemma YearOfEraCorrect(doe: int)
    requires 0 <= doe < 146_097
    ensures 0 <= YearOfEra(doe) < 400
    ensures doe - doe / 1460 >= 0 && doe - doe / 1460 + doe / 36524 - doe / 146_096 >= 0
    ensures 365 * YearOfEra(doe) + YearOfEra(doe) / 4 - YearOfEra(doe) / 100 >= 0
    ensures 0 <= DayOfYear(doe) <= if LongMarchYear(YearOfEra(doe)) then 365 else 364
  {
    var c := if doe == 146_096 then 3 else doe / 36524;
    var inCentury := doe - 36524 * c;
    var q := if inCentury == 36524 then 24 else inCentury / 1461;
    var inCycle := inCentury - 1461 * q;
    var r := if inCycle == 1460 then 3 else inCycle / 365;
    var t := inCycle - 365 * r;
    assert 0 <= c <= 3 && 0 <= q <= 24 && 0 <= r <= 3 && 0 <= t <= 365;
    YearFromParts(doe, c, q, r, t);
    var yoe := 100 * c + 4 * q + r;
    assert yoe / 4 == 25 * c + q && yoe / 100 == c;
    assert t == 365 ==> r == 3 && (q < 24 || c == 3);
    assert r == 3 ==> (yoe + 1) % 4 == 0;
    assert r == 3 && q < 24 ==> (yoe + 1) % 100 != 0;
    assert r == 3 && q == 24 && c == 3 ==> (yoe + 1) % 400 == 0;
  }

  /** The month step: the March-based month `mp` and the day in it. */
  lemma MonthFromDay(doy: int, y: int)
    requires 0 <= doy <= if IsLeap(y + 1) then 365 else 364
    ensures var mp, d, m := MonthIndex(doy), DayOfMonth(doy), MonthOf(MonthIndex(doy));
            var y' := if m <= 2 then y + 1 else y;
      && 0 <= mp <= 11 && (153 * mp + 2) / 5 <= doy
      && ValidDate(y', m, d)
      && (if m <= 2 then YearLen(y) else 0) + MonthStart(y', m) + d - 1 == MonthStart(y, 3) + doy
  {
    MonthStarts(y);
    MonthStarts(y + 1);
  }

  /** The year the conversion means, before it is squeezed into an `i32`. */
  function TrueYear(secs: int): int {
    var doe := DayOfEra(secs);
    YearOfEra(doe) + Era(secs) * 400 + if MonthOf(MonthIndex(DayOfYear(doe))) <= 2 then 1 else 0
  }

  /** The March-based years up to `y`, in days. */
  lemma MarchStart(era: int, yoe: int)
    requires 0 <= yoe < 400
    ensures YearStart(era * 400 + yoe) + MonthStart(era * 400 + yoe, 3)
         == era * 146_097 + 365 * yoe + yoe / 4 - yoe / 100 - 719_468
  {
    var y := era * 400 + yoe;
    YearStartClosed(y);
    MonthStarts(y);
    LeapStep(y);
    assert y / 4 == era * 100 + yoe / 4;
    assert y / 100 == era * 4 + yoe / 100;
    assert y / 400 == era;
    assert LeapsThrough(1969) == 477;
  }

  lemma YearStartStep(y: int)
    ensures YearStart(y + 1) == YearStart(y) + YearLen(y)
  {
    YearStartClosed(y);
    YearStartClosed(y + 1);
    LeapStep(y);
  }

  lemma DateInMarchYear(y: int, doy: int)
    requires 0 <= doy <= if IsLeap(y + 1) then 365 else 364
    ensures var m, d := MonthOf(MonthIndex(doy)), DayOfMonth(doy);
            var y' := if m <= 2 then y + 1 else y;
      ValidDate(y', m, d) && DayNumber(y', m, d) == YearStart(y) + MonthStart(y, 3) + doy
  {
    MonthFromDay(doy, y);
    YearStartStep(y);
  }

  /** The date that the parts of an era's day spell is that day. */
  predicate SpellsDay(era: int, doe: int, yoe: int, doy: int) {
    var m, d := MonthOf(MonthIndex(doy)), DayOfMonth(doy);
    var y := yoe + era * 400 + if m <= 2 then 1 else 0;
    DateIs(y, m, d, era * 146_097 + doe - 719_468)
  }

  lemma ModFour(y: int, k: int)
    ensures (k * 4 + y) % 4 == y % 4
  {
    assert (k * 4 + y) / 4 == k + y / 4;
  }

  lemma ModHundred(y: int, k: int)
    ensures (k * 100 + y) % 100 == y % 100
  {
    assert (k * 100 + y) / 100 == k + y / 100;
  }

  lemma ModFourHundred(y: int, k: int)
    ensures (k * 400 + y) % 400 == y % 400
  {
    assert (k * 400 + y) / 400 == k + y / 400;
  }

  lemma LeapInEra(era: int, y: int)
    ensures IsLeap(era * 400 + y) == IsLeap(y)
  {
    ModFour(y, era * 100);
    ModHundred(y, era * 4);
    ModFourHundred(y, era);
  }

  lemma EraDate(era: int, doe: int, yoe: int, doy: int)
    requires 0 <= yoe < 400 && doe == 365 * yoe + yoe / 4 - yoe / 100 + doy
    requires 0 <= doy <= if LongMarchYear(yoe) then 365 else 364
    ensures SpellsDay(era, doe, yoe, doy)
  {
    LeapInEra(era, yoe + 1);
    assert yoe + era * 400 + 1 == era * 400 + (yoe + 1);
    DateInMarchYear(yoe + era * 400, doy);
    MarchStart(era, yoe);
  }

  lemma PartsAddUp(doe: int, yoe: int)
    requires yoe == YearOfEra(doe)
    ensures doe == 365 * yoe + yoe / 4 - yoe / 100 + DayOfYear(doe)
  {
  }

  lemma DateOfEraCorrect(era: int, doe: int)
    requires 0 <= doe < 146_097
    ensures SpellsDay(era, doe, YearOfEra(doe), DayOfYear(doe))
  {
    YearOfEraCorrect(doe);
    PartsAddUp(doe, YearOfEra(doe));
    EraDate(era, doe, YearOfEra(doe), DayOfYear(doe));
  }

  lemma TimeCorrect(secs: int)
    ensures var c := UnixToCivil(secs);
      && ValidTime(c)
      && c.hour * 3600 + c.minute * 60 + c.second == secs % 86_400
  {
    var rem := secs % 86_400;
    assert rem % 3600 % 60 == rem % 60;
  }

  lemma I32Periodic(n: int, k: int)
    ensures I32(n + k * 0x1_0000_0000) == I32(n)
  {
    assert n + 0x8000_0000 + k * 0x1_0000_0000 == (n + k * 0x1_0000_0000) + 0x8000_0000;
    assert (n + 0x8000_0000 + k * 0x1_0000_0000) % 0x1_0000_0000 == (n + 0x8000_0000) % 0x1_0000_0000;
  }

  /** Wrapping at each step is wrapping once at the end. */
  lemma WrapOnce(era: int, yoe: int)
    ensures I32(yoe + I32(I32(era) * 400)) == I32(yoe + era * 400)
    ensures I32(I32(yoe + era * 400) + 1) == I32(yoe + era * 400 + 1)
  {
    var k := (era + 0x8000_0000) / 0x1_0000_0000;
    assert I32(era) == era - k * 0x1_0000_0000;
    var a := I32(era) * 400;
    var j := (a + 0x8000_0000) / 0x1_0000_0000;
    assert I32(a) == a - j * 0x1_0000_0000;
    I32Periodic(yoe + era * 400, -(400 * k + j));
    var i := (yoe + era * 400 + 0x8000_0000) / 0x1_0000_0000;
    I32Periodic(yoe + era * 400 + 1, -i);
  }

  lemma YearWraps(secs: int)
    ensures UnixToCivil(secs).year == I32(TrueYear(secs))
  {
    WrapOnce(Era(secs), YearOfEra(DayOfEra(secs)));
  }

  /** For every second count: the fields are a valid date and time, they count
      back to exactly the input, and the year is the true one up to `i32`
      wrap-around. */
  lemma CivilCorrect(secs: int)
    ensures var c := UnixToCivil(secs);
      && ValidTime(c)
      && DateIs(TrueYear(secs), c.month, c.day, secs / 86_400)
      && c.hour * 3600 + c.minute * 60 + c.second == secs % 86_400
      && c.year == I32(TrueYear(secs))
  {
    TimeCorrect(secs);
    YearWraps(secs);
    DateOfEraCorrect(Era(secs), DayOfEra(secs));
  }

  // ----- the date is the only one -----

  lemma {:induction false} YearStartMonotone(y1: int, y2: int)
    requires y1 <= y2
    ensures YearStart(y1) + 365 * (y2 - y1) <= YearStart(y2)
    decreases y2 - y1
  {
    if y1 < y2 {
      YearStartStep(y2 - 1);
      YearStartMonotone(y1, y2 - 1);
    }
  }

  lemma DayInYear(y: int, m: int, d: int)
    requires ValidDate(y, m, d)
    ensures YearStart(y) <= DayNumber(y, m, d) < YearStart(y + 1)
  {
    MonthStarts(y);
    YearStartStep(y);
  }

  /** No two valid dates share a day number. */
  lemma DayNumberInjective(y1: int, m1: int, d1: int, y2: int, m2: int, d2: int)
    requires ValidDate(y1, m1, d1) && ValidDate(y2, m2, d2)
    requires DayNumber(y1, m1, d1) == DayNumber(y2, m2, d2)
    ensures y1 == y2 && m1 == m2 && d1 == d2
  {
    DayInYear(y1, m1, d1);
    DayInYear(y2, m2, d2);
    if y1 < y2 {
      YearStartMonotone(y1 + 1, y2);
    } else if y2 < y1 {
      YearStartMonotone(y2 + 1, y1);
    }
    MonthStarts(y1);
  }

  /** The calendar's next day. */
  function NextDate(y: int, m: int, d: int): (int, int, int)
    requires ValidDate(y, m, d)
  {
    if d < MonthLen(y, m) then (y, m, d + 1)
    else if m < 12 then (y, m + 1, 1)
    else (y + 1, 1, 1)
  }

  lemma NextDateIsNextDay(y: int, m: int, d: int)
    requires ValidDate(y, m, d)
    ensures var (y', m', d') := NextDate(y, m, d);
      ValidDate(y', m', d') && DayNumber(y', m', d') == DayNumber(y, m, d) + 1
  {
    MonthStarts(y);
    YearStartStep(y);
  }

  lemma SameDate(secs: int, m: int, d: int, y': int, m': int, d': int)
    requires ValidDate(TrueYear(secs), m, d) && ValidDate(y', m', d')
    requires DayNumber(TrueYear(secs), m, d) == DayNumber(y', m', d')
    ensures (TrueYear(secs), m, d) == (y', m', d')
  {
    DayNumberInjective(TrueYear(secs), m, d, y', m', d');
  }

  /** One day later the conversion gives the calendar's next date. */
  lemma ConsecutiveDays(secs: int)
    ensures var c, n := UnixToCivil(secs), UnixToCivil(secs + 86_400);
      && ValidDate(TrueYear(secs), c.month, c.day)
      && (TrueYear(secs + 86_400), n.month, n.day) == NextDate(TrueYear(secs), c.month, c.day)
  {
    CivilCorrect(secs);
    CivilCorrect(secs + 86_400);
    var y, m, d := TrueYear(secs), UnixToCivil(secs).month, UnixToCivil(secs).day;
    var (y', m', d') := NextDate(y, m, d);
    NextDateIsNextDay(y, m, d);
    var n := UnixToCivil(secs + 86_400);
    SameDate(secs + 86_400, n.month, n.day, y', m', d');
  }

  // ----- POSIX -----

  /** "Seconds Since the Epoch", section 4.16 of the POSIX.1-2017 Base Definitions,
      from the broken-down UTC time. */
  function PosixSeconds(tm_sec: int, tm_min: int, tm_hour: int, tm_yday: int, tm_year: int): int {
    tm_sec + tm_min * 60 + tm_hour * 3600 + tm_yday * 86_400
    + (tm_year - 70) * 31_536_000 + (tm_year - 69) / 4 * 86_400
    - (tm_year - 1) / 100 * 86_400 + (tm_year + 299) / 400 * 86_400
  }

  lemma PosixYears(tm_year: int)
    ensures YearStart(tm_year + 1900)
         == (tm_year - 70) * 365 + (tm_year - 69) / 4 - (tm_year - 1) / 100 + (tm_year + 299) / 400
  {
    var y := tm_year + 1900;
    YearStartClosed(y);
    assert LeapsThrough(1969) == 477;
    assert (y - 1900 - 69) / 4 == (y - 1) / 4 - 492;
    assert (y - 1900 - 1) / 100 == (y - 1) / 100 - 19;
    assert (y - 1900 + 299) / 400 == (y - 1) / 400 - 4;
  }

  /** From 1970 on the fields satisfy the POSIX formula. */
  lemma MeetsPosix(secs: int)
    requires secs >= 0
    ensures var c := UnixToCivil(secs);
      && TrueYear(secs) >= 1970
      && ValidDate(TrueYear(secs), c.month, c.day)
      && PosixSeconds(c.second, c.minute, c.hour, MonthStart(TrueYear(secs), c.month) + c.day - 1,
                      TrueYear(secs) - 1900) == secs
  {
    CivilCorrect(secs);
    var c, y := UnixToCivil(secs), TrueYear(secs);
    DayInYear(y, c.month, c.day);
    if y < 1970 {
      YearStartMonotone(y + 1, 1970);
    }
    PosixYears(y - 1900);
  }

  // ----- where the i32 year gives out -----

  /** 1 January of year -2^31, and of year 2^31, in seconds. */
  const FIRST_SECOND := -67_768_100_567_971_200
  const END_SECOND := 67_767_976_233_532_800

  lemma YearStartsAt(y: int, day: int)
    requires day == 365 * (y - 1970) + LeapsThrough(y - 1) - LeapsThrough(1969)
    ensures YearStart(y) == day
  {
    YearStartClosed(y);
  }

  lemma I32Bounds(first: int, end: int)
    requires first == I32_MIN && end == I32_MAX + 1
    ensures YearStart(first) * 86_400 == FIRST_SECOND
    ensures YearStart(end) * 86_400 == END_SECOND
  {
    YearStartsAt(first, FIRST_SECOND / 86_400);
    YearStartsAt(end, END_SECOND / 86_400);
  }

  lemma YearInRangeIff(y: int, m: int, d: int, secs: int)
    requires ValidDate(y, m, d) && DayNumber(y, m, d) == secs / 86_400
    ensures I32_MIN <= y <==> FIRST_SECOND <= secs
    ensures y <= I32_MAX <==> secs < END_SECOND
  {
    var first, end := I32_MIN, I32_MAX + 1;
    I32Bounds(first, end);
    DayInYear(y, m, d);
    if y < first {
      YearStartMonotone(y + 1, first);
    } else {
      YearStartMonotone(first, y);
    }
    if y < end {
      YearStartMonotone(y + 1, end);
    } else {
      YearStartMonotone(end, y);
    }
  }

  lemma I32Fits(y: int)
    ensures I32(y) == y <==> I32_MIN <= y <= I32_MAX
  {
  }

  /** The year returned is the calendar's exactly for the seconds whose year fits
      an `i32`; every other `i64` argument gets a wrapped year. */
  lemma YearExactIff(secs: int)
    ensures UnixToCivil(secs).year == TrueYear(secs) <==> FIRST_SECOND <= secs < END_SECOND
  {
    var c, y := UnixToCivil(secs), TrueYear(secs);
    CivilCorrect(secs);
    YearInRangeIff(y, c.month, c.day, secs);
    I32Fits(y);
  }

  lemma LargestI64Wraps()
    ensures UnixToCivil(0x7fff_ffff_ffff_ffff).year != TrueYear(0x7fff_ffff_ffff_ffff)
  {
    YearExactIff(0x7fff_ffff_ffff_ffff);
  }

  /** First second of the era of year -2147483600, the first whose `era * 400`
      an `i32` holds. */
  const FIRST_CHECKED_SECOND := -67_768_099_048_022_400

  lemma EraInRange(secs: int)
    ensures Era(secs) * 400 >= I32_MIN <==> secs >= FIRST_CHECKED_SECOND
  {
    assert Era(secs) >= -5_368_709 <==> secs / 86_400 + 719_468 >= -5_368_709 * 146_097;
  }

  lemma YearOfEraInRange(secs: int)
    ensures 0 <= DayOfEra(secs) < 146_097
    ensures 0 <= YearOfEra(DayOfEra(secs)) < 400
    ensures Era(secs) * 400 <= TrueYear(secs)
    ensures YearOfEra(DayOfEra(secs)) + Era(secs) * 400 <= TrueYear(secs)
  {
    YearOfEraCorrect(DayOfEra(secs));
  }

  /** No step of the year arithmetic overflows `i32` (so a debug build does not
      panic) exactly on this interval. */
  lemma NoOverflowIff(secs: int)
    ensures (&& I32_MIN <= Era(secs) <= I32_MAX
             && I32_MIN <= Era(secs) * 400 <= I32_MAX
             && I32_MIN <= YearOfEra(DayOfEra(secs)) + Era(secs) * 400 <= I32_MAX
             && I32_MIN <= TrueYear(secs) <= I32_MAX)
       <==> FIRST_CHECKED_SECOND <= secs < END_SECOND
  {
    YearOfEraInRange(secs);
    EraInRange(secs);
    var c, y := UnixToCivil(secs), TrueYear(secs);
    CivilCorrect(secs);
    YearInRangeIff(y, c.month, c.day, secs);
  }
}
