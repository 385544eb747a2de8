/**
 Report time stamps: the closed form that turns a day count into a civil date,
 against counting days one by one in the Gregorian calendar.
 */
module Calendar {

  newtype u64 = n: int | 0 <= n < 0x1_0000_0000_0000_0000
  newtype u32 = n: int | 0 <= n < 0x1_0000_0000
  newtype i32 = n: int | -0x8000_0000 <= n < 0x8000_0000

  // ---------- the calendar, day by day ----------

  datatype Date = Date(year: int, month: int, day: int)

  predicate Leap(year: int) {
    year % 4 == 0 && (year % 100 != 0 || year % 400 == 0)
  }

  function DaysInMonth(year: int, month: int): int {
    if month == 2 then (if Leap(year) then 29 else 28)
    else if month == 4 || month == 6 || month == 9 || month == 11 then 30
    else 31
  }

  predicate ValidDate(d: Date) {
    1 <= d.month <= 12 && 1 <= d.day <= DaysInMonth(d.year, d.month)
  }

  function NextDate(d: Date): Date {
    if d.day < DaysInMonth(d.year, d.month) then Date(d.year, d.month, d.day + 1)
    else if d.month < 12 then Date(d.year, d.month + 1, 1)
    else Date(d.year + 1, 1, 1)
  }

  /** The date `days` days after another. */
  function DaysAfter(from: Date, days: nat): Date {
    if days == 0 then from else NextDate(DaysAfter(from, days - 1))
  }

  const EPOCH := Date(1970, 1, 1)

  // ---------- years that begin in March ----------

  const MARCH_0 := Date(0, 3, 1)

  function MarchYear(d: Date): int {
    if d.month <= 2 then d.year - 1 else d.year
  }

  function MarchMonth(d: Date): int {
    if d.month <= 2 then d.month + 9 else d.month - 3
  }

  function YearStart(y: int): int {
    365 * y + y / 4 - y / 100 + y / 400
  }

  function MonthStart(mp: int): int {
    (153 * mp + 2) / 5
  }

  function DayOfYear(d: Date): int {
    MonthStart(MarchMonth(d)) + d.day - 1
  }

  /** The days from 0000-03-01 on. */
  function Serial(d: Date): int {
    YearStart(MarchYear(d)) + DayOfYear(d)
  }

  lemma MonthStarts()
    ensures MonthStart(0) == 0 && MonthStart(1) == 31 && MonthStart(2) == 61 && MonthStart(3) == 92
    ensures MonthStart(4) == 122 && MonthStart(5) == 153 && MonthStart(6) == 184 && MonthStart(7) == 214
    ensures MonthStart(8) == 245 && MonthStart(9) == 275 && MonthStart(10) == 306 && MonthStart(11) == 337
  {
  }

  lemma YearLength(y: int)
    ensures YearStart(y + 1) - YearStart(y) == if Leap(y + 1) then 366 else 365
  {
    DivisionStep(y, 4);
    DivisionStep(y, 100);
    DivisionStep(y, 400);
  }

  lemma DivisionStep(y: int, n: int)
    requires n == 4 || n == 100 || n == 400
    ensures (y + 1) / n - y / n == if (y + 1) % n == 0 then 1 else 0
  {
  }

  /** The next date is one day later. */
  lemma NextIsLater(d: Date)
    requires ValidDate(d)
    ensures ValidDate(NextDate(d)) && Serial(NextDate(d)) == Serial(d) + 1 && NextDate(d).year >= d.year
  {
    MonthStarts();
    YearLength(MarchYear(d));
  }

  lemma {:induction false} Counting(from: Date, days: nat)
    requires ValidDate(from)
    ensures ValidDate(DaysAfter(from, days)) && Serial(DaysAfter(from, days)) == Serial(from) + days
    ensures DaysAfter(from, days).year >= from.year
  {
    if days > 0 {
      var before := DaysAfter(from, days - 1);
      Counting(from, days - 1);
      NextIsLater(before);
      assert DaysAfter(from, days) == NextDate(before);
    }
  }

  // ---------- the closed form inverts the serial number ----------

  /** The year of its 400-year era, from the century, the leap cycle and the year in it. */
  lemma YearOfEra(c: int, u: int, v: int, doy: int)
    requires 0 <= c <= 3 && 0 <= u <= 24 && 0 <= v <= 3 && 0 <= doy <= 365
    requires doy == 365 ==> v == 3 && (u == 24 ==> c == 3)
    ensures var doe := 36524 * c + 1461 * u + 365 * v + doy;
      && 0 <= doe < 146097
      && (doe - doe / 1460 + doe / 36524 - doe / 146096) / 365 == 100 * c + 4 * u + v
  {
    var doe := 36524 * c + 1461 * u + 365 * v + doy;
    var e := (24 * c + u + 365 * v + doy) / 1460;
    Quotient1460(doe, 25 * c + u, 24 * c + u + 365 * v + doy);
    Centuries(c, 1461 * u + 365 * v + doy);
    assert doe - doe / 1460 + c == 365 * (100 * c + 4 * u + v) + (doy - e);
    assert 0 <= doy - e <= 364;
  }

  lemma Quotient1460(z: int, q: int, r: int)
    requires z == 1460 * q + r
    ensures z / 1460 == q + r / 1460
  {
  }

  /** The last day of an era would count as a fifth century if it were not taken back. */
  lemma Centuries(c: int, r: int)
    requires 0 <= c <= 3 && 0 <= r <= 36524 && (r == 36524 ==> c == 3)
    ensures (36524 * c + r) / 36524 - (36524 * c + r) / 146096 == c
  {
  }

  /** The month and the day of the month from the day of the year. */
  lemma MonthOfYear(d: Date)
    requires ValidDate(d)
    ensures 0 <= DayOfYear(d) <= 365
    ensures (5 * DayOfYear(d) + 2) / 153 == MarchMonth(d)
    ensures DayOfYear(d) == 365 ==> Leap(d.year) && d.month == 2
  {
    MonthStarts();
  }

  /** Days of a March year's era before the day `doy` of that year: centuries, leap cycles, years. */
  function InEra(y: int, doy: int): int {
    36524 * (y % 400 / 100) + 1461 * (y % 100 / 4) + 365 * (y % 4) + doy
  }

  lemma EraOf(y: int)
    requires y >= 0
    ensures YearStart(y) == 146097 * (y / 400) + InEra(y, 0)
    ensures y % 400 == 100 * (y % 400 / 100) + 4 * (y % 100 / 4) + y % 4
    ensures Leap(y + 1) ==> y % 4 == 3 && (y % 100 / 4 == 24 ==> y % 400 / 100 == 3)
  {
    var era, c, u, v := y / 400, y % 400 / 100, y % 100 / 4, y % 4;
    Remainders(y);
    assert y == 400 * era + 100 * c + 4 * u + v;
    EraParts(era, c, u, v);
  }

  lemma Remainders(y: int)
    ensures y % 400 == 100 * (y % 400 / 100) + y % 100
    ensures y % 100 == 4 * (y % 100 / 4) + y % 4
  {
    Quotient100(y, 4 * (y / 400) + y % 400 / 100, y % 400 % 100);
    Quotient4(y, 25 * (y / 100) + y % 100 / 4, y % 100 % 4);
  }

  lemma Quotient100(z: int, q: int, r: int)
    requires z == 100 * q + r && 0 <= r < 100
    ensures z / 100 == q && z % 100 == r
  {
  }

  lemma Quotient4(z: int, q: int, r: int)
    requires z == 4 * q + r && 0 <= r < 4
    ensures z / 4 == q && z % 4 == r
  {
  }

  lemma EraParts(era: int, c: int, u: int, v: int)
    requires 0 <= c <= 3 && 0 <= u <= 24 && 0 <= v <= 3
    ensures var y := 400 * era + 100 * c + 4 * u + v;
      && y / 400 == era && y / 100 == 4 * era + c && y / 4 == 100 * era + 25 * c + u
      && (Leap(y + 1) ==> v == 3 && (u == 24 ==> c == 3))
  {
  }

  lemma SerialSplits(d: Date)
    requires ValidDate(d) && MarchYear(d) >= 0
    ensures Serial(d) / 146097 == MarchYear(d) / 400
    ensures Serial(d) % 146097 == InEra(MarchYear(d), DayOfYear(d))
  {
    var y := MarchYear(d);
    EraOf(y);
    MonthOfYear(d);
    YearOfEra(y % 400 / 100, y % 100 / 4, y % 4, DayOfYear(d));
    Quotient(Serial(d), y / 400, InEra(y, DayOfYear(d)));
  }

  lemma Quotient(z: int, era: int, doe: int)
    requires z == 146097 * era + doe && 0 <= doe < 146097
    ensures z / 146097 == era && z % 146097 == doe
  {
  }

  lemma YearOfSerial(d: Date, doe: int, yoe: int)
    requires ValidDate(d) && MarchYear(d) >= 0
    requires doe == Serial(d) % 146097 && yoe == (doe - doe / 1460 + doe / 36524 - doe / 146096) / 365
    ensures yoe == MarchYear(d) % 400
  {
    var y := MarchYear(d);
    SerialSplits(d);
    MonthOfYear(d);
    EraOf(y);
    YearOfEra(y % 400 / 100, y % 100 / 4, y % 4, DayOfYear(d));
  }

  lemma DayOfSerial(d: Date, doe: int, yoe: int)
    requires ValidDate(d) && MarchYear(d) >= 0
    requires doe == Serial(d) % 146097 && yoe == MarchYear(d) % 400
    ensures doe - (365 * yoe + yoe / 4 - yoe / 100) == DayOfYear(d)
  {
    var y := MarchYear(d);
    SerialSplits(d);
    EraOf(y);
    assert yoe / 4 == 25 * (y % 400 / 100) + y % 100 / 4;
  }

  // ---------- the code ----------

  const DAYS_TO_EPOCH: u64 := 719468

  function SaturatingAdd(a: u64, b: u64): u64 {
    if a as int + b as int < 0x1_0000_0000_0000_0000 then a + b else 0xFFFF_FFFF_FFFF_FFFF
  }

  /** `as i32`: the low 32 bits, as a signed number. */
  function LowI32(n: u64): i32 {
    ((n as int + 0x8000_0000) % 0x1_0000_0000 - 0x8000_0000) as i32
  }

  /** The date of a serial number. */
  ghost function DateOf(z: nat): Date {
    DaysAfter(MARCH_0, z)
  }

  lemma DateOfSerial(z: nat)
    ensures ValidDate(DateOf(z)) && Serial(DateOf(z)) == z && MarchYear(DateOf(z)) >= 0
  {
    MarchIsZero();
    Counting(MARCH_0, z);
    BeforeMarch(DateOf(z));
  }

  lemma MarchIsZero()
    ensures ValidDate(MARCH_0) && Serial(MARCH_0) == 0
  {
  }

  lemma BeforeMarch(d: Date)
    requires ValidDate(d)
    ensures MarchYear(d) == -1 ==> Serial(d) < 0
  {
    MonthOfYear(d);
    assert YearStart(-1) == -366;
  }

  lemma {:induction false} DaysAfterConcat(from: Date, a: nat, b: nat)
    ensures DaysAfter(from, a + b) == DaysAfter(DaysAfter(from, a), b)
  {
    if b > 0 {
      DaysAfterConcat(from, a, b - 1);
    }
  }

  lemma SerialUnique(a: Date, b: Date)
    requires ValidDate(a) && ValidDate(b) && MarchYear(a) >= 0 && MarchYear(b) >= 0 && Serial(a) == Serial(b)
    ensures a == b
  {
    SameYear(a, b);
    MonthOfYear(a);
    MonthOfYear(b);
  }

  lemma SameYear(a: Date, b: Date)
    requires ValidDate(a) && ValidDate(b) && MarchYear(a) >= 0 && MarchYear(b) >= 0 && Serial(a) == Serial(b)
    ensures MarchYear(a) == MarchYear(b)
  {
    var doe := Serial(a) % 146097;
    var yoe := (doe - doe / 1460 + doe / 36524 - doe / 146096) / 365;
    YearOfSerial(a, doe, yoe);
    YearOfSerial(b, doe, yoe);
    SerialSplits(a);
    SerialSplits(b);
  }

  lemma EpochSerial()
    ensures DateOf(DAYS_TO_EPOCH as int) == EPOCH
  {
    DateOfSerial(719468);
    assert MarchYear(EPOCH) == 1969 && YearStart(1969) == 719162 && MonthStart(10) == 306;
    SerialUnique(DateOf(719468), EPOCH);
  }

  lemma SinceEpoch(days: nat)
    ensures DaysAfter(EPOCH, days) == DateOf(719468 + days)
  {
    EpochSerial();
    DaysAfterConcat(MARCH_0, 719468, days);
  }

  /** What the steps of the closed form compute for the date of `z`. */
  lemma Fields(z: nat, era: int, doe: int, yoe: int)
    requires era == z / 146097 && doe == z - era * 146097
    requires yoe == (doe - doe / 1460 + doe / 36524 - doe / 146096) / 365
    ensures var d := DateOf(z); var doy := doe - (365 * yoe + yoe / 4 - yoe / 100);
      && ValidDate(d) && 0 <= d.year
      && 0 <= yoe < 400 && yoe + era * 400 == MarchYear(d)
      && 0 <= doy <= 365 && (5 * doy + 2) / 153 == MarchMonth(d)
      && doy - (153 * MarchMonth(d) + 2) / 5 + 1 == d.day
  {
    var d := DateOf(z);
    DateOfSerial(z);
    SerialSplits(d);
    YearOfSerial(d, doe, yoe);
    DayOfSerial(d, doe, yoe);
    MonthOfYear(d);
  }

  /** `civil_from_days`, in 64-bit arithmetic of which no step overflows. */
  function CivilFromDays(days: u64): (r: (i32, u32, u32))
    ensures var z := SaturatingAdd(days, DAYS_TO_EPOCH); var d := DateOf(z as int);
      && 0 <= d.year < 0x1_0000_0000_0000_0000
      && r.0 == LowI32(d.year as u64) && r.1 as int == d.month && r.2 as int == d.day
  {
    var z := SaturatingAdd(days, DAYS_TO_EPOCH);
    var era := z / 146097;
    var doe := z - era * 146097;
    var yoe := (doe - doe / 1460 + doe / 36524 - doe / 146096) / 365;
    Fields(z as int, era as int, doe as int, yoe as int);
    var y := yoe + era * 400;
    var doy := doe - (365 * yoe + yoe / 4 - yoe / 100);
    var mp := (5 * doy + 2) / 153;
    var d := doy - (153 * mp + 2) / 5 + 1;
    var m := if mp < 10 then mp + 3 else mp - 9;
    var year := if m <= 2 then y + 1 else y;
    (LowI32(year), m as u32, d as u32)
  }

  /** The last day count whose year fits 32 bits. */
  const LAST_DAY := 784351576776

  const LAST_YEAR := 0x7FFF_FFFF

  lemma {:induction false} YearsGrow(a: int, b: int)
    requires a <= b
    ensures YearStart(b) >= YearStart(a)
    decreases b - a
  {
    if a < b {
      YearsGrow(a, b - 1);
      YearLength(b - 1);
    }
  }

  /** The last day count is where the year leaves 32 bits. */
  lemma LastDaySplits(d: Date)
    requires ValidDate(d)
    ensures d.year <= LAST_YEAR <==> Serial(d) <= 719468 + LAST_DAY
  {
    MonthOfYear(d);
    MonthStarts();
    assert YearStart(LAST_YEAR) == 784352295939;
    if d.year <= LAST_YEAR {
      if MarchYear(d) < LAST_YEAR {
        YearsGrow(MarchYear(d), LAST_YEAR - 1);
        YearLength(LAST_YEAR - 1);
      }
    } else {
      YearsGrow(LAST_YEAR, MarchYear(d));
    }
  }

  /**
   The closed form is the date that counting day by day from 1970-01-01 gives,
   exactly up to the last day of the year 2147483647.
   */
  lemma CivilIsDayByDay(days: u64)
    ensures var (year, month, day) := CivilFromDays(days);
      Date(year as int, month as int, day as int) == DaysAfter(EPOCH, days as int) <==> days as int <= LAST_DAY
  {
    var d := DaysAfter(EPOCH, days as int);
    SinceEpoch(days as int);
    DateOfSerial(719468 + days as int);
    LastDaySplits(d);
    if days as int <= LAST_DAY {
      LowI32Fits(d.year as u64);
    }
  }

  lemma LowI32Fits(n: u64)
    requires n as int <= LAST_YEAR
    ensures LowI32(n) as int == n as int
  {
  }

  // ---------- the inverse: adding up years and months ----------

  function DaysInYear(year: int): int {
    if Leap(year) then 366 else 365
  }

  function DaysBeforeYear(year: int): int
    requires year >= 1970
  {
    if year == 1970 then 0 else DaysBeforeYear(year - 1) + DaysInYear(year - 1)
  }

  function DaysBeforeMonth(year: int, month: int): int
    requires 1 <= month <= 12
  {
    if month == 1 then 0 else DaysBeforeMonth(year, month - 1) + DaysInMonth(year, month - 1)
  }

  function DaysSinceEpoch(d: Date): int
    requires ValidDate(d) && d.year >= 1970
  {
    DaysBeforeYear(d.year) + DaysBeforeMonth(d.year, d.month) + d.day - 1
  }

  lemma {:induction false} YearsAddUp(year: int)
    requires year >= 1970
    ensures 719468 + DaysBeforeYear(year) == Serial(Date(year, 1, 1)) && DaysBeforeYear(year) >= 0
  {
    MonthStarts();
    if year == 1970 {
      assert YearStart(1969) == 719162;
    } else {
      YearsAddUp(year - 1);
      YearLength(year - 2);
      YearLength(year - 1);
      assert MarchYear(Date(year, 1, 1)) == year - 1 && MarchYear(Date(year - 1, 1, 1)) == year - 2;
    }
  }

  lemma {:induction false} MonthsAddUp(year: int, month: int)
    requires 1 <= month <= 12
    ensures Serial(Date(year, month, 1)) == Serial(Date(year, 1, 1)) + DaysBeforeMonth(year, month)
    ensures DaysBeforeMonth(year, month) >= 0
  {
    if month > 1 {
      MonthsAddUp(year, month - 1);
      var last := Date(year, month - 1, DaysInMonth(year, month - 1));
      NextIsLater(last);
      assert NextDate(last) == Date(year, month, 1);
    }
  }

  lemma DaysAddUp(d: Date)
    requires ValidDate(d) && d.year >= 1970
    ensures 719468 + DaysSinceEpoch(d) == Serial(d) && DaysSinceEpoch(d) >= 0
  {
    YearsAddUp(d.year);
    MonthsAddUp(d.year, d.month);
  }

  /** Counting the days up to a date and turning the count back into a date are inverse. */
  lemma CivilInverts(d: Date)
    requires ValidDate(d) && 1970 <= d.year <= LAST_YEAR
    ensures 0 <= DaysSinceEpoch(d) <= LAST_DAY
    ensures var (year, month, day) := CivilFromDays(DaysSinceEpoch(d) as u64);
      Date(year as int, month as int, day as int) == d
  {
    DaysAddUp(d);
    LastDaySplits(d);
    var days := DaysSinceEpoch(d);
    CivilIsDayByDay(days as u64);
    SinceEpoch(days);
    DateOfSerial(719468 + days);
    BeforeMarch(d);
    SerialUnique(d, DateOf(719468 + days));
  }

  // ---------- time stamps ----------

  /** `civil_from_unix` */
  function CivilFromUnix(seconds: u64): (i32, u32, u32, u32, u32, u32) {
    var second := (seconds % 60) as u32;
    var minutes := seconds / 60;
    var minute := (minutes % 60) as u32;
    var hours := minutes / 60;
    var hour := (hours % 24) as u32;
    var days := hours / 24;
    var (year, month, day) := CivilFromDays(days);
    (year, month, day, hour, minute, second)
  }

  /** Every 64-bit millisecond count is before the last day. */
  lemma MillisFit(millis: u64)
    ensures millis as int / 1000 / 60 / 60 / 24 <= LAST_DAY
  {
  }

  /**
   For every 64-bit millisecond count: the date is the one day by day counting gives,
   and together with the time of day it stands for exactly the whole seconds.
   */
  lemma TimeStampIsExact(millis: u64)
    ensures var seconds := millis / 1000;
      var (year, month, day, hour, minute, second) := CivilFromUnix(seconds);
      && hour < 24 && minute < 60 && second < 60
      && exists days: nat ::
           && Date(year as int, month as int, day as int) == DaysAfter(EPOCH, days)
           && days * 86400 + hour as int * 3600 + minute as int * 60 + second as int == seconds as int
  {
    var seconds := millis / 1000;
    var days := seconds / 60 / 60 / 24;
    MillisFit(millis);
    CivilIsDayByDay(days);
    TimeOfDay(seconds as int);
    var (year, month, day, hour, minute, second) := CivilFromUnix(seconds);
    assert Date(year as int, month as int, day as int) == DaysAfter(EPOCH, days as int);
  }

  lemma TimeOfDay(s: nat)
    ensures s / 60 / 60 / 24 * 86400 + s / 60 / 60 % 24 * 3600 + s / 60 % 60 * 60 + s % 60 == s
  {
  }
}
