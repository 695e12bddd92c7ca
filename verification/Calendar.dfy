/**
 Epoch milliseconds to proleptic Gregorian dates: `civil_from_days` of roost-cli
 (crates/roost-cli/src/utc_clock.rs) and the independent version inside `utc_run_id` of roost-bench
 (crates/roost-bench/src/run.rs), both against the calendar's own rules (ISO 8601).
 */
module Calendar {

  datatype Date = Date(year: int, month: int, day: int)

  // ---------------------------------------------------------------------------------------------
  // The calendar
  // ---------------------------------------------------------------------------------------------

  predicate IsLeap(year: int) {
    year % 4 == 0 && (year % 100 != 0 || year % 400 == 0)
  }

  function DaysInMonth(year: int, month: int): int
    requires 1 <= month <= 12
  {
    if month == 2 then (if IsLeap(year) then 29 else 28)
    else if month == 4 || month == 6 || month == 9 || month == 11 then 30
    else 31
  }

  predicate Valid(date: Date) {
    1 <= date.month <= 12 && 1 <= date.day <= DaysInMonth(date.year, date.month)
  }

  /** The day after `date`. */
  function Successor(date: Date): Date
    requires Valid(date)
  {
    if date.day < DaysInMonth(date.year, date.month) then date.(day := date.day + 1)
    else if date.month < 12 then Date(date.year, date.month + 1, 1)
    else Date(date.year + 1, 1, 1)
  }

  predicate Before(a: Date, b: Date) {
    || a.year < b.year
    || (a.year == b.year && a.month < b.month)
    || (a.year == b.year && a.month == b.month && a.day < b.day)
  }

  /** The leap years up to and including `year`, counted from year 0. */
  function Leaps(year: int): int {
    year / 4 - year / 100 + year / 400
  }

  function DaysBeforeMonth(year: int, month: int): int
    requires 1 <= month <= 12
  {
    if month == 1 then 0 else DaysBeforeMonth(year, month - 1) + DaysInMonth(year, month - 1)
  }

  /** Days from 1970-01-01 to `date`, by counting years, months and days. */
  function DayNumber(date: Date): int
    requires 1 <= date.month <= 12
  {
    365 * (date.year - 1) + Leaps(date.year - 1) + DaysBeforeMonth(date.year, date.month) + date.day - 719_163
  }

  // ---------------------------------------------------------------------------------------------
  // The two implementations
  // ---------------------------------------------------------------------------------------------

  /** Rust's `/` on integers, for a positive divisor. */
  function TruncatingDiv(a: int, b: int): int
    requires b > 0
  {
    if a >= 0 then a / b else -((-a) / b)
  }

  function YearOfEra(dayOfEra: int): int {
    (dayOfEra - dayOfEra / 1460 + dayOfEra / 36_524 - dayOfEra / 146_096) / 365
  }

  /** The month of a day of the year counted from 1 March, and the day in that month. */
  function MonthOf(dayOfYear: int): int {
    var position := (5 * dayOfYear + 2) / 153;
    if position < 10 then position + 3 else position - 9
  }

  function DayOf(dayOfYear: int): int {
    var position := (5 * dayOfYear + 2) / 153;
    dayOfYear - (153 * position + 2) / 5 + 1
  }

  /** The date at a position of a 400-year era that begins on 1 March. */
  function DateInEra(era: int, dayOfEra: int): Date {
    var yearOfEra := YearOfEra(dayOfEra);
    var year := yearOfEra + era * 400;
    var dayOfYear := dayOfEra - (365 * yearOfEra + yearOfEra / 4 - yearOfEra / 100);
    Date(if MonthOf(dayOfYear) <= 2 then year + 1 else year, MonthOf(dayOfYear), DayOf(dayOfYear))
  }

  function CivilFromDays(days: int): Date {
    var shifted := days + 719_468;
    var era := TruncatingDiv(if shifted >= 0 then shifted else shifted - 146_096, 146_097);
    DateInEra(era, shifted - era * 146_097)
  }

  /** The same position in `utc_run_id`, which adds the year's carry arithmetically. */
  function RunIdDateInEra(era: int, dayOfEra: int): Date {
    var yearOfEra := YearOfEra(dayOfEra);
    var dayOfYear := dayOfEra - (365 * yearOfEra + yearOfEra / 4 - yearOfEra / 100);
    var month := MonthOf(dayOfYear);
    Date(yearOfEra + era * 400 + (if month <= 2 then 1 else 0), month, DayOf(dayOfYear))
  }

  /** The date part of `utc_run_id`, which floors the era. */
  function RunIdDate(days: int): Date {
    var shifted := days + 719_468;
    var era := shifted / 146_097;
    RunIdDateInEra(era, shifted - era * 146_097)
  }

  // ---------------------------------------------------------------------------------------------
  // Proofs
  // ---------------------------------------------------------------------------------------------

  /** The two era computations agree on every day, before and after the epoch. */
  lemma EraIsFloor(shifted: int)
    ensures TruncatingDiv(if shifted >= 0 then shifted else shifted - 146_096, 146_097) == shifted / 146_097
  {
    if shifted < 0 {
      var q := (146_096 - shifted) / 146_097;
      assert 146_097 * q <= 146_096 - shifted < 146_097 * (q + 1);
      assert -146_097 * q <= shifted < -146_097 * q + 146_097;
    }
  }

  lemma EraOfDay(days: int) returns (era: int, doe: int)
    ensures 0 <= doe < 146_097 && days == 146_097 * era + doe - 719_468
    ensures era == (days + 719_468) / 146_097 && doe == days + 719_468 - era * 146_097
  {
    var shifted := days + 719_468;
    era, doe := shifted / 146_097, shifted % 146_097;
  }

  lemma CivilUsesTheEra(days: int, era: int, doe: int)
    requires era == (days + 719_468) / 146_097 && doe == days + 719_468 - era * 146_097
    ensures CivilFromDays(days) == DateInEra(era, doe)
  {
    EraIsFloor(days + 719_468);
  }

  lemma ImplementationsAgree(days: int)
    ensures RunIdDate(days) == CivilFromDays(days)
  {
    var era, doe := EraOfDay(days);
    CivilUsesTheEra(days, era, doe);
    assert RunIdDateInEra(era, doe) == DateInEra(era, doe);
  }

  /** The year formula picks the century, the four-year cycle and the year inside the cycle. */
  lemma YearOfEraSplits(doe: int) returns (c: int, q: int, y: int, doy: int)
    requires 0 <= doe < 146_097
    ensures 0 <= c < 4 && 0 <= q < 25 && 0 <= y < 4 && 0 <= doy <= 365
    ensures doe == 36_524 * c + 1461 * q + 365 * y + doy
    ensures YearOfEra(doe) == 100 * c + 4 * q + y
    ensures doy == 365 ==> y == 3 && (q == 24 ==> c == 3)
  {
    c := if doe / 36_524 < 4 then doe / 36_524 else 3;
    var inCentury := doe - 36_524 * c;
    q := if inCentury / 1461 < 25 then inCentury / 1461 else 24;
    var inCycle := inCentury - 1461 * q;
    y := if inCycle / 365 < 4 then inCycle / 365 else 3;
    doy := inCycle - 365 * y;
    assert doe / 36_524 - doe / 146_096 == c;
    var extra := if 24 * c + q + inCycle >= 1460 then 1 else 0;
    assert doe / 1460 == 25 * c + q + extra by {
      assert doe == 1460 * (25 * c + q + extra) + (24 * c + q + inCycle - 1460 * extra);
    }
    assert doe - doe / 1460 + c == 365 * (100 * c + 4 * q) + (inCycle - extra);
    assert (inCycle - extra) / 365 == y;
  }

  /** Days of the year before `month`, counted from 1 March. */
  function MarchOffset(month: int): int
    requires 1 <= month <= 12
  {
    match month
    case 1 => 306 case 2 => 337
    case 3 => 0 case 4 => 31 case 5 => 61 case 6 => 92 case 7 => 122
    case 8 => 153 case 9 => 184 case 10 => 214 case 11 => 245
    case _ => 275
  }

  lemma MarchOffsets(year: int, month: int)
    requires 1 <= month <= 12
    ensures month >= 3 ==>
      DaysBeforeMonth(year, month) == MarchOffset(month) + 59 + (if IsLeap(year) then 1 else 0)
    ensures month <= 2 ==> DaysBeforeMonth(year, month) == MarchOffset(month) - 306
  {
    if month > 1 { MarchOffsets(year, month - 1); }
  }

  lemma MonthOfDay(doy: int)
    requires 0 <= doy <= 365
    ensures var month, day := MonthOf(doy), DayOf(doy);
      && 1 <= month <= 12 && doy == MarchOffset(month) + day - 1 && 1 <= day
      && (month != 2 ==> day <= DaysInMonth(0, month))
      && (month == 2 ==> day <= 29 && (day == 29 <==> doy == 365))
  {
    var mp := (5 * doy + 2) / 153;
    assert 0 <= mp <= 11;
  }

  /** One step up to `year` passes a multiple of `k` exactly when `year` is one. */
  lemma DivStep(year: int, k: int)
    requires k == 4 || k == 100 || k == 400
    ensures year / k == (year - 1) / k + (if year % k == 0 then 1 else 0)
  {
    var q, r := year / k, year % k;
    if k == 4 {
      assert r > 0 ==> year - 1 == 4 * q + (r - 1);
    } else if k == 100 {
      assert r > 0 ==> year - 1 == 100 * q + (r - 1);
    } else {
      assert r > 0 ==> year - 1 == 400 * q + (r - 1);
    }
  }

  lemma HundredTimes(k: int)
    ensures (100 * k) % 100 == 0 && (100 * k) % 4 == 0
  {
    assert 100 * k == 4 * (25 * k);
  }

  lemma Multiples(year: int)
    ensures year % 400 == 0 ==> year % 100 == 0
    ensures year % 100 == 0 ==> year % 4 == 0
  {
    if year % 400 == 0 { HundredTimes(4 * (year / 400)); }
    if year % 100 == 0 { HundredTimes(year / 100); }
  }

  lemma LeapYearsAddUp(year: int)
    ensures Leaps(year) == Leaps(year - 1) + (if IsLeap(year) then 1 else 0)
  {
    DivStep(year, 4);
    DivStep(year, 100);
    DivStep(year, 400);
    Multiples(year);
  }

  lemma LeapsOfEra(era: int, yearOfEra: int)
    requires 0 <= yearOfEra < 400
    ensures Leaps(400 * era + yearOfEra) == 97 * era + yearOfEra / 4 - yearOfEra / 100
  {
    var year := 400 * era + yearOfEra;
    assert year / 4 == 100 * era + yearOfEra / 4 by {
      assert year == 4 * (100 * era + yearOfEra / 4) + yearOfEra % 4;
    }
    assert year / 100 == 4 * era + yearOfEra / 100 by {
      assert year == 100 * (4 * era + yearOfEra / 100) + yearOfEra % 100;
    }
    assert year / 400 == era;
  }

  /** The last year of a four-year cycle ends in a leap day, except in the last cycle of three centuries. */
  lemma CycleEndsInLeapYear(era: int, c: int, q: int)
    requires 0 <= c < 4 && 0 <= q < 25 && (q == 24 ==> c == 3)
    ensures IsLeap(400 * era + 100 * c + 4 * q + 4)
  {
    var year := 400 * era + 100 * c + 4 * q + 4;
    assert year == 4 * (100 * era + 25 * c + q + 1);
    if q == 24 {
      assert year == 400 * (era + 1);
    } else {
      assert year == 100 * (4 * era + c) + (4 * q + 4);
    }
  }

  /** Which date an era position names, in terms of the March-based year and day. */
  lemma EraDate(era: int, doe: int) returns (z: int, doy: int)
    requires 0 <= doe < 146_097
    ensures 0 <= doy <= 365 && (doy == 365 ==> IsLeap(z + 1))
    ensures 365 * z + Leaps(z) + doy == 146_097 * era + doe
    ensures DateInEra(era, doe) == Date(if MonthOf(doy) <= 2 then z + 1 else z, MonthOf(doy), DayOf(doy))
  {
    var c, q, y;
    c, q, y, doy := YearOfEraSplits(doe);
    var yoe := 100 * c + 4 * q + y;
    z := yoe + era * 400;
    assert yoe / 4 == 25 * c + q && yoe / 100 == c;
    LeapsOfEra(era, yoe);
    if doy == 365 { CycleEndsInLeapYear(era, c, q); }
  }

  lemma DateOfMarchYear(z: int, doy: int)
    requires 0 <= doy <= 365 && (doy == 365 ==> IsLeap(z + 1))
    ensures var date := Date(if MonthOf(doy) <= 2 then z + 1 else z, MonthOf(doy), DayOf(doy));
      Valid(date) && DayNumber(date) == 365 * z + Leaps(z) + doy - 719_468
  {
    MonthOfDay(doy);
    var month := MonthOf(doy);
    var date := Date(if month <= 2 then z + 1 else z, month, DayOf(doy));
    LeapYearsAddUp(z);
    MarchOffsets(date.year, month);
  }

  /** `civil_from_days` names a valid date, and that date is the given number of days from the epoch. */
  lemma CivilIsCorrect(days: int)
    ensures Valid(CivilFromDays(days)) && DayNumber(CivilFromDays(days)) == days
  {
    var era, doe := EraOfDay(days);
    CivilUsesTheEra(days, era, doe);
    var z, doy := EraDate(era, doe);
    DateOfMarchYear(z, doy);
  }

  lemma MonthsFitInYear(year: int, month: int)
    requires 1 <= month <= 12
    ensures DaysBeforeMonth(year, month) >= 0
    ensures DaysBeforeMonth(year, month) + DaysInMonth(year, month) <= 365 + (if IsLeap(year) then 1 else 0)
    ensures month == 12 ==> DaysBeforeMonth(year, month) + 31 == 365 + (if IsLeap(year) then 1 else 0)
  {
    MarchOffsets(year, month);
  }

  lemma MonthsIncrease(year: int, a: int, b: int)
    requires 1 <= a < b <= 12
    ensures DaysBeforeMonth(year, a) + DaysInMonth(year, a) <= DaysBeforeMonth(year, b)
  {
    if a < b - 1 { MonthsIncrease(year, a, b - 1); }
  }

  lemma YearsIncrease(a: int, b: int)
    requires a < b
    ensures 365 * a + Leaps(a) <= 365 * (b - 1) + Leaps(b - 1)
    decreases b - a
  {
    LeapYearsAddUp(b - 1);
    if a < b - 1 { YearsIncrease(a, b - 1); }
  }

  /** Later dates have larger day numbers. */
  lemma DayNumberIncreases(a: Date, b: Date)
    requires Valid(a) && Valid(b) && Before(a, b)
    ensures DayNumber(a) < DayNumber(b)
  {
    if a.year < b.year {
      YearsIncrease(a.year, b.year);
      LeapYearsAddUp(a.year);
      MonthsFitInYear(a.year, a.month);
      MonthsFitInYear(b.year, b.month);
    } else if a.month < b.month {
      MonthsIncrease(a.year, a.month, b.month);
    }
  }

  lemma DayNumberIsInjective(a: Date, b: Date)
    requires Valid(a) && Valid(b) && DayNumber(a) == DayNumber(b)
    ensures a == b
  {
    if a != b {
      if Before(a, b) { DayNumberIncreases(a, b); } else { DayNumberIncreases(b, a); }
    }
  }

  lemma SuccessorIsNextDay(date: Date)
    requires Valid(date)
    ensures Valid(Successor(date)) && DayNumber(Successor(date)) == DayNumber(date) + 1
  {
    LeapYearsAddUp(date.year);
    MonthsFitInYear(date.year, date.month);
  }

  /** Dates are equal when they are the same number of days from the epoch. */
  lemma CivilIsTheOnlyDate(days: int, date: Date)
    requires Valid(date) && DayNumber(date) == days
    ensures CivilFromDays(days) == date
  {
    CivilIsCorrect(days);
    DayNumberIsInjective(CivilFromDays(days), date);
  }

  /**
   `civil_from_days` is the calendar: the epoch is 1970-01-01 and each next day is the calendar
   successor of the day before.
   */
  lemma CivilFollowsTheCalendar(days: int)
    ensures CivilFromDays(0) == Date(1970, 1, 1)
    ensures Valid(CivilFromDays(days)) && CivilFromDays(days + 1) == Successor(CivilFromDays(days))
  {
    CivilIsTheOnlyDate(0, Date(1970, 1, 1));
    CivilIsCorrect(days);
    var date := CivilFromDays(days);
    SuccessorIsNextDay(date);
    CivilIsTheOnlyDate(days + 1, Successor(date));
  }

  /** A strictly increasing bijection between days and valid dates, whose inverse is `DayNumber`. */
  lemma CivilIsAnOrderedBijection(a: int, b: int, date: Date)
    requires Valid(date)
    ensures a < b <==> Before(CivilFromDays(a), CivilFromDays(b))
    ensures CivilFromDays(DayNumber(date)) == date
  {
    CivilIsCorrect(a);
    CivilIsCorrect(b);
    var first, second := CivilFromDays(a), CivilFromDays(b);
    if Before(first, second) { DayNumberIncreases(first, second); }
    if Before(second, first) { DayNumberIncreases(second, first); }
    CivilIsTheOnlyDate(DayNumber(date), date);
  }

  // ---------------------------------------------------------------------------------------------
  // Whole stamps
  // ---------------------------------------------------------------------------------------------

  const MS_PER_DAY := 86_400_000

  datatype Stamp = Stamp(date: Date, hour: int, minute: int, second: int)

  function CivilParts(epochMs: int): Stamp {
    var secondOfDay := epochMs % MS_PER_DAY / 1000;
    Stamp(CivilFromDays(epochMs / MS_PER_DAY), secondOfDay / 3600, secondOfDay / 60 % 60, secondOfDay % 60)
  }

  function RunIdStamp(epochMs: int): Stamp {
    var seconds := TruncatingDiv(epochMs, 1000);
    var secondOfDay := seconds % 86_400;
    Stamp(RunIdDate(seconds / 86_400), secondOfDay / 3600, secondOfDay % 3600 / 60, secondOfDay % 60)
  }

  lemma SecondsOfDay(sec: int)
    requires 0 <= sec < 86_400
    ensures 0 <= sec / 3600 < 24 && 0 <= sec / 60 % 60 < 60
    ensures 3600 * (sec / 3600) + 60 * (sec / 60 % 60) + sec % 60 == sec
    ensures sec % 3600 / 60 == sec / 60 % 60
  {
    var h, rest := sec / 3600, sec % 3600;
    assert sec / 60 == 60 * h + rest / 60 by {
      assert sec == 60 * (60 * h + rest / 60) + rest % 60;
    }
  }

  lemma SplitDay(epochMs: int)
    ensures epochMs / 1000 == 86_400 * (epochMs / MS_PER_DAY) + epochMs % MS_PER_DAY / 1000
    ensures epochMs / 1000 / 86_400 == epochMs / MS_PER_DAY
    ensures epochMs / 1000 % 86_400 == epochMs % MS_PER_DAY / 1000
    ensures 0 <= epochMs % MS_PER_DAY / 1000 < 86_400
  {
    var day, ms := epochMs / MS_PER_DAY, epochMs % MS_PER_DAY;
    assert epochMs == 1000 * (86_400 * day + ms / 1000) + ms % 1000;
    assert epochMs / 1000 == 86_400 * day + ms / 1000;
  }

  /** The stamp's fields are in range and together give back the second of the instant. */
  lemma StampKeepsTheSecond(epochMs: int)
    ensures var s := CivilParts(epochMs);
      && Valid(s.date) && 0 <= s.hour < 24 && 0 <= s.minute < 60 && 0 <= s.second < 60
      && 86_400 * DayNumber(s.date) + 3600 * s.hour + 60 * s.minute + s.second == epochMs / 1000
  {
    CivilIsCorrect(epochMs / MS_PER_DAY);
    SplitDay(epochMs);
    SecondsOfDay(epochMs % MS_PER_DAY / 1000);
  }

  /** Both tools name the same second of every instant from the epoch on, which is all a clock reads. */
  lemma StampsAgree(epochMs: nat)
    ensures RunIdStamp(epochMs) == CivilParts(epochMs)
  {
    SplitDay(epochMs);
    SecondsOfDay(epochMs / 1000 % 86_400);
    ImplementationsAgree(epochMs / MS_PER_DAY);
  }

}
