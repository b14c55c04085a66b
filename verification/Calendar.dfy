/** `days_from_civil`: a closed-form day count, against the calendar it stands for. The calendar is
    the proleptic Gregorian one, walked a day at a time. */
module Calendar {
  import opened Gregorian

  // ---- the closed form ----

  /** Rust's `/` on signed integers: towards zero. */
  function TruncDiv(a: int, b: int): int
    requires b > 0
  {
    if a >= 0 then a / b else -(-a / b)
  }

  function ShiftedYear(year: int, month: int): int { if month <= 2 then year - 1 else year }

  function Era(y: int): int { TruncDiv(if y >= 0 then y else y - 399, 400) }

  function YearOfEra(y: int): int { y - Era(y) * 400 }

  function DayOfYear(month: int, day: int): int {
    (153 * (if month > 2 then month - 3 else month + 9) + 2) / 5 + day - 1
  }

  function DayOfEra(y: int, month: int, day: int): int {
    var yoe := YearOfEra(y);
    yoe * 365 + yoe / 4 - yoe / 100 + DayOfYear(month, day)
  }

  /** `days_from_civil` in exact integer arithmetic. */
  function DaysFromCivil(year: int, month: int, day: int): int {
    var y := ShiftedYear(year, month);
    Era(y) * 146_097 + DayOfEra(y, month, day) - 719_468
  }

  function DayCount(d: Date): int { DaysFromCivil(d.year, d.month, d.day) }

  /** The truncating division, with its correction for negative years, rounds down. */
  lemma EraIsFloor(y: int)
    ensures Era(y) == y / 400
    ensures 400 * Era(y) <= y < 400 * Era(y) + 400
  {
  }

  /** Whole years: 365 days each, plus one for every leap day passed. */
  function DaysBeforeYear(y: int): int { 365 * y + y / 4 - y / 100 + y / 400 }

  lemma DaysFromCivilSplit(year: int, month: int, day: int)
    ensures var y := ShiftedYear(year, month);
            DaysFromCivil(year, month, day) == DaysBeforeYear(y) + DayOfYear(month, day) - 719_468
  {
    var y := ShiftedYear(year, month);
    var era, yoe := Era(y), YearOfEra(y);
    EraIsFloor(y);
    assert y == 400 * era + yoe;
    assert y / 4 == 100 * era + yoe / 4;
    assert y / 100 == 4 * era + yoe / 100;
  }

  lemma LeapDayPassed(y: int)
    ensures DaysBeforeYear(y) - DaysBeforeYear(y - 1) == if IsLeap(y) then 366 else 365
  {
    Every4(y);
    Every100(y);
    Every400(y);
    MultipleOf100(y);
    MultipleOf400(y);
  }

  lemma MultipleOf100(y: int)
    ensures y % 100 == 0 ==> y % 4 == 0
  {
    var q := y / 100;
    if y % 100 == 0 {
      assert y == 4 * (25 * q);
    }
  }

  lemma MultipleOf400(y: int)
    ensures y % 400 == 0 ==> y % 100 == 0
  {
    var q := y / 400;
    if y % 400 == 0 {
      assert y == 100 * (4 * q);
    }
  }

  lemma Every4(y: int)
    ensures y / 4 - (y - 1) / 4 == if y % 4 == 0 then 1 else 0
  {
  }

  lemma Every100(y: int)
    ensures y / 100 - (y - 1) / 100 == if y % 100 == 0 then 1 else 0
  {
  }

  lemma Every400(y: int)
    ensures y / 400 - (y - 1) / 400 == if y % 400 == 0 then 1 else 0
  {
  }

  /** Days from 1 March to the first of a month: what the 153-day trick computes. */
  function MonthOffset(month: int): int {
    match month
    case 3 => 0
    case 4 => 31
    case 5 => 61
    case 6 => 92
    case 7 => 122
    case 8 => 153
    case 9 => 184
    case 10 => 214
    case 11 => 245
    case 12 => 275
    case 1 => 306
    case _ => 337
  }

  lemma MonthTrick(month: int, day: int)
    requires 1 <= month <= 12
    ensures DayOfYear(month, day) == MonthOffset(month) + day - 1
  {
  }

  /** Days of the calendar year before the first of a month. */
  function MonthStart(year: int, month: int): int {
    if month <= 2 then MonthOffset(month) - 306
    else MonthOffset(month) + (if IsLeap(year) then 60 else 59)
  }

  function YearLength(year: int): int { if IsLeap(year) then 366 else 365 }

  /** Days from the epoch to the first of January. */
  function YearStart(year: int): int { DaysBeforeYear(year - 1) + 306 - 719_468 }

  lemma YearStartsAbut(year: int)
    ensures YearStart(year + 1) == YearStart(year) + YearLength(year)
  {
    LeapDayPassed(year);
  }

  /** The count by tables of years and months. */
  lemma CountByTables(d: Date)
    requires IsReal(d)
    ensures DayCount(d) == YearStart(d.year) + MonthStart(d.year, d.month) + d.day - 1
  {
    DaysFromCivilSplit(d.year, d.month, d.day);
    MonthTrick(d.month, d.day);
    LeapDayPassed(d.year);
  }

  lemma MonthsAbut(year: int, month: int)
    requires 1 <= month <= 12
    ensures MonthStart(year, month) + DaysInMonth(year, month) ==
            if month == 12 then YearLength(year) else MonthStart(year, month + 1)
  {
  }

  /** The next calendar day always counts exactly one more. */
  lemma NextCountsOne(d: Date)
    requires IsReal(d)
    ensures DayCount(Next(d)) == DayCount(d) + 1
  {
    var n := Next(d);
    CountByTables(d);
    CountByTables(n);
    NextByTables(d);
  }

  lemma NextByTables(d: Date)
    requires IsReal(d)
    ensures var n := Next(d);
            YearStart(n.year) + MonthStart(n.year, n.month) + n.day ==
              YearStart(d.year) + MonthStart(d.year, d.month) + d.day + 1
  {
    if d.day == DaysInMonth(d.year, d.month) {
      MonthsAbut(d.year, d.month);
      YearStartsAbut(d.year);
      assert MonthStart(d.year + 1, 1) == 0;
    }
  }

  /** From `d` to the next day, `count` grows by one. */
  ghost predicate CountsStep(count: Date -> int, d: Date) {
    IsReal(d) ==> count(Next(d)) == count(d) + 1
  }

  ghost predicate CountsSteps(count: Date -> int) { forall d :: CountsStep(count, d) }

  lemma DayCountCountsSteps()
    ensures CountsSteps(DayCount)
  {
    forall d ensures CountsStep(DayCount, d) {
      if IsReal(d) {
        NextCountsOne(d);
      }
    }
  }

  lemma {:induction false} WalkAdds(count: Date -> int, n: int)
    requires CountsSteps(count)
    ensures count(DateAt(n)) == count(EPOCH) + n
    decreases Distance(n)
  {
    if n > 0 {
      WalkAdds(count, n - 1);
      assert CountsStep(count, DateAt(n - 1));
    } else if n < 0 {
      WalkAdds(count, n + 1);
      assert CountsStep(count, DateAt(n));
    }
  }

  /** The closed form is the day-by-day count, on both sides of the epoch. */
  lemma CountMatchesCalendar(n: int)
    ensures DayCount(DateAt(n)) == n
  {
    DayCountCountsSteps();
    EpochCountsZero();
    WalkAdds(DayCount, n);
  }

  lemma EpochCountsZero()
    ensures DayCount(EPOCH) == 0
  {
  }

  lemma {:induction false} MonthEnds(year: int, m: int, n: int)
    requires 1 <= m < n <= 12
    ensures MonthStart(year, m) + DaysInMonth(year, m) <= MonthStart(year, n)
    decreases n
  {
    MonthsAbut(year, n - 1);
    if m < n - 1 {
      MonthEnds(year, m, n - 1);
    }
  }

  lemma {:induction false} YearEnds(y: int, z: int)
    requires y < z
    ensures YearStart(y) + YearLength(y) <= YearStart(z)
    decreases z - y
  {
    YearStartsAbut(z - 1);
    if y < z - 1 {
      YearEnds(y, z - 1);
    }
  }

  /** A date falls inside its own year. */
  lemma InsideYear(d: Date)
    requires IsReal(d)
    ensures YearStart(d.year) <= DayCount(d) < YearStart(d.year) + YearLength(d.year)
    ensures DayCount(d) == YearStart(d.year) + MonthStart(d.year, d.month) + d.day - 1
  {
    CountByTables(d);
    MonthsAbut(d.year, d.month);
    if d.month < 12 {
      MonthEnds(d.year, d.month, 12);
      MonthsAbut(d.year, 12);
    }
    if 1 < d.month {
      MonthEnds(d.year, 1, d.month);
    }
  }

  /** Later real dates count strictly more. */
  lemma CountIsMonotone(d: Date, e: Date)
    requires IsReal(d) && IsReal(e) && Before(d, e)
    ensures DayCount(d) < DayCount(e)
  {
    InsideYear(d);
    InsideYear(e);
    if d.year < e.year {
      YearEnds(d.year, e.year);
    } else if d.month < e.month {
      MonthEnds(d.year, d.month, e.month);
    }
  }

  /** So the count is a bijection between real dates and integers, with `DateAt` its inverse. */
  lemma CountIsBijective(d: Date)
    requires IsReal(d)
    ensures DateAt(DayCount(d)) == d
  {
    var e := DateAt(DayCount(d));
    CountMatchesCalendar(DayCount(d));
    if Before(d, e) {
      CountIsMonotone(d, e);
    } else if Before(e, d) {
      CountIsMonotone(e, d);
    }
  }

  /** A day past the end of its month counts as that many days after the first. */
  lemma {:induction false} OverflowRollsOver(year: int, month: int, day: int)
    requires 1 <= month <= 12 && 1 <= day
    ensures DateAt(DaysFromCivil(year, month, day)) == Later(Date(year, month, 1), day - 1)
  {
    var first := Date(year, month, 1);
    LaterCounts(first, day - 1);
    DayAddsOn(year, month, day);
    CountIsBijective(Later(first, day - 1));
  }

  lemma DayAddsOn(year: int, month: int, day: int)
    requires 1 <= month <= 12
    ensures DaysFromCivil(year, month, day) == DayCount(Date(year, month, 1)) + (day - 1)
  {
    DaysFromCivilSplit(year, month, day);
    DaysFromCivilSplit(year, month, 1);
  }

  lemma {:induction false} StepsAdd(count: Date -> int, d: Date, n: nat)
    requires IsReal(d)
    requires CountsSteps(count)
    ensures count(Later(d, n)) == count(d) + n
  {
    if n > 0 {
      StepsAdd(count, d, n - 1);
      assert CountsStep(count, Later(d, n - 1));
    }
  }

  lemma LaterCounts(d: Date, n: nat)
    requires IsReal(d)
    ensures DayCount(Later(d, n)) == DayCount(d) + n
  {
    DayCountCountsSteps();
    StepsAdd(DayCount, d, n);
  }

  /** The ranges the intermediate values are documented to stay in hold for every real date. Day
      numbers up to 31 are accepted in every month, and then they hold exactly off 30 and 31
      February, respectively off those days in the last year of an era. */
  lemma IntermediateRanges(year: int, month: int, day: int)
    requires 1 <= month <= 12 && 1 <= day <= 31
    ensures var y := ShiftedYear(year, month);
            && 0 <= YearOfEra(y) <= 399
            && (0 <= DayOfYear(month, day) <= 365 <==> !(month == 2 && day > 29))
            && (0 <= DayOfEra(y, month, day) <= 146_096 <==> !(month == 2 && day > 29 && YearOfEra(y) == 399))
    ensures IsReal(Date(year, month, day)) ==>
              0 <= DayOfYear(month, day) <= 365 && 0 <= DayOfEra(ShiftedYear(year, month), month, day) <= 146_096
  {
    var y := ShiftedYear(year, month);
    EraIsFloor(y);
    DayOfYearRange(month, day);
    var yoe := YearOfEra(y);
    assert yoe < 399 ==> yoe * 365 + yoe / 4 - yoe / 100 <= 398 * 365 + 99 - 3;
  }

  lemma DayOfYearRange(month: int, day: int)
    requires 1 <= month <= 12 && 1 <= day <= 31
    ensures 0 <= DayOfYear(month, day) <= 367
    ensures DayOfYear(month, day) <= 365 <==> !(month == 2 && day > 29)
  {
  }
}
