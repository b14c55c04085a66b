/** `parse_locomo_datetime`: from prose dates such as "1:56 pm on 8 May, 2023" to unix nanoseconds
    at midnight UTC, in the 64-bit arithmetic the source uses. */
module LocomoDate {
  import opened Wrappers
  import opened Words
  import opened Text
  import opened Gregorian
  import opened Calendar

  const NANOS_PER_DAY := 86_400 * 1_000_000_000
  const LAST_DAY := 106_751

  // ---- the count in i64 ----

  function Era64(y: int): int { TruncDiv(if y >= 0 then y else Wrap(y - 399), 400) }

  function YearOfEra64(y: int): int { Wrap(y - Wrap(Era64(y) * 400)) }

  function Total64(era: int, doe: int): int { Wrap(Wrap(Wrap(era * 146_097) + doe) - 719_468) }

  function DayOfEra64(yoe: int, month: int, day: int): int {
    Wrap(Wrap(Wrap(yoe * 365) + yoe / 4) - yoe / 100 + DayOfYear(month, day))
  }

  /** `days_from_civil`, every operation wrapping. */
  function DaysFromCivil64(year: int, month: int, day: int): int {
    FromShifted64(if month <= 2 then Wrap(year - 1) else year, month, day)
  }

  function FromShifted64(y: int, month: int, day: int): int {
    Total64(Era64(y), DayOfEra64(YearOfEra64(y), month, day))
  }

  /** Shifted years close enough to the bottom of i64 that the shift or the floor correction wraps. */
  predicate NearMinimum(year: int, month: int) { ShiftedYear(year, month) < I64_MIN + 399 }

  lemma TotalExact(era: int, doe: int)
    ensures Total64(era, doe) == Wrap(era * 146_097 + doe - 719_468)
  {
    WrapAbsorbs(era * 146_097, doe);
    WrapAbsorbs(era * 146_097 + doe, -719_468);
  }

  lemma EraExact(y: int)
    requires FitsI64(y) && FitsI64(y - 399)
    ensures Era64(y) == Era(y) && YearOfEra64(y) == YearOfEra(y)
    ensures 0 <= YearOfEra(y) <= 399
  {
    EraIsFloor(y);
    assert FitsI64(Era(y) * 400);
  }

  lemma DayOfEraExact(y: int, month: int, day: int)
    requires 1 <= month <= 12 && 1 <= day <= 31 && 0 <= YearOfEra(y) <= 399
    ensures DayOfEra64(YearOfEra(y), month, day) == DayOfEra(y, month, day)
  {
    DayOfYearRange(month, day);
    var yoe := YearOfEra(y);
    assert FitsI64(yoe * 365) && FitsI64(yoe * 365 + yoe / 4);
  }

  lemma PartsExact(y: int, month: int, day: int)
    requires FitsI64(y) && FitsI64(y - 399) && 1 <= month <= 12 && 1 <= day <= 31
    ensures FromShifted64(y, month, day) == Wrap(Era(y) * 146_097 + DayOfEra(y, month, day) - 719_468)
  {
    EraExact(y);
    DayOfEraExact(y, month, day);
    TotalExact(Era(y), DayOfEra(y, month, day));
  }

  lemma SmallPartsExact(year: int, month: int, day: int)
    requires FitsI64(year) && 1 <= month <= 12 && 1 <= day <= 31 && !NearMinimum(year, month)
    ensures DaysFromCivil64(year, month, day) == Wrap(DaysFromCivil(year, month, day))
  {
    PartsExact(ShiftedYear(year, month), month, day);
    ShiftFits(year, month);
  }

  lemma ShiftFits(year: int, month: int)
    requires FitsI64(year) && !NearMinimum(year, month)
    ensures (if month <= 2 then Wrap(year - 1) else year) == ShiftedYear(year, month)
  {
  }

  lemma CountBelow(year: int, month: int, day: int)
    requires year <= 0 && 1 <= month <= 12 && 1 <= day <= 31
    ensures DaysFromCivil(year, month, day) <= 365 * year
  {
    var y := ShiftedYear(year, month);
    DaysFromCivilSplit(year, month, day);
    DayOfYearRange(month, day);
    assert y / 4 - y / 100 + y / 400 <= 0;
  }

  /** The machine count is the true day count exactly when the true count fits in an i64. */
  lemma MachineCountExact(year: int, month: int, day: int)
    requires FitsI64(year) && 1 <= month <= 12 && 1 <= day <= 31
    ensures DaysFromCivil64(year, month, day) == DaysFromCivil(year, month, day) <==>
            FitsI64(DaysFromCivil(year, month, day))
  {
    if NearMinimum(year, month) {
      CountBelow(year, month, day);
    } else {
      SmallPartsExact(year, month, day);
    }
  }

  const FIRST_EXACT := Date(-25_252_734_927_764_585, 6, 7)
  const LAST_EXACT := Date(25_252_734_927_768_524, 7, 27)

  /** For real dates: exactly from 7 June of one year to 27 July of another. */
  lemma MachineCountExactBetween(d: Date)
    requires IsReal(d) && FitsI64(d.year)
    ensures DaysFromCivil64(d.year, d.month, d.day) == DayCount(d) <==>
            !Before(d, FIRST_EXACT) && !Before(LAST_EXACT, d)
  {
    MachineCountExact(d.year, d.month, d.day);
    FirstExactCounts();
    LastExactCounts();
    InCountOrder(FIRST_EXACT, d);
    InCountOrder(d, LAST_EXACT);
  }

  lemma FirstExactCounts()
    ensures IsReal(FIRST_EXACT) && DayCount(FIRST_EXACT) == I64_MIN
  {
  }

  lemma LastExactCounts()
    ensures IsReal(LAST_EXACT) && DayCount(LAST_EXACT) == I64_MAX
  {
  }

  lemma InCountOrder(d: Date, e: Date)
    requires IsReal(d) && IsReal(e)
    ensures DayCount(d) <= DayCount(e) <==> !Before(e, d)
  {
    if Before(d, e) {
      CountIsMonotone(d, e);
    } else if Before(e, d) {
      CountIsMonotone(e, d);
    }
  }

  // ---- the years at the bottom of i64 ----

  lemma TrueCountNearMinimum(year: int, month: int, day: int)
    requires FitsI64(year) && 1 <= month <= 12 && 1 <= day <= 31 && NearMinimum(year, month)
    ensures Wrap(DaysFromCivil(year, month, day)) > LAST_DAY
  {
    var y := ShiftedYear(year, month);
    DaysFromCivilSplit(year, month, day);
    DayOfYearRange(month, day);
    YearsNearMinimum(y);
    WrapTurns(DaysFromCivil(year, month, day), -183);
  }

  lemma YearsNearMinimum(y: int)
    requires I64_MIN - 1 <= y < I64_MIN + 399
    ensures 0 < DaysBeforeYear(y) + 183 * 0x1_0000_0000_0000_0000 - 1_000_000
    ensures DaysBeforeYear(y) + 183 * 0x1_0000_0000_0000_0000 <= I64_MAX - 1_000_000
  {
  }

  /** The era and year of era the wrapped correction gives: an era at the top, and a year up to 798. */
  lemma EraNearMinimum(y: int)
    requires I64_MIN <= y < I64_MIN + 399
    ensures 23_058_430_092_136_938 <= Era64(y) <= 23_058_430_092_136_939 && 399 <= YearOfEra64(y) <= 798
  {
    var z := y - 399 + 0x1_0000_0000_0000_0000;
    WrapTurns(y - 399, -1);
    assert Wrap(y - 399) == z && Era64(y) == z / 400;
    assert FitsI64(Era64(y) * 400);
    WrapTurns(y - Era64(y) * 400, -1);
  }

  lemma DayOfEraNear(yoe: int, month: int, day: int)
    requires 0 <= yoe <= 798 && 1 <= month <= 12 && 1 <= day <= 31
    ensures 0 <= DayOfEra64(yoe, month, day) <= 300_000
  {
    DayOfYearRange(month, day);
  }

  /** The years the shift and the correction can leave. */
  predicate IsShiftedNear(y: int) { y == I64_MAX || I64_MIN <= y < I64_MIN + 399 }

  lemma ShiftedNear(year: int, month: int)
    requires FitsI64(year) && NearMinimum(year, month)
    ensures IsShiftedNear(if month <= 2 then Wrap(year - 1) else year)
  {
    if year == I64_MIN && month <= 2 {
      WrapTurns(year - 1, -1);
    }
  }

  lemma EraNear(y: int)
    requires IsShiftedNear(y)
    ensures 23_058_430_092_136_938 <= Era64(y) <= 23_058_430_092_136_939 && 0 <= YearOfEra64(y) <= 798
  {
    if y != I64_MAX {
      EraNearMinimum(y);
    }
  }

  lemma TotalNear(era: int, doe: int)
    requires 23_058_430_092_136_938 <= era <= 23_058_430_092_136_939 && 0 <= doe <= 300_000
    ensures !(0 <= Total64(era, doe) <= LAST_DAY)
  {
    TotalExact(era, doe);
    WrapTurns(era * 146_097 + doe - 719_468, 183);
  }

  lemma MachineCountNearMinimum(year: int, month: int, day: int)
    requires FitsI64(year) && 1 <= month <= 12 && 1 <= day <= 31 && NearMinimum(year, month)
    ensures !(0 <= DaysFromCivil64(year, month, day) <= LAST_DAY)
  {
    var y := if month <= 2 then Wrap(year - 1) else year;
    ShiftedNear(year, month);
    EraNear(y);
    DayOfEraNear(YearOfEra64(y), month, day);
    TotalNear(Era64(y), DayOfEra64(YearOfEra64(y), month, day));
  }

  // ---- the checked conversion ----

  function CheckedMul(a: int, b: int): Option<int> {
    if FitsI64(a * b) then Some(a * b) else None
  }

  function ToNanos(days: int): Option<nat> {
    match CheckedMul(days, 86_400)
    case None => None
    case Some(secs) =>
      match CheckedMul(secs, 1_000_000_000)
      case None => None
      case Some(nanos) => if nanos < 0 then None else Some(nanos)
  }

  lemma ToNanosExact(days: int)
    ensures ToNanos(days) == if 0 <= days <= LAST_DAY then Some(days * NANOS_PER_DAY) else None
  {
  }

  // ---- the text ----

  function MonthFromName(name: string): (r: Option<int>)
    ensures r.Some? ==> 1 <= r.value <= 12
  {
    MonthOf(Lower(name))
  }

  function MonthOf(n: string): (r: Option<int>)
    ensures r.Some? ==> 1 <= r.value <= 12
  {
    if n == "january" || n == "jan" then Some(1)
    else if n == "february" || n == "feb" then Some(2)
    else if n == "march" || n == "mar" then Some(3)
    else if n == "april" || n == "apr" then Some(4)
    else if n == "may" then Some(5)
    else if n == "june" || n == "jun" then Some(6)
    else if n == "july" || n == "jul" then Some(7)
    else if n == "august" || n == "aug" then Some(8)
    else if n == "september" || n == "sep" || n == "sept" then Some(9)
    else if n == "october" || n == "oct" then Some(10)
    else if n == "november" || n == "nov" then Some(11)
    else if n == "december" || n == "dec" then Some(12)
    else None
  }

  /** `trim_end_matches(',')`. */
  function TrimCommas(s: string): string {
    if s != "" && s[|s| - 1] == ',' then TrimCommas(s[..|s| - 1]) else s
  }

  /** What follows the last " on ", or everything. */
  function DatePart(s: string): string {
    match RFind(s, " on ")
    case Some(i) => Trim(s[i + 4..])
    case None => Trim(s)
  }

  /** The three numbers of a well-formed date, before any range check. */
  function Fields(tokens: seq<string>): Option<(nat, int, int)> {
    if |tokens| != 3 then None
    else
      match (ParseU32(tokens[0]), MonthFromName(TrimCommas(tokens[1])), ParseI64(tokens[2]))
      case (Some(day), Some(month), Some(year)) => Some((day, month, year))
      case _ => None
  }

  function ParseFields(f: Option<(nat, int, int)>): Option<nat> {
    match f
    case None => None
    case Some((day, month, year)) =>
      if !(1 <= day <= 31) || !(1 <= month <= 12) then None
      else ToNanos(DaysFromCivil64(year, month, day))
  }

  function ParseDatetime(s: string): Option<nat> {
    ParseFields(Fields(Tokens(DatePart(s))))
  }

  lemma FieldsInRange(tokens: seq<string>)
    requires Fields(tokens).Some?
    ensures FitsI64(Fields(tokens).value.2) && 1 <= Fields(tokens).value.1 <= 12
  {
  }

  lemma FieldsParseExactly(day: nat, month: int, year: int)
    requires FitsI64(year) && 1 <= month <= 12
    ensures var days := Wrap(DaysFromCivil(year, month, day));
            ParseFields(Some((day, month, year))) == if 1 <= day <= 31 &&
              0 <= days <= LAST_DAY then Some(days * NANOS_PER_DAY) else None
  {
    if 1 <= day <= 31 {
      if NearMinimum(year, month) {
        MachineCountNearMinimum(year, month, day);
        TrueCountNearMinimum(year, month, day);
      } else {
        SmallPartsExact(year, month, day);
      }
      ToNanosExact(DaysFromCivil64(year, month, day));
    }
  }

  /** What every well-formed date reads as: the day count taken round the 64-bit circle is accepted
      exactly from 0 to 106 751, with the nanoseconds of that many days. */
  lemma AcceptedExactly(s: string)
    requires Fields(Tokens(DatePart(s))).Some?
    ensures var (day, month, year) := Fields(Tokens(DatePart(s))).value;
            var days := Wrap(DaysFromCivil(year, month, day));
            ParseDatetime(s) == if 1 <= day <= 31 && 0 <= days <= LAST_DAY then Some(days * NANOS_PER_DAY) else None
  {
    var (day, month, year) := Fields(Tokens(DatePart(s))).value;
    FieldsInRange(Tokens(DatePart(s)));
    FieldsParseExactly(day, month, year);
  }

  /** Only well-formed texts are accepted: a day in 1..31, a month by one of its spellings with any commas
      after it, and a year, with nothing before or behind. */
  lemma AcceptedIsWellFormed(s: string)
    requires ParseDatetime(s).Some?
    ensures var tokens := Tokens(DatePart(s));
            && |tokens| == 3 && ParseU32(tokens[0]).Some? && 1 <= ParseU32(tokens[0]).value <= 31
            && (exists month :: 1 <= month <= 12 && Spells(Lower(TrimCommas(tokens[1])), month))
            && ParseI64(tokens[2]).Some?
            && Fields(tokens).value.0 == ParseU32(tokens[0]).value
            && Fields(tokens).value.2 == ParseI64(tokens[2]).value
  {
    var tokens := Tokens(DatePart(s));
    KnownIsSpelled(Lower(TrimCommas(tokens[1])));
  }

  /** The time a date stands for, if it can be represented. */
  function Meant(day: int, month: int, year: int): Option<nat> {
    var days := DaysFromCivil(year, month, day);
    if 1 <= day <= 31 && 0 <= days <= LAST_DAY then Some(days * NANOS_PER_DAY) else None
  }

  /** A well-formed date reads as what it stands for exactly when its day number is refused, its count
      fits an i64, or its count wraps round to a day that is refused. */
  lemma ReadAsMeantExactly(s: string)
    requires Fields(Tokens(DatePart(s))).Some?
    ensures var (day, month, year) := Fields(Tokens(DatePart(s))).value;
            var days := DaysFromCivil(year, month, day);
            ParseDatetime(s) == Meant(day, month, year) <==>
            !(1 <= day <= 31) || FitsI64(days) || !(0 <= Wrap(days) <= LAST_DAY)
  {
    AcceptedExactly(s);
  }

  lemma MidnightOf(d: Date, x: nat)
    requires IsReal(d) && FitsI64(d.year) && FitsI64(DayCount(d))
    requires ParseFields(Some((d.day, d.month, d.year))) == Some(x)
    ensures x == DayCount(d) * NANOS_PER_DAY
  {
    FieldsParseExactly(d.day, d.month, d.year);
  }

  lemma DaysApart(a: int, b: int)
    requires a < b
    ensures a * NANOS_PER_DAY + NANOS_PER_DAY <= b * NANOS_PER_DAY
  {
  }

  /** Accepted real dates are ordered as their instants are, a whole number of days apart. */
  lemma AcceptedDatesOrdered(d: Date, e: Date, x: nat, y: nat)
    requires IsReal(d) && IsReal(e) && Before(d, e)
    requires FitsI64(d.year) && FitsI64(e.year) && FitsI64(DayCount(d)) && FitsI64(DayCount(e))
    requires ParseFields(Some((d.day, d.month, d.year))) == Some(x)
    requires ParseFields(Some((e.day, e.month, e.year))) == Some(y)
    ensures x + NANOS_PER_DAY <= y
  {
    var a, b := DayCount(d), DayCount(e);
    assert x == a * NANOS_PER_DAY by { MidnightOf(d, x); }
    assert y == b * NANOS_PER_DAY by { MidnightOf(e, y); }
    assert a < b by { CountIsMonotone(d, e); }
    DaysApart(a, b);
  }

  // ---- a clock time in front changes nothing ----

  lemma OccursShift(u: string, d: string, pat: string, k: nat)
    ensures OccursAt(u + d, pat, |u| + k) <==> OccursAt(d, pat, k)
  {
    if k <= |d| - |pat| {
      assert (u + d)[|u| + k..|u| + k + |pat|] == d[k..k + |pat|];
    }
  }

  lemma RFindInSuffix(u: string, d: string, pat: string)
    requires Occurs(d, pat)
    ensures RFind(d, pat).Some? && RFind(u + d, pat) == Some(|u| + RFind(d, pat).value)
  {
    var i := RFind(d, pat).value;
    OccursShift(u, d, pat, i);
    var r := RFind(u + d, pat).value;
    assert |u| + i <= r;
    OccursShift(u, d, pat, r - |u|);
  }

  lemma OnAt(s: string, j: nat)
    ensures OccursAt(s, " on ", j) <==>
            j + 4 <= |s| && s[j] == ' ' && s[j + 1] == 'o' && s[j + 2] == 'n' && s[j + 3] == ' '
  {
    if j + 4 <= |s| {
      assert s[j..j + 4] == [s[j], s[j + 1], s[j + 2], s[j + 3]];
    }
  }

  predicate StartsOn(d: string) { 3 <= |d| && d[0] == 'o' && d[1] == 'n' && d[2] == ' ' }

  lemma NoLaterOn(p: string, d: string, j: nat)
    requires !Occurs(d, " on ") && |p| < j && !StartsOn(d)
    ensures !OccursAt(p + " on " + d, " on ", j)
  {
    OnAt(p + " on " + d, j);
    if |p| + 4 <= j {
      OccursShift(p + " on ", d, " on ", j - |p| - 4);
    }
  }

  lemma LastOnIsOurs(p: string, d: string)
    requires !Occurs(d, " on ") && !StartsOn(d)
    ensures RFind(p + " on " + d, " on ") == Some(|p|)
  {
    var s := p + " on " + d;
    OnAt(s, |p|);
    assert OccursAt(s, " on ", |p|);
    var r := RFind(s, " on ").value;
    if |p| < r {
      NoLaterOn(p, d, r);
    }
  }

  lemma OnIsNoDate(d: string)
    requires StartsOn(d) && !Occurs(d, " on ")
    ensures ParseDatetime(d) == None
  {
    var t := TrimEnd(d);
    TrimEndPrefix(d);
    TrimEndKeeps(d, 1);
    var rest := t[2..];
    assert t == "on" + rest;
    if rest != "" { assert rest[0] == d[2]; }
    TokenLengthExact("on", rest);
    assert TrimStart(d) == d && TrimStart(t) == t;
    assert t[..2] == "on";
    assert Tokens(t)[0] == "on";
    assert "on"[..1] == "o" && DigitsValue("on") == None;
  }

  lemma {:induction false} TrimEndPrefix(s: string)
    ensures TrimEnd(s) <= s
  {
    if s != "" && IsSpace(s[|s| - 1]) {
      TrimEndPrefix(s[..|s| - 1]);
    }
  }

  lemma {:induction false} TrimEndKeeps(s: string, i: nat)
    requires i < |s| && !IsSpace(s[i])
    ensures i < |TrimEnd(s)|
  {
    if IsSpace(s[|s| - 1]) {
      TrimEndKeeps(s[..|s| - 1], i);
    }
  }

  lemma SameDatePart(p: string, d: string)
    requires Occurs(d, " on ") || !StartsOn(d)
    ensures DatePart(p + " on " + d) == DatePart(d)
  {
    var s := p + " on " + d;
    if Occurs(d, " on ") {
      RFindInSuffix(p + " on ", d, " on ");
      var i := RFind(d, " on ").value;
      assert s[|p| + 4 + i + 4..] == d[i + 4..];
    } else {
      LastOnIsOurs(p, d);
      assert s[|p| + 4..] == d;
    }
  }

  /** `p + " on " + d` reads the same as `d`, for every prefix and every accepted date. */
  lemma ClockPrefixIgnored(p: string, d: string)
    requires ParseDatetime(d).Some?
    ensures ParseDatetime(p + " on " + d) == ParseDatetime(d)
  {
    if !Occurs(d, " on ") && StartsOn(d) {
      OnIsNoDate(d);
    }
    SameDatePart(p, d);
  }

  // ---- every date in range can be written down ----

  lemma DecimalParsesI64(n: nat)
    ensures ParseI64(Decimal(n)) == if n <= I64_MAX then Some(n) else None
  {
    DecimalReadsBack(n);
  }

  lemma DecimalParsesU32(n: nat)
    ensures ParseU32(Decimal(n)) == if n <= U32_MAX then Some(n) else None
  {
    DecimalReadsBack(n);
  }

  lemma DecimalParses(n: nat)
    ensures ParseI64(Decimal(n)) == if n <= I64_MAX then Some(n) else None
    ensures ParseU32(Decimal(n)) == if n <= U32_MAX then Some(n) else None
    ensures NoSpace(Decimal(n))
  {
    DecimalParsesI64(n);
    DecimalParsesU32(n);
    DecimalReadsBack(n);
  }

  function Written(day: nat, monthToken: string, year: nat): string {
    Decimal(day) + [' '] + (monthToken + [' '] + Decimal(year))
  }

  lemma WrittenTokens(day: nat, tok: string, year: nat)
    requires tok != "" && NoSpace(tok)
    ensures Tokens(Written(day, tok, year)) == [Decimal(day), tok, Decimal(year)]
  {
    DecimalParses(day);
    DecimalParses(year);
    FirstToken(Decimal(day), ' ', tok + [' '] + Decimal(year));
    FirstToken(tok, ' ', Decimal(year));
    OnlyToken(Decimal(year));
  }

  /** The only spaces in a written date are around its month. */
  lemma WrittenSpaces(day: nat, tok: string, year: nat, i: nat)
    requires NoSpace(tok) && i < |Written(day, tok, year)|
    requires i != |Decimal(day)| && i != |Decimal(day)| + 1 + |tok|
    ensures !IsSpace(Written(day, tok, year)[i])
  {
    var a := |Decimal(day)|;
    DecimalParses(day);
    DecimalParses(year);
    if i < a {
      assert Written(day, tok, year)[i] == Decimal(day)[i];
    } else if i < a + 1 + |tok| {
      assert Written(day, tok, year)[i] == tok[i - a - 1];
    } else {
      assert Written(day, tok, year)[i] == Decimal(year)[i - a - 2 - |tok|];
    }
  }

  lemma WrittenHasNoOn(day: nat, tok: string, year: nat, j: nat)
    requires NoSpace(tok) && tok != "on"
    ensures !OccursAt(Written(day, tok, year), " on ", j)
  {
    var s, a := Written(day, tok, year), |Decimal(day)|;
    OnAt(s, j);
    if j + 4 <= |s| {
      if j != a && j != a + 1 + |tok| {
        WrittenSpaces(day, tok, year, j);
      } else if j == a && |tok| == 2 {
        assert tok == [tok[0], tok[1]];
        assert s[a + 1] == tok[0] && s[a + 2] == tok[1];
      } else {
        WrittenSpaces(day, tok, year, j + 3);
      }
    }
  }

  lemma WrittenDatePart(day: nat, tok: string, year: nat)
    requires NoSpace(tok) && tok != "on"
    ensures DatePart(Written(day, tok, year)) == Written(day, tok, year)
  {
    var s := Written(day, tok, year);
    DecimalParses(day);
    DecimalParses(year);
    if RFind(s, " on ").Some? {
      WrittenHasNoOn(day, tok, year, RFind(s, " on ").value);
    }
    WrittenIsTrimmed(day, tok, year);
    TrimKeeps(s);
  }

  lemma WrittenIsTrimmed(day: nat, tok: string, year: nat)
    ensures IsTrimmed(Written(day, tok, year))
  {
    var s := Written(day, tok, year);
    assert s[0] == Decimal(day)[0];
    assert s[|s| - 1] == Decimal(year)[|Decimal(year)| - 1];
  }

  lemma WrittenFields(day: nat, tok: string, month: int, year: nat)
    requires day <= U32_MAX && year <= I64_MAX
    requires tok != "" && tok != "on" && NoSpace(tok) && MonthFromName(TrimCommas(tok)) == Some(month)
    ensures Fields(Tokens(DatePart(Written(day, tok, year)))) == Some((day, month, year))
  {
    WrittenDatePart(day, tok, year);
    WrittenTokens(day, tok, year);
    DecimalParses(day);
    DecimalParses(year);
  }

  /** Every real date from 1 January 1970 to 11 April 2262, written with any spelling of its month
      the parser knows, with or without a comma, reads back as its own midnight. */
  lemma WrittenDateParses(d: Date, tok: string)
    requires IsReal(d) && 0 <= d.year && 0 <= DayCount(d) <= LAST_DAY
    requires tok != "" && NoSpace(tok) && MonthFromName(TrimCommas(tok)) == Some(d.month)
    ensures ParseDatetime(Written(d.day, tok, d.year)) == Some(DayCount(d) * NANOS_PER_DAY)
  {
    assert YearStart(d.year) <= LAST_DAY by { InsideYear(d); }
    YearInRange(d.year);
    NotOn(tok);
    WrittenFields(d.day, tok, d.month, d.year);
    FieldsParseExactly(d.day, d.month, d.year);
  }

  /** The months by name. */
  function MonthText(month: int): string
    requires 1 <= month <= 12
  {
    match month
    case 1 => "january"
    case 2 => "february"
    case 3 => "march"
    case 4 => "april"
    case 5 => "may"
    case 6 => "june"
    case 7 => "july"
    case 8 => "august"
    case 9 => "september"
    case 10 => "october"
    case 11 => "november"
    case 12 => "december"
  }

  /** The name, its first three letters, or "sept". */
  predicate Spells(lowered: string, month: int)
    requires 1 <= month <= 12
  {
    lowered == MonthText(month) || lowered == MonthText(month)[..3] || (month == 9 && lowered == "sept")
  }

  lemma KnownIsSpelled(n: string)
    ensures match MonthOf(n) case Some(month) => Spells(n, month) case None => true
  {
  }

  /** The second and third letters tell the months apart. */
  function ByLetters(b: char, c: char): int {
    if b == 'a' then (if c == 'n' then 1 else if c == 'r' then 3 else 5)
    else if b == 'u' then (if c == 'n' then 6 else if c == 'l' then 7 else 8)
    else if b == 'e' then (if c == 'b' then 2 else if c == 'p' then 9 else 12)
    else if b == 'p' then 4
    else if b == 'c' then 10
    else 11
  }

  lemma SpellingStarts(n: string, month: int)
    requires 1 <= month <= 12 && Spells(n, month)
    ensures 3 <= |n| && ByLetters(n[1], n[2]) == month
  {
  }

  lemma SpelledIsKnown(n: string, month: int)
    requires 1 <= month <= 12 && Spells(n, month)
    ensures MonthOf(n).Some?
  {
    match month
    case 1 => assert MonthText(1)[..3] == "jan";
    case 2 => assert MonthText(2)[..3] == "feb";
    case 3 => assert MonthText(3)[..3] == "mar";
    case 4 => assert MonthText(4)[..3] == "apr";
    case 5 => assert MonthText(5)[..3] == "may";
    case 6 => assert MonthText(6)[..3] == "jun";
    case 7 => assert MonthText(7)[..3] == "jul";
    case 8 => assert MonthText(8)[..3] == "aug";
    case 9 => assert MonthText(9)[..3] == "sep";
    case 10 => assert MonthText(10)[..3] == "oct";
    case 11 => assert MonthText(11)[..3] == "nov";
    case 12 => assert MonthText(12)[..3] == "dec";
  }

  /** In any case, a month is known exactly by those spellings. */
  lemma MonthNames(name: string, month: int)
    requires 1 <= month <= 12
    ensures MonthFromName(name) == Some(month) <==> Spells(Lower(name), month)
  {
    var n := Lower(name);
    KnownIsSpelled(n);
    if Spells(n, month) {
      SpelledIsKnown(n, month);
      SpellingStarts(n, month);
      SpellingStarts(n, MonthOf(n).value);
    }
  }

  function Commas(n: nat): (s: string)
    ensures |s| == n && forall i :: 0 <= i < n ==> s[i] == ','
  {
    if n == 0 then "" else Commas(n - 1) + ","
  }

  lemma {:induction false} CommasTrimmed(name: string, n: nat)
    requires name != "" && name[|name| - 1] != ','
    ensures TrimCommas(name + Commas(n)) == name
  {
    if n == 0 {
      assert name + Commas(0) == name;
    } else {
      CommasTrimmed(name, n - 1);
      var s := name + Commas(n);
      assert s[|s| - 1] == ',' && s[..|s| - 1] == name + Commas(n - 1);
    }
  }

  predicate IsLetter(c: char) { 'a' <= c <= 'z' }

  lemma SpellingIsLetters(lowered: string, month: int)
    requires 1 <= month <= 12 && Spells(lowered, month)
    ensures lowered != "" && forall i :: 0 <= i < |lowered| ==> IsLetter(lowered[i])
  {
  }

  lemma LetterBehind(c: char)
    requires IsLetter(LowerChar(c))
    ensures !IsSpace(c) && c != ','
  {
  }

  /** A date as text: day, month and year with a space between. */
  lemma WrittenIs(day: nat, tok: string, year: nat)
    ensures Written(day, tok, year) == Decimal(day) + " " + tok + " " + Decimal(year)
  {
    var a, b := Decimal(day), Decimal(year);
    assert a + [' '] + (tok + [' '] + b) == a + " " + tok + " " + b;
  }

  /** Every real date from 1 January 1970 to 11 April 2262, its month spelled out or cut to three letters in
      any case and followed by any number of commas, reads as its midnight. */
  lemma SpelledDateParses(d: Date, name: string, commas: nat)
    requires IsReal(d) && 0 <= d.year && 0 <= DayCount(d) <= 106_751 && Spells(Lower(name), d.month)
    ensures ParseDatetime(Written(d.day, name + Commas(commas), d.year)) == Some(DayCount(d) * 86_400_000_000_000)
  {
    SpelledToken(name, commas, d.month);
    WrittenDateParses(d, name + Commas(commas));
  }

  lemma SpelledToken(name: string, commas: nat, month: int)
    requires 1 <= month <= 12 && Spells(Lower(name), month)
    ensures var tok := name + Commas(commas);
            tok != "" && NoSpace(tok) && MonthFromName(TrimCommas(tok)) == Some(month)
  {
    MonthNames(name, month);
    SpellingIsLetters(Lower(name), month);
    forall i | 0 <= i < |name| ensures !IsSpace(name[i]) && name[i] != ',' {
      LetterBehind(name[i]);
    }
    CommasTrimmed(name, commas);
  }

  lemma NotOn(tok: string)
    requires MonthFromName(TrimCommas(tok)).Some?
    ensures tok != "on"
  {
    var n := Lower("on");
    assert n[0] == 'o' && n[1] == 'n' && n == "on";
  }

  lemma YearInRange(year: int)
    requires YearStart(year) <= LAST_DAY
    ensures year < 3000
  {
    assert YearStart(3000) > LAST_DAY;
    if 3000 < year {
      YearEnds(3000, year);
    }
  }

  /** A text that is not read as meant: this year is far in the future, its count wraps round to day
      313, and it is given that day's time in 1970. */
  lemma WrappedYearIsAccepted(year: nat)
    requires year == 50_505_469_855_535_080
    ensures Meant(1, 1, year) == None
    ensures ParseDatetime(Written(1, "jan", year)) == Some(313 * NANOS_PER_DAY)
  {
    FarYearCount(year);
    JanuaryIsAMonth();
    WrittenFields(1, "jan", 1, year);
    AcceptedExactly(Written(1, "jan", year));
  }

  lemma FarYearCount(year: nat)
    requires year == 50_505_469_855_535_080
    ensures year <= I64_MAX && DaysFromCivil(year, 1, 1) > LAST_DAY && Wrap(DaysFromCivil(year, 1, 1)) == 313
  {
    assert DaysFromCivil(year, 1, 1) == 0x1_0000_0000_0000_0000 + 313;
    WrapTurns(0x1_0000_0000_0000_0000 + 313, 1);
  }

  lemma JanuaryIsAMonth()
    ensures NoSpace("jan") && "jan" != "on" && MonthFromName(TrimCommas("jan")) == Some(1)
  {
    assert TrimCommas("jan") == "jan";
    assert Lower("jan") == "jan";
  }
}
