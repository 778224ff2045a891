/**
 * Target periods: the key strings `generateTargetPeriod` produces
 * (`"YYYY-MM"`, `"YYYY-Qn"`, `"YYYY"`) and the inclusive date range
 * `calculateAchievedAmount` reads back out of a key.
 */
module Periods {
  import opened Outcomes
  import opened Text
  import opened Calendar

  /**
   * The `TargetType` enumeration. `Unrecognised` stands for any other value
   * reaching the code at run time, which the defensive default branches handle.
   */
  datatype TargetType = Monthly | Quarterly | Yearly | Unrecognised(name: string)

  /** `Math.ceil(month / 3)`: the quarter a month falls in. */
  function Quarter(month: int): (q: int)
    requires 1 <= month <= 12
    ensures 1 <= q <= 4
    ensures 3 * (q - 1) < month <= 3 * q
  {
    (month + 2) / 3
  }

  /** `String(month).padStart(2, "0")`: the month part of a monthly key. */
  function MonthDigits(month: nat): string
  {
    PadStart(NatToString(month), 2, '0')
  }

  /** `` `${year}-${String(month).padStart(2, "0")}` ``, the monthly form. */
  function MonthlyPeriod(year: int, month: nat): string
  {
    IntToString(year) + "-" + MonthDigits(month)
  }

  /** `generateTargetPeriod(targetType, date)`. */
  function FormatPeriod(t: TargetType, d: Date): string
    requires ValidDate(d)
  {
    match t
    case Monthly => MonthlyPeriod(d.year, d.month)
    case Quarterly => IntToString(d.year) + "-Q" + NatToString(Quarter(d.month))
    case Yearly => IntToString(d.year)
    case Unrecognised(_) => MonthlyPeriod(d.year, d.month)
  }

  lemma MonthDigitsShape(month: int)
    requires 1 <= month <= 12
    ensures |MonthDigits(month)| == 2 && AllDigits(MonthDigits(month))
    ensures DigitsValue(MonthDigits(month)) == month
  {
    var s := NatToString(month);
    DigitsValueOfNatToString(month);
    if month < 10 {
      assert MonthDigits(month) == "0" + s;
      DigitsValueLeadingZero(s);
    }
  }

  /** A monthly key is the year, a dash and the month as exactly two digits. */
  lemma MonthlyPeriodShape(d: Date)
    requires ValidDate(d)
    ensures FormatPeriod(Monthly, d) == IntToString(d.year) + "-" + MonthDigits(d.month)
    ensures |MonthDigits(d.month)| == 2 && AllDigits(MonthDigits(d.month))
    ensures DigitsValue(MonthDigits(d.month)) == d.month
  {
    MonthDigitsShape(d.month);
  }

  /** A quarterly key is the year, `-Q` and one digit from 1 to 4 naming the quarter that holds the month. */
  lemma QuarterlyPeriodShape(d: Date)
    requires ValidDate(d)
    ensures exists q | 1 <= q <= 4 ::
              3 * (q - 1) < d.month <= 3 * q && FormatPeriod(Quarterly, d) == IntToString(d.year) + "-Q" + [DigitChar(q)]
  {
    var q := Quarter(d.month);
    assert FormatPeriod(Quarterly, d) == IntToString(d.year) + "-Q" + [DigitChar(q)];
  }

  /** A yearly key is the year alone; any other type gives the monthly key. */
  lemma YearlyAndFallbackShape(d: Date, other: string)
    requires ValidDate(d)
    ensures FormatPeriod(Yearly, d) == IntToString(d.year)
    ensures FormatPeriod(Unrecognised(other), d) == FormatPeriod(Monthly, d)
  {
  }

  /**
   * The date range `calculateAchievedAmount` derives from a key, or None
   * where the source gets no usable range: an unrecognised type (it returns
   * 0 at once), or a key whose numbers do not parse (an invalid `Date`, so
   * the query fails and the caught error gives 0). Months outside 1..12 and
   * quarters outside 1..4 also give None.
   */
  function ParseRange(t: TargetType, period: string): (r: Option<DateRange>)
    ensures t.Unrecognised? ==> r.None?
    ensures r.Some? ==> ValidDate(r.value.start) && ValidDate(r.value.end)
                        && r.value.start.day == 1 && DateLe(r.value.start, r.value.end)
  {
    match t
    case Monthly =>
      var parts := Split(period, '-');
      if |parts| < 2 then None
      else
        (match (JsNumber(parts[0]), JsNumber(parts[1]))
         case (Some(year), Some(month)) =>
           if 1 <= month <= 12 then Some(DateRange(MakeDate(year, month - 1, 1), MakeDate(year, month, 0)))
           else None
         case _ => None)
    case Quarterly =>
      var parts := Split(period, '-');
      if |parts| < 2 then None
      else
        (match (JsParseInt(parts[0]), JsParseInt(RemoveFirst(parts[1], 'Q')))
         case (Some(year), Some(quarter)) =>
           if 1 <= quarter <= 4 then
             var startMonth := (quarter - 1) * 3;
             Some(DateRange(MakeDate(year, startMonth, 1), MakeDate(year, startMonth + 3, 0)))
           else None
         case _ => None)
    case Yearly =>
      (match JsParseInt(period)
       case Some(year) => Some(DateRange(MakeDate(year, 0, 1), MakeDate(year, 11, 31)))
       case None => None)
    case Unrecognised(_) => None
  }

  /** The range of the quarter holding month `m`: from its first month's first day to its third month's last. */
  function QuarterRange(y: int, m: int): DateRange
    requires 1 <= m <= 12
  {
    var q := Quarter(m);
    DateRange(Date(y, 3 * q - 2, 1), Date(y, 3 * q, DaysInMonth(y, 3 * q)))
  }

  /** The range of the key a date produces, as it should be: its month, its quarter or its year. */
  function PeriodRangeOf(t: TargetType, d: Date): Option<DateRange>
    requires ValidDate(d)
  {
    match t
    case Monthly => Some(MonthRange(d.year, d.month))
    case Quarterly => Some(QuarterRange(d.year, d.month))
    case Yearly => Some(DateRange(Date(d.year, 1, 1), Date(d.year, 12, 31)))
    case Unrecognised(_) => None
  }

  /** A monthly key splits at its dash into the year and the two-digit month, which `Number` reads back. */
  lemma {:induction false} MonthlyKeyParts(d: Date)
    requires ValidDate(d) && d.year >= 0
    ensures Split(FormatPeriod(Monthly, d), '-') == [NatToString(d.year), MonthDigits(d.month)]
    ensures JsNumber(NatToString(d.year)) == Some(d.year) && JsNumber(MonthDigits(d.month)) == Some(d.month)
  {
    var ys := NatToString(d.year);
    var ms := MonthDigits(d.month);
    assert FormatPeriod(Monthly, d) == ys + ['-'] + ms;
    MonthDigitsShape(d.month);
    DigitsValueOfNatToString(d.year);
    assert forall i | 0 <= i < |ms| :: ms[i] != '-';
    SplitAfterDigits(ys, '-', ms);
  }

  /** A quarterly key splits at its dash into the year and `Q` with the quarter digit, which `parseInt` reads back. */
  lemma {:induction false} QuarterlyKeyParts(d: Date)
    requires ValidDate(d) && d.year >= 0
    ensures Split(FormatPeriod(Quarterly, d), '-') == [NatToString(d.year), "Q" + NatToString(Quarter(d.month))]
    ensures JsParseInt(NatToString(d.year)) == Some(d.year)
    ensures JsParseInt(RemoveFirst("Q" + NatToString(Quarter(d.month)), 'Q')) == Some(Quarter(d.month))
  {
    var ys := NatToString(d.year);
    var q := Quarter(d.month);
    var qs := NatToString(q);
    assert FormatPeriod(Quarterly, d) == ys + ['-'] + ("Q" + qs);
    assert forall i | 0 <= i < |qs| :: qs[i] != '-';
    assert '-' !in "Q" + qs;
    SplitAfterDigits(ys, '-', "Q" + qs);
    RemoveFirstAtHead('Q', qs);
    assert "Q" + qs == ['Q'] + qs;
    DigitsValueOfNatToString(d.year);
    DigitsValueOfNatToString(q);
    JsParseIntOfDigitsThen(ys, []);
    JsParseIntOfDigitsThen(qs, []);
    assert ys + [] == ys && qs + [] == qs;
  }

  /** A yearly key is the year's digits, which `parseInt` reads back. */
  lemma {:induction false} YearlyKeyValue(d: Date)
    requires ValidDate(d) && d.year >= 0
    ensures JsParseInt(FormatPeriod(Yearly, d)) == Some(d.year)
  {
    var ys := NatToString(d.year);
    DigitsValueOfNatToString(d.year);
    JsParseIntOfDigitsThen(ys, []);
    assert ys + [] == ys;
  }

  lemma {:induction false} ParseMonthlyPeriod(d: Date)
    requires ValidDate(d) && d.year >= 100
    ensures ParseRange(Monthly, FormatPeriod(Monthly, d)) == Some(MonthRange(d.year, d.month))
  {
    MonthlyKeyParts(d);
    DayZeroIsLastDay(d.year, d.month);
    assert MakeDate(d.year, d.month - 1, 1) == Date(d.year, d.month, 1);
  }

  lemma {:induction false} ParseQuarterlyPeriod(d: Date)
    requires ValidDate(d) && d.year >= 100
    ensures ParseRange(Quarterly, FormatPeriod(Quarterly, d)) == Some(QuarterRange(d.year, d.month))
  {
    var q := Quarter(d.month);
    var parts := Split(FormatPeriod(Quarterly, d), '-');
    QuarterlyKeyParts(d);
    assert JsParseInt(parts[0]) == Some(d.year);
    assert JsParseInt(RemoveFirst(parts[1], 'Q')) == Some(q);
    DayZeroIsLastDay(d.year, 3 * q);
    assert MakeDate(d.year, (q - 1) * 3, 1) == Date(d.year, 3 * q - 2, 1);
  }

  lemma {:induction false} ParseYearlyPeriod(d: Date)
    requires ValidDate(d) && d.year >= 100
    ensures ParseRange(Yearly, FormatPeriod(Yearly, d)) == Some(DateRange(Date(d.year, 1, 1), Date(d.year, 12, 31)))
  {
    YearlyKeyValue(d);
  }

  /**
   * The key of a year from 0 to 99 is read back as a year of the 1900s, the
   * way `new Date` reads such a year, so for those years key and range disagree.
   */
  lemma {:induction false} ParseTwoDigitYear(d: Date)
    requires ValidDate(d) && 0 <= d.year <= 99
    ensures ParseRange(Yearly, FormatPeriod(Yearly, d))
            == Some(DateRange(Date(1900 + d.year, 1, 1), Date(1900 + d.year, 12, 31)))
  {
    YearlyKeyValue(d);
  }

  /** Reading a generated key back gives exactly its month, quarter or year; an unrecognised type gives none. */
  lemma ParseOfFormat(t: TargetType, d: Date)
    requires ValidDate(d) && d.year >= 100
    ensures ParseRange(t, FormatPeriod(t, d)) == PeriodRangeOf(t, d)
  {
    match t
    case Monthly => ParseMonthlyPeriod(d);
    case Quarterly => ParseQuarterlyPeriod(d);
    case Yearly => ParseYearlyPeriod(d);
    case Unrecognised(_) =>
  }

  /** The range read from the key of a date contains that date. */
  lemma PeriodContainsDate(t: TargetType, d: Date)
    requires ValidDate(d) && d.year >= 100 && !t.Unrecognised?
    ensures ParseRange(t, FormatPeriod(t, d)).Some?
    ensures InRange(ParseRange(t, FormatPeriod(t, d)).value, d)
  {
    ParseOfFormat(t, d);
  }

  lemma MonthlyPeriodExact(d: Date, e: Date)
    requires ValidDate(d) && d.year >= 0 && ValidDate(e) && e.year >= 0
    ensures InRange(MonthRange(d.year, d.month), e) <==> FormatPeriod(Monthly, e) == FormatPeriod(Monthly, d)
  {
    InMonthRange(d.year, d.month, e);
    if FormatPeriod(Monthly, e) == FormatPeriod(Monthly, d) {
      MonthlyKeyParts(d);
      MonthlyKeyParts(e);
    }
  }

  lemma QuarterlyPeriodExact(d: Date, e: Date)
    requires ValidDate(d) && d.year >= 0 && ValidDate(e) && e.year >= 0
    ensures InRange(QuarterRange(d.year, d.month), e) <==> FormatPeriod(Quarterly, e) == FormatPeriod(Quarterly, d)
  {
    var q := Quarter(d.month);
    InMonthsRange(d.year, 3 * q - 2, 3 * q, e);
    if FormatPeriod(Quarterly, e) == FormatPeriod(Quarterly, d) {
      QuarterlyKeyParts(d);
      QuarterlyKeyParts(e);
      assert Quarter(e.month) == q;
    }
  }

  lemma YearlyPeriodExact(d: Date, e: Date)
    requires ValidDate(d) && d.year >= 0 && ValidDate(e) && e.year >= 0
    ensures InRange(DateRange(Date(d.year, 1, 1), Date(d.year, 12, 31)), e)
            <==> FormatPeriod(Yearly, e) == FormatPeriod(Yearly, d)
  {
    InMonthsRange(d.year, 1, 12, e);
    if FormatPeriod(Yearly, e) == FormatPeriod(Yearly, d) {
      YearlyKeyValue(d);
      YearlyKeyValue(e);
    }
  }

  /**
   * The range of a date's key holds exactly the dates that have the same key:
   * a key and its range describe the same period, in both directions.
   */
  lemma PeriodRangeExact(t: TargetType, d: Date, e: Date)
    requires ValidDate(d) && d.year >= 100 && ValidDate(e) && e.year >= 0 && !t.Unrecognised?
    ensures ParseRange(t, FormatPeriod(t, d)).Some?
    ensures InRange(ParseRange(t, FormatPeriod(t, d)).value, e) <==> FormatPeriod(t, e) == FormatPeriod(t, d)
  {
    ParseOfFormat(t, d);
    match t
    case Monthly => MonthlyPeriodExact(d, e);
    case Quarterly => QuarterlyPeriodExact(d, e);
    case Yearly => YearlyPeriodExact(d, e);
  }

  /** `r` holds exactly the dates (of years 0 and later) whose key of type `t` is `period`. */
  ghost predicate RangeOfKey(r: DateRange, t: TargetType, period: string)
  {
    forall e | ValidDate(e) && e.year >= 0 :: InRange(r, e) <==> FormatPeriod(t, e) == period
  }

  /** The range read from a generated key is the range of that key, for every date at once. */
  lemma ParsedRangeOfKey(t: TargetType, d: Date)
    requires ValidDate(d) && d.year >= 100 && !t.Unrecognised?
    ensures ParseRange(t, FormatPeriod(t, d)).Some?
    ensures RangeOfKey(ParseRange(t, FormatPeriod(t, d)).value, t, FormatPeriod(t, d))
  {
    ParseOfFormat(t, d);
    forall e | ValidDate(e) && e.year >= 0
      ensures InRange(ParseRange(t, FormatPeriod(t, d)).value, e) <==> FormatPeriod(t, e) == FormatPeriod(t, d)
    {
      PeriodRangeExact(t, d, e);
    }
  }

  lemma YearDigits()
    ensures NatToString(2024) == "2024" && NatToString(2025) == "2025"
  {
    assert NatToString(2) == "2";
    assert NatToString(20) == "20";
    assert NatToString(202) == "202";
  }

  /** `ParseMonthlyPeriod` for a key given as it is written. */
  lemma ParseMonthlyKey(key: string, d: Date)
    requires ValidDate(d) && d.year >= 100 && key == NatToString(d.year) + "-" + MonthDigits(d.month)
    ensures ParseRange(Monthly, key) == Some(MonthRange(d.year, d.month))
  {
    ParseMonthlyPeriod(d);
  }

  lemma MonthTwoDigits()
    ensures MonthDigits(2) == "02"
  {
    assert NatToString(2) == "2";
    assert PadStart("2", 2, '0') == ['0'] + "2";
  }

  /** The keys of three sample dates: January 2025, the second quarter of 2025 and the year 2025. */
  lemma FormatExamples()
    ensures FormatPeriod(Monthly, Date(2025, 1, 15)) == "2025-01"
    ensures FormatPeriod(Quarterly, Date(2025, 4, 1)) == "2025-Q2"
    ensures FormatPeriod(Yearly, Date(2025, 12, 31)) == "2025"
  {
    YearDigits();
  }

  /** February 2025 has 28 days. */
  lemma ParseExampleFebruary()
    ensures ParseRange(Monthly, "2025-02") == Some(DateRange(Date(2025, 2, 1), Date(2025, 2, 28)))
  {
    YearDigits();
    MonthTwoDigits();
    assert !IsLeapYear(2025);
    ParseMonthlyKey("2025-02", Date(2025, 2, 1));
  }

  /** February of the leap year 2024 has 29 days. */
  lemma ParseExampleLeapFebruary()
    ensures ParseRange(Monthly, "2024-02") == Some(DateRange(Date(2024, 2, 1), Date(2024, 2, 29)))
  {
    YearDigits();
    MonthTwoDigits();
    ParseMonthlyKey("2024-02", Date(2024, 2, 1));
  }

  /** The first quarter of 2025 runs from January 1 to March 31. */
  lemma ParseExampleQuarter()
    ensures ParseRange(Quarterly, "2025-Q1") == Some(DateRange(Date(2025, 1, 1), Date(2025, 3, 31)))
  {
    YearDigits();
    var d := Date(2025, 1, 1);
    assert FormatPeriod(Quarterly, d) == "2025-Q1";
    ParseQuarterlyPeriod(d);
  }
}
