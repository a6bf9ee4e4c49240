/** src/utils/basic-utils.ts: the "MM-YYYY" name of a calendar month. The
    runtime's local calendar is not modelled: a date is given by what
    `getFullYear()` and `getMonth()` return for it. */
module BasicUtils {
  import opened Wrappers
  import opened JsText

  /** What `getMonth()` returns: January is 0. */
  type MonthIndex = m: int | 0 <= m < 12

  datatype CalendarDate = CalendarDate(year: int, monthIndex: MonthIndex)

  /** `String(n).padStart(2, "0")`. */
  function PadStart2(s: string): (r: string)
    ensures |s| >= 2 ==> r == s
    ensures |s| < 2 ==> |r| == 2 && r[2 - |s|..] == s && forall i :: 0 <= i < 2 - |s| ==> r[i] == '0'
  {
    if |s| >= 2 then s else seq(2 - |s|, _ => '0') + s
  }

  /** The two-digit, 1-based month. */
  function MonthText(monthIndex: MonthIndex): (r: string)
    ensures |r| == 2 && AllDigits(r)
  {
    PadStart2(NatToDecimal(monthIndex + 1))
  }

  /** `getMonthAndYearByDate`. */
  function GetMonthAndYearByDate(date: CalendarDate): (r: string)
    ensures |r| >= 4 && r[..2] == MonthText(date.monthIndex) && r[2] == '-'
  {
    var month := PadStart2(NatToDecimal(date.monthIndex + 1));
    var year := date.year;
    month + "-" + IntToDecimal(year)
  }

  /** `getCurrentMonthAndYear`, with the current date as a parameter; the source
      repeats the body of `getMonthAndYearByDate`. */
  function GetCurrentMonthAndYear(today: CalendarDate): (r: string)
    ensures r == GetMonthAndYearByDate(today)
  {
    var month := PadStart2(NatToDecimal(today.monthIndex + 1));
    var year := today.year;
    month + "-" + IntToDecimal(year)
  }

  /** Reading "MM-YYYY" back: two runs of digits around one '-'. */
  function ParseMonthAndYear(s: string): (d: Option<CalendarDate>)
    ensures d.Some? ==> 0 <= d.value.year
  {
    var parts := Split(s, '-');
    if |parts| == 2 && parts[0] != "" && parts[1] != "" && AllDigits(parts[0]) && AllDigits(parts[1])
       && 1 <= DecimalValue(parts[0]) <= 12
    then Some(CalendarDate(DecimalValue(parts[1]), DecimalValue(parts[0]) - 1))
    else None
  }

  lemma MonthTextValue(monthIndex: MonthIndex)
    ensures DecimalValue(MonthText(monthIndex)) == monthIndex + 1
  {
    var m: nat := monthIndex + 1;
    if m < 10 {
      var t := MonthText(monthIndex);
      assert t == ['0', DigitChar(m)];
      assert t[..1] == ['0'] && t[..1][..0] == [];
      assert DecimalValue(['0']) == 0;
      assert DigitValue(t[1]) == m;
      assert DecimalValue(t) == DecimalValue(t[..1]) * 10 + DigitValue(t[1]);
    } else {
      DecimalRoundTrip(m);
    }
  }

  /** For a year that is not negative, the month name reads back as the date. */
  lemma MonthAndYearRoundTrip(date: CalendarDate)
    requires date.year >= 0
    ensures ParseMonthAndYear(GetMonthAndYearByDate(date)) == Some(date)
  {
    var month := MonthText(date.monthIndex);
    var year := NatToDecimal(date.year);
    assert GetMonthAndYearByDate(date) == month + ['-'] + year;
    assert '-' !in month && '-' !in year by {
      assert forall i :: 0 <= i < |month| ==> IsDigit(month[i]);
      assert forall i :: 0 <= i < |year| ==> IsDigit(year[i]);
    }
    SplitAtFirst(month, '-', year);
    SplitNoSeparator(year, '-');
    MonthTextValue(date.monthIndex);
    DecimalRoundTrip(date.year);
  }

  /** Every month of a year gets its own name. */
  lemma DistinctMonthsDistinctNames(a: CalendarDate, b: CalendarDate)
    requires a.year >= 0 && b.year >= 0 && a != b
    ensures GetMonthAndYearByDate(a) != GetMonthAndYearByDate(b)
  {
    MonthAndYearRoundTrip(a);
    MonthAndYearRoundTrip(b);
  }
}
