/** `validateDate` and the date string built in `onSubmit`. */
module DateValidation {
  import opened FormTypes
  import opened JsText
  import opened JsParseInt
  import opened DateField

  const DateRequired := "All date fields are required"
  const InvalidDay := "Invalid day (must be 1-31)"
  const InvalidMonth := "Invalid month (must be 1-12)"
  const InvalidYear := "Invalid year (must be 4 digits)"

  /** The negation of `isNaN(n) || n < lo || n > hi`. */
  predicate InRange(n: JsNumber, lo: int, hi: int)
  {
    n.Num? && lo <= n.value <= hi
  }

  predicate DayAccepted(day: string)
  {
    InRange(ParseInt10(day), 1, 31)
  }

  predicate MonthAccepted(month: string)
  {
    InRange(ParseInt10(month), 1, 12)
  }

  /** The negation of `isNaN(year) || dateObj.year.length !== 4`. */
  predicate YearAccepted(year: string)
  {
    ParseInt10(year).Num? && JsLength(year) == 4
  }

  /** `!dateObj.day || !dateObj.month || !dateObj.year`: the empty string is
      the only falsy string. */
  predicate AnyEmpty(d: DateValue)
  {
    d.day == "" || d.month == "" || d.year == ""
  }

  /** `validateDate(dateObj)`: the checks run in order and the first that
      fails gives the message. */
  function ValidateDate(d: DateValue): Verdict
  {
    if AnyEmpty(d) then Invalid(DateRequired)
    else if !DayAccepted(d.day) then Invalid(InvalidDay)
    else if !MonthAccepted(d.month) then Invalid(InvalidMonth)
    else if !YearAccepted(d.year) then Invalid(InvalidYear)
    else Valid
  }

  /** Each message is reported exactly when its own check fails and every
      earlier check passes; success is reported exactly when all pass. */
  lemma ValidateDateReportsFirstFailure(d: DateValue)
    ensures ValidateDate(d) == Invalid(DateRequired) <==> AnyEmpty(d)
    ensures ValidateDate(d) == Invalid(InvalidDay) <==> !AnyEmpty(d) && !DayAccepted(d.day)
    ensures ValidateDate(d) == Invalid(InvalidMonth) <==>
              !AnyEmpty(d) && DayAccepted(d.day) && !MonthAccepted(d.month)
    ensures ValidateDate(d) == Invalid(InvalidYear) <==>
              !AnyEmpty(d) && DayAccepted(d.day) && MonthAccepted(d.month) && !YearAccepted(d.year)
    ensures ValidateDate(d) == Valid <==>
              !AnyEmpty(d) && DayAccepted(d.day) && MonthAccepted(d.month) && YearAccepted(d.year)
  {
  }

  /** What an accepted date is guaranteed to satisfy: each sub-field has an
      integer prefix, the day's is in 1..31, the month's in 1..12, and the
      year is exactly four UTF-16 code units long. */
  lemma ValidateDateSound(d: DateValue)
    requires ValidateDate(d) == Valid
    ensures HasIntegerPrefix(d.day) && HasIntegerPrefix(d.month) && HasIntegerPrefix(d.year)
    ensures ParseInt10(d.day).Num? && 1 <= ParseInt10(d.day).value <= 31
    ensures ParseInt10(d.month).Num? && 1 <= ParseInt10(d.month).value <= 12
    ensures JsLength(d.year) == 4
  {
    ParseIntNaNIff(d.day);
    ParseIntNaNIff(d.month);
    ParseIntNaNIff(d.year);
  }

  /** Conversely, any day and month that start with an in-range number are
      accepted whatever text follows the digits, and so is any year of four
      code units that starts with an integer. */
  lemma ValidateDateAcceptsPrefixes(dayDigits: string, dayRest: string,
                                    monthDigits: string, monthRest: string, year: string)
    requires dayDigits != [] && AllDigits(dayDigits) && (dayRest == [] || !IsDigit(dayRest[0]))
    requires 1 <= DigitsValue(dayDigits) <= 31
    requires monthDigits != [] && AllDigits(monthDigits) && (monthRest == [] || !IsDigit(monthRest[0]))
    requires 1 <= DigitsValue(monthDigits) <= 12
    requires JsLength(year) == 4 && HasIntegerPrefix(year)
    ensures ValidateDate(DateValue(dayDigits + dayRest, monthDigits + monthRest, year)) == Valid
  {
    var d := DateValue(dayDigits + dayRest, monthDigits + monthRest, year);
    ParseIntIgnoresSuffix(dayDigits, dayRest);
    assert DayAccepted(d.day);
    ParseIntIgnoresSuffix(monthDigits, monthRest);
    assert MonthAccepted(d.month);
    ParseIntNaNIff(year);
    assert YearAccepted(d.year);
    assert |d.day| > 0 && |d.month| > 0 && year != [];
  }

  /** Every four-digit year passes the year check, leading zeros and all. */
  lemma FourDigitYearAccepted(year: string)
    requires |year| == 4 && AllDigits(year)
    ensures YearAccepted(year)
  {
    assert InBmp(year);
    JsLengthOfBmp(year);
    ParseIntOfDigits(year);
  }

  /** The template `${year}-${month.padStart(2, '0')}-${day.padStart(2, '0')}`. */
  function FormatDate(d: DateValue): string
  {
    d.year + "-" + PadStart(d.month, 2) + "-" + PadStart(d.day, 2)
  }

  /** A one- or two-digit field pads to two digits with the same value. */
  lemma PaddedDigits(s: string)
    requires AllDigits(s) && 1 <= |s| <= 2
    ensures |PadStart(s, 2)| == 2 && AllDigits(PadStart(s, 2))
    ensures DigitsValue(PadStart(s, 2)) == DigitsValue(s)
    ensures ParseInt10(s) == Num(DigitsValue(s))
  {
    assert InBmp(s);
    JsLengthOfBmp(s);
    ParseIntOfDigits(s);
    if |s| == 1 {
      DigitsValueZeroPadded(1, s);
      assert PadStart(s, 2) == Zeros(1) + s;
    }
  }

  /** Where the parts of a YYYY-MM-DD string sit. */
  lemma IsoLayout(year: string, month: string, day: string)
    requires |year| == 4 && |month| == 2 && |day| == 2
    ensures var r := year + "-" + month + "-" + day;
      && |r| == 10 && r[4] == '-' && r[7] == '-'
      && r[..4] == year && r[5..7] == month && r[8..] == day
  {
    var r := year + "-" + month + "-" + day;
    assert r[..4] == year;
    assert r[5..7] == month;
    assert r[8..] == day;
  }

  /** An accepted date whose fields are plain digits, with day and month at
      most two long, formats as YYYY-MM-DD: the year verbatim, then the
      month and the day as two digits each with the values parseInt read. */
  lemma FormatDateIso(d: DateValue)
    requires ValidateDate(d) == Valid
    requires AllDigits(d.day) && AllDigits(d.month) && AllDigits(d.year)
    requires |d.day| <= 2 && |d.month| <= 2
    ensures var r := FormatDate(d);
      && |r| == 10 && r[4] == '-' && r[7] == '-'
      && r[..4] == d.year && AllDigits(r[..4])
      && AllDigits(r[5..7]) && AllDigits(r[8..])
      && ParseInt10(d.month) == Num(DigitsValue(r[5..7]))
      && ParseInt10(d.day) == Num(DigitsValue(r[8..]))
      && 1 <= DigitsValue(r[5..7]) <= 12 && 1 <= DigitsValue(r[8..]) <= 31
  {
    assert DayAccepted(d.day) && MonthAccepted(d.month) && YearAccepted(d.year);
    assert InBmp(d.year);
    JsLengthOfBmp(d.year);
    PaddedDigits(d.month);
    PaddedDigits(d.day);
    IsoLayout(d.year, PadStart(d.month, 2), PadStart(d.day, 2));
  }

  /** Single-digit and zero-padded entries format identically. */
  lemma FormatDatePadsSingleDigits(day: char, month: char, year: string)
    requires CodeUnits(day) == 1 && CodeUnits(month) == 1
    ensures FormatDate(DateValue([day], [month], year))
         == FormatDate(DateValue(['0', day], ['0', month], year))
         == year + "-0" + [month] + "-0" + [day]
  {
    assert PadStart([day], 2) == ['0', day] by {
      PadStartToTwo([day]);
    }
    assert PadStart([month], 2) == ['0', month] by {
      PadStartToTwo([month]);
    }
    assert PadStart(['0', day], 2) == ['0', day] by {
      assert JsLength(['0', day]) == 2;
      PadStartToTwo(['0', day]);
    }
    assert PadStart(['0', month], 2) == ['0', month] by {
      assert JsLength(['0', month]) == 2;
      PadStartToTwo(['0', month]);
    }
    assert year + "-" + ['0', month] + "-" + ['0', day] == year + "-0" + [month] + "-0" + [day];
  }
}
