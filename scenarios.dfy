/** Concrete inputs worked through the model: the edge cases of parseInt,
    the order of the date checks, the email pattern and one whole session. */
module Scenarios {
  import opened FormTypes
  import opened JsText
  import opened JsParseInt
  import opened DateField
  import opened DateValidation
  import opened EmailRule
  import opened Form

  /** Trailing text after the digits is ignored. */
  lemma ParseIntTrailingText()
    ensures ParseInt10("5x") == Num(5)
    ensures ParseInt10("12ab") == Num(12)
  {
    ParseIntIgnoresSuffix("5", "x");
    assert "5" + "x" == "5x";
    ParseIntIgnoresSuffix("12", "ab");
    assert "12" + "ab" == "12ab";
  }

  /** Leading white space and a sign are read. */
  lemma ParseIntSignAndSpace()
    ensures ParseInt10("  -7") == Num(-7)
  {
    ParseIntOfShape("  ", "-", "7", "");
    assert "  " + "-" + "7" + "" == "  -7";
  }

  /** A letter, or a space between sign and digit, gives NaN. */
  lemma ParseIntNoDigit()
    ensures ParseInt10("x5") == NaN
    ensures ParseInt10("+ 5") == NaN
  {
    ParseIntNaNIff("x5");
    ParseIntNaNIff("+ 5");
  }

  lemma DayOneAccepted()
    ensures DayAccepted("1") && MonthAccepted("1")
  {
    ParseIntOfDigits("1");
  }

  lemma PaddedDayAccepted()
    ensures DayAccepted("05")
  {
    ParseIntOfDigits("05");
  }

  /** A day with trailing text passes as its leading number. */
  lemma TrailingDayCheck()
    ensures DayAccepted("5x")
  {
    ParseIntIgnoresSuffix("5", "x");
    assert "5" + "x" == "5x";
  }

  lemma DayThirtyTwoRejected()
    ensures !DayAccepted("32")
  {
    ParseIntOfDigits("32");
  }

  lemma MonthThreeAccepted()
    ensures MonthAccepted("3")
  {
    ParseIntOfDigits("3");
  }

  lemma PaddedMonthAccepted()
    ensures MonthAccepted("03")
  {
    ParseIntOfDigits("03");
  }

  lemma MonthThirteenRejected()
    ensures !MonthAccepted("13")
  {
    ParseIntOfDigits("13");
  }

  lemma YearOfSessionAccepted()
    ensures YearAccepted("2024")
  {
    FourDigitYearAccepted("2024");
  }

  /** The smallest and largest four-digit years pass the year check. */
  lemma ExtremeYearChecks()
    ensures YearAccepted("0000") && YearAccepted("9999")
  {
    FourDigitYearAccepted("0000");
    FourDigitYearAccepted("9999");
  }

  /** Four characters with an integer prefix pass the year check. */
  lemma TrailingYearCheck()
    ensures YearAccepted("12ab")
  {
    ParseIntIgnoresSuffix("12", "ab");
    assert "12" + "ab" == "12ab";
    assert JsLength("12ab") == 4;
  }

  /** Three characters fail the year check. */
  lemma ShortYearCheck()
    ensures !YearAccepted("204")
  {
    assert JsLength("204") == 3;
  }

  /** An empty month is reported before an out-of-range day. */
  lemma RequiredBeforeDay()
    ensures ValidateDate(DateValue("99", "", "2024")) == Invalid(DateRequired)
  {
  }

  /** An out-of-range day is reported before an out-of-range month. */
  lemma DayBeforeMonth()
    ensures ValidateDate(DateValue("32", "13", "2024")) == Invalid(InvalidDay)
  {
    DayThirtyTwoRejected();
  }

  /** An out-of-range month is reported before a short year. */
  lemma MonthBeforeYear()
    ensures ValidateDate(DateValue("1", "13", "204")) == Invalid(InvalidMonth)
  {
    DayOneAccepted();
    MonthThirteenRejected();
  }

  /** A three-character year fails the year check. */
  lemma ShortYearRejected()
    ensures ValidateDate(DateValue("1", "1", "204")) == Invalid(InvalidYear)
  {
    DayOneAccepted();
    ShortYearCheck();
  }

  /** A day with trailing text is accepted as its leading number. */
  lemma TrailingDayAccepted()
    ensures ValidateDate(DateValue("5x", "3", "2024")) == Valid
  {
    TrailingDayCheck();
    MonthThreeAccepted();
    YearOfSessionAccepted();
  }

  /** A four-character year with trailing letters is accepted, and so are
      the years 0000 and 9999. */
  lemma OddYearsAccepted()
    ensures ValidateDate(DateValue("1", "1", "12ab")) == Valid
    ensures ValidateDate(DateValue("1", "1", "0000")) == Valid
    ensures ValidateDate(DateValue("1", "1", "9999")) == Valid
  {
    DayOneAccepted();
    TrailingYearCheck();
    ExtremeYearChecks();
  }

  /** Leading white space and a '+' sign before the day are accepted. */
  lemma DaySpaceAndSignAccepted()
    ensures DayAccepted(" 7") && DayAccepted("+3")
  {
    ParseIntOfShape(" ", "", "7", "");
    assert " " + "" + "7" + "" == " 7";
    ParseIntOfShape("", "+", "3", "");
    assert "" + "+" + "3" + "" == "+3";
  }

  lemma SpacedDayAccepted()
    ensures ValidateDate(DateValue(" 7", "3", "2024")) == Valid
    ensures ValidateDate(DateValue("+3", "3", "2024")) == Valid
  {
    DaySpaceAndSignAccepted();
    MonthThreeAccepted();
    YearOfSessionAccepted();
  }

  /** Three digits for the day are accepted as their value. */
  lemma ThreeDigitDayCheck()
    ensures DayAccepted("005")
  {
    assert Zeros(2) + "5" == "005";
    DigitsValueZeroPadded(2, "5");
    ParseIntOfDigits("005");
  }

  lemma ThreeDigitDayAccepted()
    ensures ValidateDate(DateValue("005", "3", "2024")) == Valid
  {
    ThreeDigitDayCheck();
    MonthThreeAccepted();
    YearOfSessionAccepted();
  }

  lemma PadMonthThree()
    ensures PadStart("3", 2) == "03"
  {
    assert JsLength("3") == 1;
    PadStartToTwo("3");
  }

  lemma PadTrailingDay()
    ensures PadStart("5x", 2) == "5x"
  {
    assert JsLength("5x") == 2;
    PadStartToTwo("5x");
  }

  lemma PadThreeDigitDay()
    ensures PadStart("005", 2) == "005"
  {
    assert JsLength("005") == 3;
    PadStartToTwo("005");
  }

  lemma TrailingDayFormat()
    ensures FormatDate(DateValue("5x", "3", "2024")) == "2024-03-5x"
  {
    PadMonthThree();
    PadTrailingDay();
    assert "2024" + "-" + "03" + "-" + "5x" == "2024-03-5x";
  }

  lemma ThreeDigitDayFormat()
    ensures FormatDate(DateValue("005", "3", "2024")) == "2024-03-005"
  {
    PadMonthThree();
    PadThreeDigitDay();
    assert "2024" + "-" + "03" + "-" + "005" == "2024-03-005";
  }

  /** An accepted date need not format as YYYY-MM-DD: the day's text is
      copied as typed, so "5x" and "005" reach the payload unchanged. */
  lemma NonIsoPayloadAccepted()
    ensures ValidateDate(DateValue("5x", "3", "2024")) == Valid
    ensures FormatDate(DateValue("5x", "3", "2024")) == "2024-03-5x"
    ensures ValidateDate(DateValue("005", "3", "2024")) == Valid
    ensures FormatDate(DateValue("005", "3", "2024")) == "2024-03-005"
  {
    TrailingDayAccepted();
    TrailingDayFormat();
    ThreeDigitDayAccepted();
    ThreeDigitDayFormat();
  }

  /** "5"/"3" and "05"/"03" both format as 2024-03-05. */
  lemma FormatDateExample()
    ensures FormatDate(DateValue("5", "3", "2024")) == "2024-03-05"
    ensures FormatDate(DateValue("05", "03", "2024")) == "2024-03-05"
  {
    FormatDatePadsSingleDigits('5', '3', "2024");
  }

  lemma EmptyEmailRequired()
    ensures ValidateEmail("") == Invalid(EmailRequired)
  {
  }

  lemma ShortAddressAccepted()
    ensures ValidateEmail("a@b.co") == Valid
  {
    LanguageIsMatched("a@b.co", 1, 3);
  }

  lemma UserAddressAccepted()
    ensures ValidateEmail("user@example.com") == Valid
  {
    LanguageIsMatched("user@example.com", 4, 12);
  }

  /** Without an '@' nothing matches the pattern. */
  lemma ValidateEmailRejectsNoAt()
    ensures ValidateEmail("not-an-email") == Invalid(InvalidEmail)
  {
    var s := "not-an-email";
    assert '@' !in s;
    assert IndexOf(s, '@') == None;
  }

  /** Typing the four values into a fresh form. */
  lemma TypedSession()
    ensures ApplyEdits(InitialState, [DateEdit(Day, "05"), DateEdit(Month, "03"),
                                      DateEdit(Year, "2024"), EmailEdit("user@example.com")])
         == FormState(FormValue(DateValue("05", "03", "2024"), "user@example.com"), false, NoErrors)
  {
    var edits := [DateEdit(Day, "05"), DateEdit(Month, "03"), DateEdit(Year, "2024"), EmailEdit("user@example.com")];
    assert edits[1..][1..][1..][1..] == [];
  }

  /** Submitting the typed session emits the formatted payload with no
      error shown. */
  lemma EndToEndSubmission()
    ensures var typed := FormState(FormValue(DateValue("05", "03", "2024"), "user@example.com"), false, NoErrors);
      && Submit(typed).emitted == Some(Payload("2024-03-05", "user@example.com"))
      && ShownDateError(Submit(typed).state) == None
      && ShownEmailError(Submit(typed).state) == None
  {
    var typed := FormState(FormValue(DateValue("05", "03", "2024"), "user@example.com"), false, NoErrors);
    SessionDateAccepted();
    UserAddressAccepted();
    FormatDateExample();
    SubmitOutcome(typed);
    SubmitShowsBothErrors(typed);
  }

  /** The session's date passes every date check. */
  lemma SessionDateAccepted()
    ensures ValidateDate(DateValue("05", "03", "2024")) == Valid
  {
    PaddedDayAccepted();
    PaddedMonthAccepted();
    YearOfSessionAccepted();
  }

  /** Submitting an empty form shows both required messages at once. */
  lemma EmptySubmissionShowsBothErrors()
    ensures ShownDateError(Submit(InitialState).state) == Some(DateRequired)
    ensures ShownEmailError(Submit(InitialState).state) == Some(EmailRequired)
    ensures Submit(InitialState).emitted == None
  {
    SubmitShowsBothErrors(InitialState);
  }
}
