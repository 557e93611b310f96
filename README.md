# DateEmailForm validation core, modelled in Dafny

`src/DateEmailForm.jsx` is a React registration form with a composite date
of birth (day, month, year typed as text) and an email field. Behind the
markup sits a small core, which this project models as pure Dafny
functions and proves properties of:

- **`handleChange`** in the `DateInput` control: every keystroke produces a
  complete new `{day, month, year}` record with one sub-field replaced
  (`DateField.HandleChange`).
- **`validateDate`**: emptiness, then day in 1..31, then month in 1..12,
  then the year (an integer prefix and a length of exactly 4). The first
  failing check gives the message (`DateValidation.ValidateDate`).
- **`parseInt(s, 10)`**, which the three numeric checks rely on: it skips
  leading white space, reads an optional sign and the longest run of
  decimal digits, and ignores what follows. With no digit it gives NaN
  (`JsParseInt.ParseInt10`). So `"5x"` is day 5 and `"12ab"` passes the year
  check.
- **The date string built in `onSubmit`**: the year, the month and the day
  joined by '-', with month and day passed through `padStart(2, '0')`
  (`DateValidation.FormatDate`, `JsText.PadStart`).
- **The email rules**: `required`, then the anchored, case-insensitive
  pattern `^[A-Z0-9._%+-]+@[A-Z0-9.-]+\.[A-Z]{2,}$`. The pattern is decided
  over character classes (`EmailRule.MatchesEmailPattern`) and proved
  equal to the pattern's language (`EmailRule.InPatternLanguage`).
- **The form controller and the error display**: values, per-field errors
  and the `isSubmitted` flag (`Form.FormState`). Edits never revalidate
  (`mode` and `reValidateMode` are "onSubmit"). A submit runs both rules and
  emits the formatted payload only when both pass. An error is rendered only
  once the form has been submitted (`Form.ShownDateError`,
  `Form.ShownEmailError`).

JavaScript semantics are written out where they matter:

- String `length` and `padStart` count UTF-16 code units (`JsText.JsLength`).
  So `"12😀"` has length 4 and passes the year check.
- The white space `parseInt` skips is ECMAScript's StrWhiteSpaceChar set:
  TAB, VT, FF, ZWNBSP, the Unicode category Zs, LF, CR, LS and PS.
- Under the `i` flag without `u`, a non-ASCII character never folds onto an
  ASCII letter. So only ASCII letters, in either case, match `[A-Z]`.

The messages say "(must be 1-31)", "(must be 1-12)" and "(must be 4
digits)", but the code accepts more. A day or month passes when its text
*starts* with an in-range integer: `"5x"`, `" 7"`, `"+3"` and `"005"` are all
accepted days. A year passes when it starts with an integer and is four
UTF-16 code units long, so `"12ab"` passes. The submitted date string copies
the typed text, so an accepted date need not look like YYYY-MM-DD. Day
`"5x"` with month `"3"` and year `"2024"` gives `"2024-03-5x"`, and day `"005"`
gives `"2024-03-005"` (`Scenarios.NonIsoPayloadAccepted`). The ISO layout is
promised only for all-digit fields with day and month of at most two digits
(`DateValidation.FormatDateIso`).

Files: `form_types.dfy` (Option, Verdict), `js_text.dfy`,
`js_parse_int.dfy`, `date_field.dfy`, `date_validation.dfy`,
`email_rule.dfy`, `form.dfy`, `scenarios.dfy` (concrete inputs worked
through the model).

## Model

| member | source | states |
|---|---|---|
| JsText.JsLength | src/DateEmailForm.jsx:97 | `length` counts UTF-16 code units: between the number of characters and twice that |
| JsText.JsLengthOfBmp | src/DateEmailForm.jsx:97 | for text inside the Basic Multilingual Plane, `length` is the number of characters |
| JsText.PadStart | src/DateEmailForm.jsx:107 | `padStart(n, '0')` returns a string of length max(n, length(s)) that ends with s and is '0' before it |
| JsText.PadStartToTwo | src/DateEmailForm.jsx:107 | `padStart(2, '0')` gives "00" for "", "0" + s for one code unit, and s unchanged for two or more |
| JsParseInt.ParseInt10 | src/DateEmailForm.jsx:84-97 | `parseInt(s, 10)`; characterised by ParseIntNaNIff, ParseIntOfShape and ParseIntIgnoresSuffix below |
| JsParseInt.SkipWhitespaceSpec | src/DateEmailForm.jsx:84 | the skipped prefix is all white space and what is kept does not start with white space |
| JsParseInt.LeadingDigitsSpec | src/DateEmailForm.jsx:84 | the digit run read is a prefix of digits that cannot be extended |
| JsParseInt.ParseIntOfShape | src/DateEmailForm.jsx:84-97 | white space, then a sign, then digits, then text not starting with a digit parses to the signed value of the digits |
| JsParseInt.ParseIntNaNIff | src/DateEmailForm.jsx:84-97 | `parseInt` is NaN exactly when no digit follows the leading white space and optional sign (both directions) |
| JsParseInt.ParseIntIgnoresSuffix | src/DateEmailForm.jsx:84 | digits followed by non-digit text parse to the digits' value: trailing text is ignored |
| JsParseInt.ParseIntOfDigits | src/DateEmailForm.jsx:84 | a plain run of digits parses to its decimal value |
| JsParseInt.DigitsValueZeroPadded | src/DateEmailForm.jsx:107 | leading '0's do not change the value of a run of digits |
| DateField.HandleChange | src/DateEmailForm.jsx:7-11 | the named sub-field holds the new text and the other two hold their previous values |
| DateField.HandleChangeOverwrites | src/DateEmailForm.jsx:8-11 | writing one sub-field twice keeps only the second text |
| DateField.HandleChangeCommutes | src/DateEmailForm.jsx:8-11 | edits of two different sub-fields give the same record in either order |
| DateField.HandleChangeSameText | src/DateEmailForm.jsx:8-11 | reporting a sub-field's current text again leaves the record unchanged |
| DateValidation.ValidateDate | src/DateEmailForm.jsx:77-102 | `validateDate`; characterised by ValidateDateReportsFirstFailure, ValidateDateSound and ValidateDateAcceptsPrefixes below |
| DateValidation.ValidateDateReportsFirstFailure | src/DateEmailForm.jsx:77-102 | each message is returned exactly when its check fails and all earlier checks pass, in the order empty, day, month, year; success exactly when all pass |
| DateValidation.ValidateDateSound | src/DateEmailForm.jsx:84-101 | an accepted date has an integer prefix in every sub-field, `parseInt(day)` in 1..31, `parseInt(month)` in 1..12 and a year of length 4 |
| DateValidation.ValidateDateAcceptsPrefixes | src/DateEmailForm.jsx:84-98 | any day and month starting with an in-range number, whatever follows, and any length-4 year with an integer prefix, are accepted |
| DateValidation.FourDigitYearAccepted | src/DateEmailForm.jsx:96-98 | every four-digit year passes the year check, including "0000" and "9999" |
| DateValidation.FormatDate | src/DateEmailForm.jsx:106-107 | the date template of `onSubmit`; characterised by FormatDateIso and FormatDatePadsSingleDigits below |
| DateValidation.PaddedDigits | src/DateEmailForm.jsx:107 | a one- or two-digit field pads to two digits with the value `parseInt` reads |
| DateValidation.FormatDateIso | src/DateEmailForm.jsx:106-107 | an accepted all-digit date with day and month at most two long formats as YYYY-MM-DD; the MM and DD parts are the values `parseInt` read |
| DateValidation.FormatDatePadsSingleDigits | src/DateEmailForm.jsx:107 | one-character day and month format the same as their '0'-padded forms, as year + "-0" + month + "-0" + day |
| EmailRule.MatchesEmailPattern | src/DateEmailForm.jsx:161 | the pattern test; characterised by MatchesEmailPatternIff below |
| EmailRule.MatchesEmailPatternIff | src/DateEmailForm.jsx:161 | the character-class decision procedure accepts exactly the language of the anchored pattern (both directions) |
| EmailRule.AcceptedHasOneAt | src/DateEmailForm.jsx:161 | an accepted address contains exactly one '@' |
| EmailRule.ValidateEmail | src/DateEmailForm.jsx:158-163 | the `required` and `pattern` rules; characterised by ValidateEmailRules below |
| EmailRule.ValidateEmailRules | src/DateEmailForm.jsx:158-163 | "" gives the required message before the pattern is consulted; a non-empty address is valid exactly when it is in the pattern's language and otherwise gets the pattern's message |
| Form.ApplyEdit | src/DateEmailForm.jsx:7-14 | a keystroke replaces one field's value and validates nothing; characterised by EditsKeepFlagAndErrors below |
| Form.Submit | src/DateEmailForm.jsx:104-114 | the submit handler; characterised by SubmitOutcome, SubmitShowsBothErrors and SubmitIdempotent below |
| Form.ShownDateError | src/DateEmailForm.jsx:143 | the date error the view renders (the `error &&` test at line 55); characterised by ShownErrorsFollowLastSubmit below |
| Form.ShownEmailError | src/DateEmailForm.jsx:174-176 | the email error the view renders; characterised by ShownErrorsFollowLastSubmit below |
| Form.LastPress | src/DateEmailForm.jsx:126 | the position of the last submit in a session: it is a submit, and no submit follows it; none means the session has no submit |
| Form.ShownErrorsFollowLastSubmit | src/DateEmailForm.jsx:143 | over any session of keystrokes and submits, each rendered error is the message its rule gave for the values present at the last submit, whatever was typed afterwards; with no submit the rendering is unchanged |
| Form.FromMountErrorsNeedSubmit | src/DateEmailForm.jsx:174-176 | from mount, no error renders until a submit has happened, and a rendered error is the rule's message for the values at the last submit |
| Form.EditsKeepFlagAndErrors | src/DateEmailForm.jsx:68-69 | any sequence of edits leaves the submitted flag and both recorded errors unchanged |
| Form.PristineFormShowsNoErrors | src/DateEmailForm.jsx:68-74 | however the user types into a freshly mounted form, no error is rendered |
| Form.SubmitOutcome | src/DateEmailForm.jsx:104-114 | a submit keeps the values, sets the submitted flag, records each rule's message, and emits exactly when no error is recorded; the payload is the formatted date and the email |
| Form.MessagesAreNonEmpty | src/DateEmailForm.jsx:79-99 | every message either rule reports is non-empty, so the view renders it |
| Form.SubmitShowsBothErrors | src/DateEmailForm.jsx:143 | right after a submit, both fields render exactly their rule's message at once |
| Form.SubmitIdempotent | src/DateEmailForm.jsx:126 | submitting again without edits gives the same state and the same emission |
| Form.SubmittedStaysSubmitted | src/DateEmailForm.jsx:66 | once submitted, the form stays submitted through any edits |
| Scenarios.ParseIntTrailingText | src/DateEmailForm.jsx:84 | `parseInt("5x")` is 5 and `parseInt("12ab")` is 12 |
| Scenarios.ParseIntSignAndSpace | src/DateEmailForm.jsx:84 | `parseInt("  -7")` is -7 |
| Scenarios.ParseIntNoDigit | src/DateEmailForm.jsx:85 | `parseInt("x5")` and `parseInt("+ 5")` are NaN |
| Scenarios.RequiredBeforeDay | src/DateEmailForm.jsx:79-81 | day "99" with an empty month gives the required message |
| Scenarios.DayBeforeMonth | src/DateEmailForm.jsx:84-87 | day "32" with month "13" gives the day message |
| Scenarios.MonthBeforeYear | src/DateEmailForm.jsx:90-93 | month "13" with a three-character year gives the month message |
| Scenarios.ShortYearRejected | src/DateEmailForm.jsx:96-99 | year "204" gives the year message |
| Scenarios.TrailingDayAccepted | src/DateEmailForm.jsx:84-87 | day "5x" is accepted |
| Scenarios.OddYearsAccepted | src/DateEmailForm.jsx:96-98 | years "12ab", "0000" and "9999" are accepted |
| Scenarios.DaySpaceAndSignAccepted | src/DateEmailForm.jsx:84-87 | days " 7" and "+3" pass the day check |
| Scenarios.SpacedDayAccepted | src/DateEmailForm.jsx:84-87 | dates with day " 7" or "+3", month "3" and year "2024" are accepted |
| Scenarios.NonIsoPayloadAccepted | src/DateEmailForm.jsx:106-107 | days "5x" and "005" are accepted and reach the date string as typed: "2024-03-5x" and "2024-03-005" |
| Scenarios.FormatDateExample | src/DateEmailForm.jsx:107 | "5"/"3"/"2024" and "05"/"03"/"2024" both format as "2024-03-05" |
| Scenarios.EmptyEmailRequired | src/DateEmailForm.jsx:159 | "" gives "Email is required" |
| Scenarios.ShortAddressAccepted | src/DateEmailForm.jsx:161 | "a@b.co" is accepted |
| Scenarios.UserAddressAccepted | src/DateEmailForm.jsx:161 | "user@example.com" is accepted |
| Scenarios.ValidateEmailRejectsNoAt | src/DateEmailForm.jsx:160-162 | "not-an-email" gives "Invalid email address" |
| Scenarios.TypedSession | src/DateEmailForm.jsx:7-14 | typing 05, 03, 2024 and an email into a fresh form yields those values, unsubmitted, with no errors |
| Scenarios.EndToEndSubmission | src/DateEmailForm.jsx:104-114 | submitting that session emits date "2024-03-05" with the email and shows no error |
| Scenarios.EmptySubmissionShowsBothErrors | src/DateEmailForm.jsx:143 | submitting the empty form shows both required messages and emits nothing |

## Left out

- JSX markup, class names, labels and the submit button: presentation only.
- Form.Submit: models a submit event that reaches `handleSubmit` (line 126). The email input has `type="email"` (line 169), and the `<form>` has no `noValidate`. So the browser's own constraint validation can block a submit with a non-empty value that is not a valid HTML email, such as `"a@b..co"`, which the pattern accepts. The browser also strips newlines and leading and trailing white space from the value. Neither is modelled. In such a session `handleSubmit` never runs, `isSubmitted` stays false and no message is shown.
- The react-hook-form library (`useForm`, `Controller`, `handleSubmit`): its source is not part of this model. `Form.Submit` models only the documented effect: both rules run, `isSubmitted` becomes true, errors are recorded, and `onSubmit` runs only when both rules pass. Focus handling and asynchronous validation are not modelled.
- `console.log` and `alert` in `onSubmit` and `onError`: output only. The model gives the formatted payload they would print.
- `forwardRef` and the `onChange` callback: framework plumbing. `handleChange` is modelled as the function that returns the new record.
- Number precision: `parseInt` returns a double, but the model keeps an unbounded integer. This changes no comparison the form makes. Integers too big for a double still compare greater than 31, and Infinity is not NaN.
- `-0`: `parseInt("-0")` is `-0` in JavaScript and `0` in the model; every comparison in `validateDate` treats them the same.
- Lone UTF-16 surrogates: a Dafny `string` holds Unicode scalar values, so text containing an unpaired surrogate cannot be represented.
- `value.day || ""` in the inputs: the model's sub-fields are always strings, as the default value `{day: "", month: "", year: ""}` makes them.
- JsText.PadStart: models `padStart` with the fill string '0' only, the one the form uses, not an arbitrary fill string.
