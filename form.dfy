/** The form controller: the date and email values, the per-field error
    messages, the `isSubmitted` flag, and how submitting and editing change
    them. With `mode` and `reValidateMode` both "onSubmit", rules run only on
    submit; an edit never touches the errors or the flag. */
module Form {
  import opened FormTypes
  import opened DateField
  import opened DateValidation
  import opened EmailRule

  datatype FormValue = FormValue(date: DateValue, email: string)

  /** The message each field's rule last reported, if it failed. */
  datatype FieldErrors = FieldErrors(date: Option<string>, email: Option<string>)

  datatype FormState = FormState(values: FormValue, submitted: bool, errors: FieldErrors)

  /** What `onSubmit` reports for a valid form. */
  datatype Payload = Payload(date: string, email: string)

  datatype Submission = Submission(state: FormState, emitted: Option<Payload>)

  /** A keystroke in one of the inputs. */
  datatype Edit = DateEdit(part: DatePart, text: string) | EmailEdit(text: string)

  const NoErrors := FieldErrors(None, None)

  /** The state at mount: the default values, not submitted, no errors. */
  const InitialState := FormState(FormValue(EmptyDate, ""), false, NoErrors)

  function ErrorOf(v: Verdict): Option<string>
  {
    match v
    case Valid => None
    case Invalid(message) => Some(message)
  }

  /** One keystroke: the field's value is replaced, nothing is validated. */
  function ApplyEdit(st: FormState, e: Edit): FormState
  {
    match e
    case DateEdit(p, text) => st.(values := st.values.(date := HandleChange(st.values.date, p, text)))
    case EmailEdit(text) => st.(values := st.values.(email := text))
  }

  function ApplyEdits(st: FormState, edits: seq<Edit>): FormState
    decreases |edits|
  {
    if edits == [] then st else ApplyEdits(ApplyEdit(st, edits[0]), edits[1..])
  }

  /** What the user does to the mounted form: a keystroke, or pressing
      the submit button. */
  datatype Action = Type(edit: Edit) | Press

  function Step(st: FormState, a: Action): FormState
  {
    match a
    case Type(e) => ApplyEdit(st, e)
    case Press => Submit(st).state
  }

  /** The state after a session of actions, the last one applied last. */
  function Run(st: FormState, acts: seq<Action>): FormState
    decreases |acts|
  {
    if acts == [] then st else Step(Run(st, acts[..|acts| - 1]), acts[|acts| - 1])
  }

  /** The position of the last submit in a session, if there was one. */
  function LastPress(acts: seq<Action>): (r: Option<nat>)
    ensures r.Some? ==> r.value < |acts| && acts[r.value] == Press
    ensures r.Some? ==> forall j :: r.value < j < |acts| ==> acts[j] != Press
    ensures r.None? ==> forall j :: 0 <= j < |acts| ==> acts[j] != Press
    decreases |acts|
  {
    if acts == [] then None
    else if acts[|acts| - 1] == Press then Some(|acts| - 1)
    else LastPress(acts[..|acts| - 1])
  }

  /** The submit handler: both rules run, their messages become the errors,
      the form counts as submitted, and `onSubmit` receives the formatted
      date and the email only when both rules pass. */
  function Submit(st: FormState): Submission
  {
    var dateVerdict := ValidateDate(st.values.date);
    var emailVerdict := ValidateEmail(st.values.email);
    var errors := FieldErrors(ErrorOf(dateVerdict), ErrorOf(emailVerdict));
    var emitted :=
      if dateVerdict == Valid && emailVerdict == Valid
      then Some(Payload(FormatDate(st.values.date), st.values.email))
      else None;
    Submission(st.(submitted := true, errors := errors), emitted)
  }

  /** The date error the view renders: `isSubmitted ? error?.message :
      undefined`, then `error && <p>`, so an empty message shows nothing. */
  function ShownDateError(st: FormState): Option<string>
  {
    if st.submitted && st.errors.date.Some? && st.errors.date.value != "" then st.errors.date else None
  }

  /** The email error the view renders: `isSubmitted && error && <p>`. */
  function ShownEmailError(st: FormState): Option<string>
  {
    if st.submitted then st.errors.email else None
  }

  /** Edits change only the values: the submitted flag and every error stay
      as they were until the next submit. */
  lemma {:induction false} EditsKeepFlagAndErrors(st: FormState, edits: seq<Edit>)
    ensures ApplyEdits(st, edits).submitted == st.submitted
    ensures ApplyEdits(st, edits).errors == st.errors
    decreases |edits|
  {
    if edits != [] {
      EditsKeepFlagAndErrors(ApplyEdit(st, edits[0]), edits[1..]);
    }
  }

  /** However the user types into a pristine form, no error is rendered. */
  lemma PristineFormShowsNoErrors(edits: seq<Edit>)
    ensures ShownDateError(ApplyEdits(InitialState, edits)) == None
    ensures ShownEmailError(ApplyEdits(InitialState, edits)) == None
  {
    EditsKeepFlagAndErrors(InitialState, edits);
  }

  /** A submit leaves the values alone, marks the form submitted, records
      each rule's verdict as that field's error, and emits exactly when
      both rules pass, with the formatted date and the email. */
  lemma SubmitOutcome(st: FormState)
    ensures Submit(st).state.values == st.values && Submit(st).state.submitted
    ensures Submit(st).state.errors.date == ErrorOf(ValidateDate(st.values.date))
    ensures Submit(st).state.errors.email == ErrorOf(ValidateEmail(st.values.email))
    ensures Submit(st).emitted.Some? <==> Submit(st).state.errors == NoErrors
    ensures Submit(st).emitted.Some? ==>
              Submit(st).emitted.value == Payload(FormatDate(st.values.date), st.values.email)
  {
  }

  /** Every message a rule reports is non-empty, so the view shows it. */
  lemma MessagesAreNonEmpty(st: FormState)
    ensures ValidateDate(st.values.date).Invalid? ==> ValidateDate(st.values.date).message != ""
    ensures ValidateEmail(st.values.email).Invalid? ==> ValidateEmail(st.values.email).message != ""
  {
  }

  /** Right after any submit the rendered errors are exactly the rules'
      messages, for both fields at once. */
  lemma SubmitShowsBothErrors(st: FormState)
    ensures ShownDateError(Submit(st).state) == ErrorOf(ValidateDate(st.values.date))
    ensures ShownEmailError(Submit(st).state) == ErrorOf(ValidateEmail(st.values.email))
  {
    MessagesAreNonEmpty(st);
  }

  /** Submitting again without edits gives the same errors and the same
      emission: validation depends on the values only. */
  lemma SubmitIdempotent(st: FormState)
    ensures Submit(Submit(st).state) == Submit(st)
  {
  }

  /** Once submitted, the form never becomes pristine again. */
  lemma SubmittedStaysSubmitted(st: FormState, edits: seq<Edit>)
    ensures ApplyEdits(Submit(st).state, edits).submitted
  {
    EditsKeepFlagAndErrors(Submit(st).state, edits);
  }

  /** Over any session, the rendered errors are decided by the last submit
      alone: with no submit they are what the starting state shows, and
      otherwise each is the message its rule gave for the values present
      at that submit, whatever was typed afterwards. */
  lemma {:induction false} ShownErrorsFollowLastSubmit(st: FormState, acts: seq<Action>)
    ensures LastPress(acts).None? ==>
              ShownDateError(Run(st, acts)) == ShownDateError(st)
              && ShownEmailError(Run(st, acts)) == ShownEmailError(st)
    ensures LastPress(acts).Some? ==>
              var before := Run(st, acts[..LastPress(acts).value]);
              && ShownDateError(Run(st, acts)) == ErrorOf(ValidateDate(before.values.date))
              && ShownEmailError(Run(st, acts)) == ErrorOf(ValidateEmail(before.values.email))
    decreases |acts|
  {
    if acts != [] {
      var prefix := acts[..|acts| - 1];
      var last := acts[|acts| - 1];
      if last == Press {
        SubmitShowsBothErrors(Run(st, prefix));
      } else {
        ShownErrorsFollowLastSubmit(st, prefix);
        assert LastPress(acts) == LastPress(prefix);
        if LastPress(prefix).Some? {
          assert acts[..LastPress(prefix).value] == prefix[..LastPress(prefix).value];
        }
      }
    }
  }

  /** From mount, no error is rendered until the first submit, and after
      it every rendered error is the message a rule gave at the last
      submit. */
  lemma FromMountErrorsNeedSubmit(acts: seq<Action>)
    ensures LastPress(acts).None? ==>
              ShownDateError(Run(InitialState, acts)) == None
              && ShownEmailError(Run(InitialState, acts)) == None
    ensures ShownDateError(Run(InitialState, acts)).Some? ==>
              LastPress(acts).Some?
              && ShownDateError(Run(InitialState, acts))
                 == ErrorOf(ValidateDate(Run(InitialState, acts[..LastPress(acts).value]).values.date))
    ensures ShownEmailError(Run(InitialState, acts)).Some? ==>
              LastPress(acts).Some?
              && ShownEmailError(Run(InitialState, acts))
                 == ErrorOf(ValidateEmail(Run(InitialState, acts[..LastPress(acts).value]).values.email))
  {
    ShownErrorsFollowLastSubmit(InitialState, acts);
  }
}
