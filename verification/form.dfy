/** The submit handler of the input form (handleSubmit in UserInputForm.tsx):
    the checks that stand between the form fields and the metrics engine.

    Date parsing and number parsing are not part of this model: `parseDate` is
    what `new Date(text)` yields, a millisecond timestamp or None for an Invalid
    Date, and `parseNumber` is parseFloat. */
module Form {
  import opened Wrappers
  import opened Profile

  /** The form's state: the text of each input, the three selections, and the
      error message shown (empty when none). */
  datatype FormState = FormState(
    birthdate: string,
    country: string,
    height: string,
    weight: string,
    gender: Gender,
    activityLevel: ActivityLevel,
    diet: Diet,
    error: string)

  const MissingFieldsError: string := "Please fill out all fields."
  const FutureBirthdateError: string := "Birthdate cannot be in the future."

  /** The form before any edit: empty inputs, male, moderate activity, omnivore. */
  function InitialForm(): FormState {
    FormState("", "", "", "", Male, Moderate, Omnivore, "")
  }

  /** Some text input is still empty (the selections always hold a value). */
  predicate HasEmptyField(f: FormState) {
    f.birthdate == "" || f.country == "" || f.height == "" || f.weight == ""
  }

  /** The birthdate lies strictly after `nowMs`. An Invalid Date compares false
      with every date, so it never counts as in the future. */
  predicate IsFutureBirthdate(f: FormState, nowMs: int, parseDate: string -> Option<int>) {
    match parseDate(f.birthdate)
    case None => false
    case Some(t) => t > nowMs
  }

  /** The form after a submit, and the profile handed to onCalculate, if any. */
  datatype Submission = Submission(form: FormState, submitted: Option<UserData>)

  /** One press of the submit button at time `nowMs`. */
  function HandleSubmit(f: FormState, nowMs: int, parseDate: string -> Option<int>, parseNumber: string -> real)
    : (r: Submission)
    ensures r.form == f.(error := r.form.error)
    ensures r.submitted.Some? <==> r.form.error == ""
    ensures r.form.error == MissingFieldsError <==> HasEmptyField(f)
    ensures r.form.error == FutureBirthdateError <==> !HasEmptyField(f) && IsFutureBirthdate(f, nowMs, parseDate)
    ensures !HasEmptyField(f) && !IsFutureBirthdate(f, nowMs, parseDate) ==> r.form.error == ""
    ensures r.submitted.Some? ==>
      r.submitted.value == UserData(f.birthdate, f.country, parseNumber(f.height), parseNumber(f.weight),
                                    f.gender, f.activityLevel, f.diet)
  {
    var cleared := f.(error := "");
    if HasEmptyField(cleared) then
      Submission(cleared.(error := MissingFieldsError), None)
    else if IsFutureBirthdate(cleared, nowMs, parseDate) then
      Submission(cleared.(error := FutureBirthdateError), None)
    else
      Submission(cleared, Some(UserData(
        birthdate := cleared.birthdate,
        country := cleared.country,
        height := parseNumber(cleared.height),
        weight := parseNumber(cleared.weight),
        gender := cleared.gender,
        activityLevel := cleared.activityLevel,
        diet := cleared.diet)))
  }

  /** Submitting the untouched form asks for the missing fields. */
  lemma InitialFormRejected(nowMs: int, parseDate: string -> Option<int>, parseNumber: string -> real)
    ensures var r := HandleSubmit(InitialForm(), nowMs, parseDate, parseNumber);
      r.submitted == None && r.form.error == MissingFieldsError
  {
  }

  /** The message left over from an earlier submit has no effect on the next one. */
  lemma PreviousErrorIrrelevant(f: FormState, e: string, nowMs: int,
                                parseDate: string -> Option<int>, parseNumber: string -> real)
    ensures HandleSubmit(f.(error := e), nowMs, parseDate, parseNumber)
         == HandleSubmit(f, nowMs, parseDate, parseNumber)
  {
  }

  /** Height and weight are only checked for presence: whether a form is accepted
      does not depend on the numbers its inputs parse to, negative ones included. */
  lemma AcceptanceIgnoresParsedNumbers(f: FormState, nowMs: int, parseDate: string -> Option<int>,
                                       parseNumber1: string -> real, parseNumber2: string -> real)
    ensures HandleSubmit(f, nowMs, parseDate, parseNumber1).submitted.Some?
        <==> HandleSubmit(f, nowMs, parseDate, parseNumber2).submitted.Some?
  {
  }

  /** An accepted birthdate that parses lies at or before the submit time; one
      equal to it is accepted. */
  lemma AcceptedBirthdateNotInFuture(f: FormState, nowMs: int, parseDate: string -> Option<int>,
                                     parseNumber: string -> real)
    requires !HasEmptyField(f)
    ensures parseDate(f.birthdate).Some? ==>
      (HandleSubmit(f, nowMs, parseDate, parseNumber).submitted.Some? <==> parseDate(f.birthdate).value <= nowMs)
  {
  }

  /** A complete form whose birthdate is an Invalid Date is accepted: the date
      check compares false, so the profile goes on with an unparseable birthdate. */
  lemma InvalidDateAccepted(f: FormState, nowMs: int, parseDate: string -> Option<int>,
                            parseNumber: string -> real)
    requires !HasEmptyField(f)
    requires parseDate(f.birthdate).None?
    ensures var r := HandleSubmit(f, nowMs, parseDate, parseNumber);
      r.submitted.Some? && r.submitted.value.birthdate == f.birthdate
  {
  }
}
