/** Small value types shared by the validators and the form controller. */
module FormTypes {

  /** A value that may be absent, as `undefined` is in the JavaScript form. */
  datatype Option<+T> = None | Some(value: T)

  /** What a validation rule yields: success (`true` in the JavaScript form) or
      the human-readable message of the first failing check. */
  datatype Verdict = Valid | Invalid(message: string)
}
