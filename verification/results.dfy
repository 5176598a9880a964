/** Outcomes of the modelled operations: a value, or the one exception the
    model represents. */
module Results {

  /** The exception JavaScript raises when `reduce` or `reduceRight` is called
      on an empty array without an initial value (a TypeError). */
  datatype JsError = ReduceOfEmptyArrayWithNoInitialValue

  /** Either the value an operation returns or the exception it throws. */
  datatype Result<+T> = Ok(value: T) | Throw(error: JsError)

  /** An optional argument: `Omitted` stands for an argument left out (or
      passed as `undefined`), which makes a JavaScript default parameter apply. */
  datatype Option<+T> = Omitted | Given(value: T) {

    /** The argument if given, otherwise the parameter's default. */
    function GetOr(default: T): T {
      match this
      case Given(v) => v
      case Omitted => default
    }
  }
}
