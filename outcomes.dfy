/** The tagged values a calculator screen can end in: a value shown in its
    result label, or one of the two error messages the screens print. */
module Outcomes {

  datatype Option<+T> = None | Some(value: T)

  /** The two error texts of the application. */
  datatype Failure = InvalidInput | InvalidDateFormat

  /** What one press of "Calculate" (or "Convert") leaves in the result label. */
  datatype Outcome<+T> = Ok(value: T) | Err(failure: Failure)

  /** The exact text each failure puts in the result label. */
  function Message(f: Failure): string
  {
    match f
    case InvalidInput => "Invalid input."
    case InvalidDateFormat => "Invalid date format."
  }

  /** The age screen's message is a different text from everyone else's. */
  lemma MessagesDiffer()
    ensures Message(InvalidInput) != Message(InvalidDateFormat)
  {
    assert Message(InvalidInput)[8] != Message(InvalidDateFormat)[8];
  }
}
