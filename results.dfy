/** Values standing for the outcomes of calls that may raise. Every failure
    the contact book raises is a Python `ValueError`; the reason says which
    check raised it. */
module Results {

  datatype Option<+T> = None | Some(value: T)

  datatype Reason =
    | PhoneLength(digits: nat)  // `Phone.validate`: not exactly 10 digits
    | DateFormat                // `strptime` refused the birthday string
    | NotEnoughValues           // tuple unpacking of too few arguments

  datatype Exception = ValueError(reason: Reason) | IndexError | KeyError

  datatype Result<+T> = Ok(value: T) | Err(error: Exception)

  /** The result of a call that returns nothing or raises. */
  datatype Outcome = Pass | Fail(error: Exception)
}
