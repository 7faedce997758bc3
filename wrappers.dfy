/** Failure values of the address book: the exceptions the Python code raises, and the Option and
    Result types that replace `None` returns and raised exceptions. */
module Wrappers {

  /** The exception kinds the core can raise. */
  datatype Error =
    | PhoneFormatError  // raised by Phone for a number that is not ten digits
    | DateFormatError   // raised by Birthday when the text does not match DD.MM.YYYY
    | ValueError        // raised by datetime: an impossible calendar date, a year out of range
    | OverflowError     // raised by date + timedelta past 31.12.9999

  datatype Option<+T> = None | Some(value: T)

  datatype Result<+T> = Ok(value: T) | Err(error: Error)
}
