/** Optional values and the exceptions the timetable code raises, as values. */
module Wrappers {

  datatype Option<+T> = None | Some(value: T)

  /** The Python exceptions that the modelled code can raise on bad input. */
  datatype Error =
    | ValueError  // a malformed time token, or an order with no served stop
    | KeyError    // a lookup of a train id the schedule does not hold

  datatype Result<+T> = Ok(value: T) | Err(error: Error)
}
