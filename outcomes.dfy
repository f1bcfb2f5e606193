/** The exceptions the driver throws, and the value-or-exception type its operations return. */
module Outcomes {

  /** Why an operation was refused; the message of the exception the driver throws. */
  datatype Reason =
    | WrongLength                        // show: null array or length other than 4
    | UnsupportedChar(c: char)           // show: character missing from the segment table
    | BrightnessOutOfRange(value: int)   // setBrightness: outside 0..15
    | AlreadyReady                       // setup: controller already set up
    | NullScheme                         // setup: numbering scheme is null
    | NotReady                           // getInstance: setup has not succeeded yet

  /** The two Java exception classes the driver throws. */
  datatype Failure =
    | IllegalArgument(reason: Reason)
    | IllegalState(reason: Reason)

  datatype Result<T> = Ok(value: T) | Err(failure: Failure)

  datatype Option<T> = None | Some(value: T)
}
