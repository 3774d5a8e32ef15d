/** Failure values shared by the whole model: every exception the bowling domain throws
    becomes an `Error` tag, and an operation that may throw returns a `Result`. */
module Outcomes {

  /** One tag per way the domain code can refuse an operation. */
  datatype Error =
    | PinsOutOfRange          // a pin count outside 0..10
    | CantThrowBall           // a throw into a frame that is already finished
    | FinalStateSizeExceeded  // a final frame holding more than two states
    | FrameNumberOutOfRange   // a frame number outside 1..10
    | Rejected                // the domain exception raised without a message

  datatype Result<+T> = Ok(value: T) | Err(error: Error)

  datatype Option<+T> = None | Some(value: T)
}
