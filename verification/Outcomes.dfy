/** Errors and results shared by every module. */
module Outcomes {

  /** The sentinels a caller can test for, plus what a context or a transport may report. */
  datatype Error =
    | InvalidInput
    | UnsupportedOperation
    | AuthorizationFailed
    | CommandRejected
    | ProtocolError
    | Timeout
    | Disconnected
    | Canceled
    | DeadlineExceeded
    | EndOfInput
    | Foreign(code: int)

  datatype Option<+T> = None | Some(value: T)

  datatype Result<+T> = Ok(value: T) | Err(error: Error)

  /** A deadline that expires is reported as a timeout; every other error passes through. */
  function WrapContext(e: Error): (w: Error)
    ensures w != DeadlineExceeded
    ensures w == e || (e == DeadlineExceeded && w == Timeout)
  {
    if e == DeadlineExceeded then Timeout else e
  }
}
