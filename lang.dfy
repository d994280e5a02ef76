/** Java-level vocabulary shared by the FTP session model: nullable references
    and the ways a call can end (a value, or one of the exceptions the session
    and its client raise). */
module Lang {

  /** A Java reference that may be `null` (`None`). */
  datatype Option<+T> = None | Some(value: T)

  /** The exceptions an operation of the session can end with.
      - IllegalArgument: `Assert.hasText` / `Assert.notNull` rejected an argument;
      - IllegalState: `Assert.state` rejected the client's state;
      - IOFailure: the session turned a `false` from the client into an `IOException`;
      - Transport: the client itself raised (connection reset, protocol error, ...),
        propagated unchanged. */
  datatype Failure =
    | IllegalArgument(message: string)
    | IllegalState(message: string)
    | IOFailure(message: string)
    | Transport(cause: string)

  /** How a Java call ends: normally with a value, or by throwing. */
  datatype Outcome<+T> = Ok(value: T) | Fail(error: Failure)

  /** What Java's string concatenation writes for a nullable string. */
  function Show(s: Option<string>): (text: string)
  {
    match s
    case None => "null"
    case Some(v) => v
  }
}
