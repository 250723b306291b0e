/** Failure-carrying return values shared by the whole model. */
module Results {

  datatype Option<+T> = None | Some(value: T)

  /** The error conditions the server reports to its client. */
  datatype Error =
    | ClientDisconnected   // recv returned 0 or less
    | InputTooLong         // more than INPUT_CHARACTER_LIMIT characters
    | InputEmpty           // nothing before the line end
    | InvalidCharacter     // a character other than a letter, a space or a hyphen
    | OutputTooLong        // assembled output over OUTPUT_CHARACTER_LIMIT characters

  datatype Result<+T> = Success(value: T) | Failure(error: Error)
}
