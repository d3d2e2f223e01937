/** The exceptions the services throw. */
module Errors {

  /** The reason an `ArgumentException` gives in its message. */
  datatype Reason =
    | DuplicateName
    | UnsupportedExtension
    | FileTooLarge
    | NotAnImage
    | InvalidIdFormat
    | AmountNotPositive

  datatype Error =
    | ArgumentException(reason: Reason)
    | ArgumentNullException
    | KeyNotFoundException
}
