/** The exceptions the core can raise, reduced to the information a caller
    of the core observes: which kind of error, and its message. */
module Errors {

  datatype Error =
      /** InvalidInputError: a user-facing validation message. */
    | InvalidInput(message: string)
      /** ValueError raised by strptime on text that is not a YYYY-MM-DD date. */
    | MalformedDate(text: string)
      /** OverflowError raised by date arithmetic that leaves years 1..9999. */
    | DateOverflow
      /** NBPConnectionError: a failed request to the rate source. */
    | NbpConnection(message: string)
}
