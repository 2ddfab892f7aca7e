/** The result of a webhook turn: the reply, or the error the handler raises. */
module Wrappers {

  datatype Result<R, E> = Success(value: R) | Failure(error: E)
}
