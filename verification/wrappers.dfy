/** Option and Result, the two failure-carrying values the model uses for
    the bot's "nothing" and "error" paths. */
module Wrappers {

  datatype Option<+T> = None | Some(value: T)

  datatype Result<+R, +E> = Success(value: R) | Failure(error: E)
}
