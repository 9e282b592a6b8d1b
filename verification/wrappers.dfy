/** The two wrappers the whole model shares: `Option` stands for Python's
    `Optional[...]` and for a lookup that may find nothing; `Result` is an
    operation that either yields a value or refuses the request with an
    error. */
module Wrappers {

  datatype Option<+T> = None | Some(value: T)

  datatype Result<+R, +E> = Success(value: R) | Failure(error: E)
}
