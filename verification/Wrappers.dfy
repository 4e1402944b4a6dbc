/** The two result types the model uses for nullable values and for thrown exceptions. */
module Wrappers {

  datatype Option<+T> = None | Some(value: T)

  /** `Err` stands for an exception that leaves the function; `kind` says which one. */
  datatype Result<+T> = Ok(value: T) | Err(kind: ErrorKind)

  datatype ErrorKind =
    | IllegalArgument
    | IllegalState
    | MigrationsFailed  // an `IllegalStateException` that replaces the first attempt's
    | SqlError
    | Encoding
}
