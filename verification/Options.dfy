/** The two result types every module shares: a value that may be missing, and a
    computation that may throw. */
module Options {

  datatype Option<+T> = None | Some(value: T)

  datatype Result<+T, +E> = Ok(value: T) | Err(error: E)
}
