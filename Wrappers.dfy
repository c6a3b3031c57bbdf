/** Optional values, outcomes and the .NET exceptions the move engine raises. */
module Wrappers {

  /** A value that may be absent (a C# null reference). */
  datatype Option<+T> = None | Some(value: T)

  /** The exceptions the core throws: ArgumentNullException, ArgumentOutOfRangeException and InvalidOperationException. */
  datatype Exception = ArgumentNull | ArgumentOutOfRange | InvalidOperation

  /** The value of an expression that either returns normally or throws. */
  datatype Result<+T> = Ok(value: T) | Err(error: Exception)

  /** The end of a void operation: it either returns normally or throws. */
  datatype Outcome = Pass | Fail(error: Exception)
}
