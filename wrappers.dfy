/** Optional values and the exceptions the plugin throws, as values. */
module Wrappers {

  /** A Java reference that may be null. */
  datatype Option<+T> = None | Some(value: T)

  /** The exceptions thrown by the modelled code. */
  datatype Error =
    | InvalidParameter(message: string)   // java.security.InvalidParameterException
    | FileNotFound(message: string)       // java.io.FileNotFoundException
    | IndexOutOfBounds                    // charAt / array index / substring out of range
    | NullReference                       // a method called on a field that was never set

  /** Either a value or the exception that was thrown instead. */
  datatype Result<+T> = Ok(value: T) | Err(error: Error) {
    predicate IsFailure() { Err? }

    function PropagateFailure<U>(): Result<U>
      requires Err?
    {
      Err(error)
    }

    function Extract(): T
      requires Ok?
    {
      value
    }
  }
}
