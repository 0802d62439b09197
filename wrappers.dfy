/** Failure-carrying values used where the C# code throws or returns null. */
module Wrappers {

  /** A value that may be absent: C#'s null reference. */
  datatype Option<T> = None | Some(value: T)

  /** The .NET exceptions the modelled code can raise. */
  datatype Exception =
    | ArgumentError          // System.ArgumentException
    | ArgumentNull           // System.ArgumentNullException
    | ArgumentOutOfRange     // System.ArgumentOutOfRangeException
    | IndexOutOfRange        // System.IndexOutOfRangeException
    | KeyNotFound            // System.Collections.Generic.KeyNotFoundException
    | InvalidOperation       // System.InvalidOperationException
    | EndOfStream            // System.IO.EndOfStreamException
    | FormatError            // System.FormatException
    | NullReference          // System.NullReferenceException
    | Overflow               // System.OverflowException
    | SecurityError          // System.Security.SecurityException
    | DuplicateName          // System.Exception raised for a duplicate user name

  /** The outcome of a call that either returns a value or throws. */
  datatype Result<T> = Success(value: T) | Failure(error: Exception)

  /** The outcome of a call that returns nothing or throws. */
  datatype Outcome = Pass | Fail(error: Exception)
}
