/** Failure-carrying results. The error cases are the .NET exceptions the
    original code lets escape, so that a model of a C# call that would throw
    returns `Throws(...)` instead. */
module Basics {

  datatype Option<+T> = None | Some(value: T)

  /** The exceptions the modelled code can raise. */
  datatype Exception =
    | KeyNotFound(key: string)    // a `Dictionary` indexer on a missing key
    | Format                      // `int.Parse`, `Convert.ToByte`, `IPAddress.Parse` rejecting their input
    | Overflow                    // `int.Parse` or `ushort.Parse` of a number outside the type's range
    | IndexOutOfRange             // an array index beyond the end of the array
    | ArgumentOutOfRange          // `Substring` or an index beyond the end of a string
    | InvalidOperation            // `SetResult` on an already-completed `TaskCompletionSource`
    | NullReference               // `Split` on the `null` that `ReadLineAsync` returns at end of stream

  datatype Result<+T> = Ok(value: T) | Throws(ex: Exception)
}
