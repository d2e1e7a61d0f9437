/** The tagged values that cross the layers of the picture-data store: an optional
    value (Kotlin's nullable `T?`), the `Result` wrapper of `data/Result.kt`, the
    exceptions carried by `Result.Error`, and how a `suspend fun` returning `Unit`
    finishes (normally, or by throwing). */
module Outcomes {

  /** A nullable value: `None` stands for Kotlin's `null`. */
  datatype Option<+T> = None | Some(value: T)

  /** A thrown or wrapped exception, identified by its message. */
  datatype Exception = Exception(message: string)

  /** `Result.Success(data)` or `Result.Error(exception)`. */
  datatype Result<+T> = Success(data: T) | Error(exception: Exception)

  /** The `succeeded` extension property: the result is a `Success`. */
  predicate Succeeded<T>(r: Result<T>)
  {
    r.Success?
  }

  /** How a call that returns `Unit` ends: normally, or with an exception that
      propagates to its caller. */
  datatype Completion = Normal | Thrown(exception: Exception)

  /** What the backing store does when it is called: `None` means the call completes,
      `Some(e)` means it throws `e` (an SQL or I/O failure whose cause is not modelled). */
  type Fault = Option<Exception>
}
