/** Result shapes shared by the server actions. */
module Envelope {

  /** A value that may be absent (`undefined`/`null` in the source, a failed lookup). */
  datatype Option<+T> = None | Some(value: T)

  /** What a server action gives its caller: the `{success: true, data}` envelope,
      the `{success: false, error}` envelope, or an `Error` thrown across the
      action boundary (the source throws in a few places instead of returning). */
  datatype Response<+T> = Success(data: T) | Failure(error: string) | Thrown(message: string)
}
