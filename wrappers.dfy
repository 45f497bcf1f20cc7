/** Failure-carrying wrappers shared by every module of the model. */
module Wrappers {

  /** A value that may be absent (Python `None`, JavaScript `null`). */
  datatype Option<+T> = None | Some(value: T)

  /** The outcome of an operation that may raise: `Err` carries the raised error. */
  datatype Result<+T, +E> = Ok(value: T) | Err(error: E)

  /**
   * Python exceptions that the modelled code can raise; `APIError` is the
   * Supabase client's error for a request the database refused.
   */
  datatype PyError = KeyError(key: string) | ValueError(message: string) | APIError(message: string)
}
