/** Option and Result wrappers shared by the subtitle pipeline model. */
module Results {

  /** A value that may be absent (Python's `None` / an unset placeholder). */
  datatype Option<T> = None | Some(value: T)

  /** The outcome of a step that can raise: `Ok` with its value, or `Err` with
      the exception that would abort the script. */
  datatype Result<T, E> = Ok(value: T) | Err(error: E)
}
