/** The two small sum types every component shares. */
module Common {

  datatype Option<+T> = None | Some(value: T)

  datatype Result<+T> = Ok(value: T) | Err

  /** Instants and durations are whole nanoseconds. */
  const SECOND: int := 1_000_000_000
}
