/** Shared vocabulary of the model: optional values, results and the time unit.
    Instants and durations are whole nanosecond ticks, as in Go's time package. */
module Common {
  datatype Option<+T> = None | Some(value: T) {
    function GetOr(default: T): T { if Some? then value else default }
  }

  datatype Result<+T, +E> = Ok(value: T) | Err(error: E)

  /** An instant or a duration. */
  type Tick = int

  const SECOND: Tick := 1_000_000_000
  const MINUTE: Tick := 60 * SECOND
  const HOUR: Tick := 60 * MINUTE

  function Max(a: int, b: int): int { if a < b then b else a }

  function Min(a: int, b: int): int { if a < b then a else b }
}
