/** Shared vocabulary of the model: optional values, results standing for
    raised exceptions, identifiers and timestamps. */
module Common {

  datatype Option<+T> = None | Some(value: T) {
    /** The value, or `default` when absent (a field's declared default). */
    function GetOr(default: T): T
    {
      match this
      case Some(v) => v
      case None => default
    }
  }

  /** `Err` stands for an exception the Python code raises. */
  datatype Result<+T, +E> = Ok(value: T) | Err(error: E)

  /** A database UUID, seen as its 128-bit integer value (so that ordering
      by id is ordering by this number, as PostgreSQL orders UUIDs). */
  type Uuid = nat

  /** A timestamp as read from a `DateTime` column or from the clock, in
      whole seconds since the epoch. `Naive` carries no time zone. */
  datatype DateTime = Aware(utcSeconds: int) | Naive(seconds: int)

  /** The code replaces a missing time zone by UTC before comparing. */
  function AsUtc(t: DateTime): int
  {
    match t
    case Aware(s) => s
    case Naive(s) => s
  }

  const SecondsPerMinute: int := 60
  const SecondsPerDay: int := 86400
}
