/** Error kinds raised by the analysis engine, and the result type that carries them. */
module Outcomes {

  /** The `ValueError`s raised in analyse.py, one constructor per distinct cause. */
  datatype Error =
    | UnknownPeriodType          // "Unknown period type"
    | MissingCounterName         // "must pass counter_name for '...' mode"
    | NoSuchHabit(name: string)  // "No habit named '...'"
    | UnknownStreakType          // "streak_type must be 'current' or 'longest'"

  datatype Result<T> = Ok(value: T) | Err(error: Error)
}
