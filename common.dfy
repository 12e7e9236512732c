/** Shared vocabulary of the calibration-entry model: optional values, the
    errors an entry raises, and results that carry either a value or an error. */
module Common {

  datatype Option<+T> = None | Some(value: T)

  /** Why an entry operation raised, one constructor per cause. */
  datatype Error =
      /** `PulseError` from the constructor: an argument name is not a string. */
    | InvalidArguments
      /** `PulseError` from `_parse_argument`: the user's names are not the schedule's parameter names. */
    | ArgumentMismatch
      /** `ValueError` from `inspect.Parameter`: a name is not an identifier, or is a keyword. */
    | InvalidParameterName
      /** `ValueError` from `inspect.Signature`: the same name twice. */
    | DuplicateParameterName
      /** `PulseError` wrapping the `TypeError` of `bind` or `bind_partial`. */
    | BindFailure
      /** An attribute looked up on `None`: the entry has no definition, or no signature, yet. */
    | Undefined
      /** `TypeError` from iterating `None`: a Qobj entry is built before its source is defined. */
    | NoSource

  datatype Result<+T> = Ok(value: T) | Err(error: Error)

  /** The result of an operation that returns nothing but may raise. */
  datatype Outcome = Pass | Fail(error: Error)
}
