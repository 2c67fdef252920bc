/** Failure-carrying values shared by every module of the card builder model.
    Python returns `None` for "nothing here" and raises for errors; the model
    uses `Option` for the first and `Result` for the second. */
module Wrappers {

  datatype Option<+T> = None | Some(value: T) {

    /** The value, or `default` when there is none (Python's `x or default`
        when `x` can only be falsy by being absent). */
    function GetOr(default: T): T {
      match this
      case Some(v) => v
      case None => default
    }
  }

  /** The exceptions the modelled code can raise, by Python class. */
  datatype Error =
    | ValueError(reason: string)     // float() of a malformed string, bad unpacking
    | TypeError(reason: string)      // float(None) for a missing attribute
    | IndexError(reason: string)     // `[0]` of an empty XPath result
    | RuntimeError(reason: string)   // raised explicitly by the builder

  datatype Result<+T> = Ok(value: T) | Err(error: Error)
}
