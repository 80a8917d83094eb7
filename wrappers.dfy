/** Optional values and results with an error message: the model's stand-ins for
    JavaScript's `null`/`undefined` and for a rejected promise or a thrown Error. */
module Wrappers {

  datatype Option<T> = None | Some(value: T) {
    /** The value, or `default` when there is none (JavaScript's `x || default`). */
    function GetOr(default: T): T {
      if Some? then value else default
    }
  }

  /** A value, or the `message` of the Error that was thrown instead. */
  datatype Result<T> = Ok(value: T) | Err(message: string)
}
