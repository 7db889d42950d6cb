/** Explicit results for the archive's callbacks: each callback either carries
    an error or a value, never both. */
module Results {

  datatype Option<+T> = None | Some(value: T) {
    /** `x || default` for an optional argument. */
    function GetOr(default: T): T {
      if Some? then value else default
    }
  }

  /** Errors the archive passes on or raises. */
  datatype Error =
    | IoError(reason: string)   // reported by a feed's storage, passed on verbatim
    | Sealed                    // an append to a feed that is already finalized
    | NotYetImplemented         // thrown by the declared but unimplemented operations

  /** The completion of a callback that carries no value: `cb()` or `cb(err)`. */
  datatype Outcome = Pass | Fail(error: Error)

  /** The completion of a callback that carries a value: `cb(null, v)` or `cb(err)`. */
  datatype Result<+T> = Success(value: T) | Failure(error: Error)
}
