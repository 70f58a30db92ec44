/** Results shared by every operation of the cache: an optional value for the
    lookups, and the error tags the operations return in place of the
    source's formatted error messages. */
module Outcomes {

  /** A lookup result: `None` where the source returns the zero value and `false`. */
  datatype Option<+T> = None | Some(value: T)

  /** The failure conditions of the engine and of the numeric extension. */
  datatype CacheError =
    | AlreadyExists   // Add: a live entry is present
    | DoesNotExist    // Replace: no live entry is present
    | NotFound        // numeric operations: the key is absent or expired
    | DecodeError     // Load: the snapshot could not be decoded

  /** The `error` return of a mutating operation: `Ok` stands for a nil error. */
  datatype Status = Ok | Err(error: CacheError)
}
