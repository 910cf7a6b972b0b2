/** Optional values and fallible results, shared by every module. */
module Wrappers {

  datatype Option<+T> = None | Some(value: T)

  function GetOr<T>(o: Option<T>, default: T): T {
    if o.Some? then o.value else default
  }

  datatype Result<+T, +E> = Ok(value: T) | Err(error: E)
}
