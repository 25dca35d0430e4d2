/** Optional values and results with an error, used for the source's `null`/`None` and its exceptions. */
module Wrappers {

  datatype Option<+T> = None | Some(value: T)

  datatype Result<+T, +E> = Success(value: T) | Failure(error: E)

  /** JavaScript's `x || ''` and `Array.prototype.join` both write a missing string as the empty string. */
  function OrEmpty(o: Option<string>): string {
    if o.Some? then o.value else ""
  }
}
