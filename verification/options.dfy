/** A value that may be missing: what the source writes as `null` or `undefined`. */
module Options {

  datatype Option<T> = None | Some(value: T)

  /** The held value, or `fallback` when there is none (JavaScript's `x || fallback` on a nullable). */
  function ValueOr<T>(o: Option<T>, fallback: T): (r: T)
    ensures o.Some? ==> r == o.value
    ensures o.None? ==> r == fallback
  {
    if o.Some? then o.value else fallback
  }
}
