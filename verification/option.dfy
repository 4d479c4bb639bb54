/** Python's `None`-able values. */
module Optional {

  datatype Option<T> = None | Some(value: T)

  /** `d.get(key, fallback)` once the lookup is done: the value when there is
      one, the fallback otherwise. */
  function ValueOr<T>(o: Option<T>, fallback: T): T {
    if o.Some? then o.value else fallback
  }
}
