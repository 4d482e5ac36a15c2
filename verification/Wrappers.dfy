/** The two failure-compatible shapes the model needs: an absent value and an error return. */
module Wrappers {

  datatype Option<+T> = None | Some(value: T)

  /** `a || b` on optional values. */
  function OrElse<T>(a: Option<T>, b: Option<T>): Option<T> {
    if a.Some? then a else b
  }
}
