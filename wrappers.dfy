/** Optional values: an attribute or parameter that may be absent. */
module Wrappers {

  datatype Option<+T> = None | Some(value: T)

  /** Python truthiness of an optional string parameter: `not x` holds for
      a missing value and for the empty string. */
  predicate Present(s: Option<string>)
  {
    s.Some? && s.value != ""
  }
}
