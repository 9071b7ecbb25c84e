/** Optional values, and Python's truthiness of an optional string. */
module Wrappers {

  datatype Option<+T> = None | Some(value: T)

  /** A Python value that is either `None` or a `str` is truthy exactly when it
      is a non-empty string: `None` and `""` both behave as "absent". */
  predicate Truthy(s: Option<string>)
  {
    s.Some? && s.value != ""
  }
}
