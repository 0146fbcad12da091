/** Optional values: a missing Redis key, a SQL NULL, a Python None. */
module Wrappers {

  datatype Option<+T> = None | Some(value: T)

  /** A string that Python's `if s:` accepts. */
  predicate Truthy(s: Option<string>) { s.Some? && s.value != "" }
}
