/** Optional values: a DOM lookup, a `dataset` entry or a `localStorage.getItem`
    that may come back `null`/`undefined`. */
module Wrappers {

  datatype Option<+T> = None | Some(value: T)

  /** JavaScript truthiness of a string that may be `null` or `undefined`:
      present and non-empty. */
  predicate Truthy(v: Option<string>) {
    v.Some? && v.value != ""
  }
}
