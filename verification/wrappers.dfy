/** Optional values and JavaScript truthiness of the few value shapes the
    capsule views test with `||`, `&&` and `if (x)`. */
module Wrappers {

  /** A field that may be missing (`undefined` or `null` in the source). */
  datatype Option<+T> = None | Some(value: T)

  /** The outcome of a step that may throw: a value, or the message of the
      `Error` thrown. */
  datatype Result<+T> = Ok(value: T) | Err(message: string)

  /** A string field is truthy when it is present and not the empty string. */
  predicate Truthy(s: Option<string>) {
    s.Some? && s.value != ""
  }

  /** `a || fallback` for an optional string. */
  function OrElse(a: Option<string>, fallback: string): (r: string)
    ensures Truthy(a) ==> r == a.value
    ensures !Truthy(a) ==> r == fallback
  {
    if Truthy(a) then a.value else fallback
  }
}
