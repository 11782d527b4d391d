/** Option and Result types shared by the model, and JavaScript truthiness of optional strings. */
module Wrappers {

  /** A value that JavaScript may leave `undefined`. */
  datatype Option<+T> = None | Some(value: T)

  /** The outcome of a JavaScript call that may throw: a value or the thrown message. */
  datatype Result<+R> = Ok(value: R) | Err(message: string)

  /** JavaScript truthiness of a possibly-undefined string: undefined and "" are falsy. */
  predicate Truthy(s: Option<string>) {
    s.Some? && s.value != ""
  }

  /** `s || fallback` for a possibly-undefined string. */
  function OrElse(s: Option<string>, fallback: string): (r: string)
    ensures Truthy(s) ==> r == s.value
    ensures !Truthy(s) ==> r == fallback
  {
    if Truthy(s) then s.value else fallback
  }
}
