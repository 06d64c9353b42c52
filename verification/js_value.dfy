/**
  JavaScript values as the front end uses them: `undefined`/`null` versus a
  present value, and the "truthiness" rule that `if (x)` and `x || fallback`
  apply to strings.
 */
module JsValue {

  /** A value that may be absent (`undefined` or `null` in the front end). */
  datatype Option<+T> = None | Some(value: T) {

    function GetOr(default: T): T {
      match this
      case Some(v) => v
      case None => default
    }
  }

  /** A string is truthy in JavaScript exactly when it is not empty. */
  predicate Truthy(s: Option<string>) {
    s.Some? && s.value != ""
  }

  /** `s || fallback` for a possibly absent string. */
  function OrElse(s: Option<string>, fallback: string): (r: string)
    ensures Truthy(s) ==> r == s.value
    ensures !Truthy(s) ==> r == fallback
  {
    if Truthy(s) then s.value else fallback
  }

  /** A parameter with a default: JavaScript substitutes the default only for `undefined`. */
  function Default<T>(arg: Option<T>, default: T): (r: T)
    ensures arg.Some? ==> r == arg.value
    ensures arg.None? ==> r == default
  {
    arg.GetOr(default)
  }
}
