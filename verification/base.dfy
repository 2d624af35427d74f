/**
 * Small value types shared by every module: an optional value standing for
 * a JavaScript property that may be `undefined`, a result standing for a
 * call that may throw, and the two JavaScript coercions the sources rely on
 * (truthiness of a possibly-missing string and its rendering inside a
 * template literal).
 */
module Base {

  /** A JavaScript value that may be `undefined` (or `null`). */
  datatype Option<+T> = None | Some(value: T) {

    /** The value, or `default` when absent (a logical-or default on objects). */
    function GetOr(default: T): T {
      match this
      case Some(v) => v
      case None => default
    }
  }

  /** The outcome of a call that either returns `value` or throws `error`. */
  datatype Result<+T, +E> = Ok(value: T) | Err(error: E)

  /** JavaScript truthiness of a possibly-missing string: `undefined` and `""` are falsy. */
  predicate Truthy(s: Option<string>) {
    s.Some? && s.value != ""
  }

  /** How `${s}` renders a possibly-missing string inside a template literal. */
  function JsStr(s: Option<string>): string {
    match s
    case Some(v) => v
    case None => "undefined"
  }
}
