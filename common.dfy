/** Shared value types: Python's `Optional[...]` and its truthiness. */
module Common {

  datatype Option<+T> = None | Some(value: T) {
    /** Python's `x or default` when `x` is an Optional of a value that is never falsy. */
    function GetOr(default: T): T {
      match this
      case Some(v) => v
      case None => default
    }
  }

  /** The outcome of a call that may raise: its return value, or the fact that it raised. */
  datatype Fallible<+T> = Returned(value: T) | Raised

  /** Python truthiness of an `Optional[str]`: None and "" are falsy. */
  predicate Truthy(s: Option<string>) {
    s.Some? && s.value != ""
  }

  /** Python's `s or default` on an `Optional[str]`. */
  function OrElse(s: Option<string>, default: string): string
  {
    if Truthy(s) then s.value else default
  }
}
