/** The optional value used throughout the model for JavaScript's `undefined`/`null`. */
module Wrappers {

  /** `None` stands for an absent (undefined or null) value. */
  datatype Option<+T> = None | Some(value: T) {

    /** The `??` operator: the value if present, otherwise `default`. */
    function GetOr(default: T): T {
      match this
      case Some(v) => v
      case None => default
    }
  }

  /** A string-valued optional as JavaScript's `||` sees it: absent or empty is falsy. */
  predicate Truthy(s: Option<string>) {
    s.Some? && s.value != ""
  }

  /** `s || default` for an optional string. */
  function OrElse(s: Option<string>, default: string): (r: string)
    ensures Truthy(s) ==> r == s.value
    ensures !Truthy(s) ==> r == default
  {
    if s.Some? && s.value != "" then s.value else default
  }
}
