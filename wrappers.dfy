/** The optional-value type used throughout the model in place of Python's `None`
    and TypeScript's `null`/`undefined`. */
module Wrappers {

  datatype Option<+T> = None | Some(value: T) {

    /** The wrapped value, or `default` when there is none. */
    function GetOr(default: T): T {
      if Some? then value else default
    }
  }

  /** Truthiness of an optional string in Python and JavaScript: present and
      not empty. */
  predicate Truthy(s: Option<string>) { s.Some? && s.value != "" }

  /** Python's `a or b` on optional strings: `None` and `""` are both falsy. */
  function OrElse(a: Option<string>, b: Option<string>): (r: Option<string>)
    ensures a.Some? && a.value != "" ==> r == a
    ensures (a.None? || a.value == "") ==> r == b
  {
    if a.Some? && a.value != "" then a else b
  }

  /** Python's `a or b` on optional counts: `None` and `0` are both falsy. */
  function IntOr(a: Option<nat>, b: Option<nat>): (r: Option<nat>)
    ensures a.Some? && a.value != 0 ==> r == a
    ensures (a.None? || a.value == 0) ==> r == b
  {
    if a.Some? && a.value != 0 then a else b
  }
}
