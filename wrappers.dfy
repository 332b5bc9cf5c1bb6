/** The optional value used wherever the program uses Python's `None`. */
module Wrappers {

  datatype Option<+T> = None | Some(value: T) {

    /** The wrapped value, or `default` when there is none. */
    function GetOr(default: T): T {
      match this
      case Some(v) => v
      case None => default
    }
  }

  /** Python's `text or default` on an optional text: NULL and the empty
      string both give `default`. */
  function OrDefault(o: Option<string>, default: string): (s: string)
    ensures o.Some? && o.value != "" ==> s == o.value
    ensures o.None? || o.value == "" ==> s == default
  {
    if o.None? || o.value == "" then default else o.value
  }
}
