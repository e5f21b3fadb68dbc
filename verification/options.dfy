/** An absent-or-present value: a request body field, a search attribute or
    a file that may be missing. */
module Options {

  datatype Option<T> = None | Some(value: T) {
    /** The value, or `fallback` when absent. */
    function GetOr(fallback: T): T {
      if Some? then value else fallback
    }
  }
}
