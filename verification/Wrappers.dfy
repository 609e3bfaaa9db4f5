/** A value that may be absent. */
module Wrappers {
  datatype Option<T> = None | Some(value: T) {
    function UnwrapOr(default: T): T { if Some? then value else default }
  }
}
