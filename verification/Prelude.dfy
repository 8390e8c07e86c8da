/** Types shared by every component of the model. */
module Prelude {

  /** The conventional optional value: Go's nil-able pointers and (value, ok) pairs. */
  datatype Option<+T> = None | Some(value: T) {
    function GetOr(default: T): T {
      if Some? then value else default
    }
  }
}
