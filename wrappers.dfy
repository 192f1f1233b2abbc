/** The conventional optional value, used for a regex match that may be absent,
    an environment variable that may be unset and a body that may not decode. */
module Wrappers {
  datatype Option<+T> = None | Some(value: T)
}
