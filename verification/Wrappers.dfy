/** Results that may be missing, as the source's error returns. */
module Wrappers {

  datatype Option<+T> = None | Some(value: T)
}
