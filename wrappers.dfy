/** An optional value: the source's "absent" results made explicit. */
module Wrappers {
  datatype Option<+T> = None | Some(value: T)
}
