/** The optional value used wherever the stub may or may not have something:
    a callback that is configured or not, a reply that is sent or not, a
    checksum trailer that parses or not. */
module Wrappers {
  datatype Option<+T> = None | Some(value: T)
}
