/** A value that may be absent, as for an optional field of a loaded record
    or a configuration override that the embedding page may or may not set. */
module Wrappers {
  datatype Option<+T> = None | Some(value: T)
}
