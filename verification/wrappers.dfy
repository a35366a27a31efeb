/** Option, the value-or-nothing type the Rust code gets from `find`, `get` and
    the coordinate moves. */
module Wrappers {
  datatype Option<+T> = None | Some(value: T)
}
