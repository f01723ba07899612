/** The optional value used across the model: Python's `None` and JavaScript's missing results. */
module Opt {

  datatype Option<+T> = None | Some(value: T)
}
