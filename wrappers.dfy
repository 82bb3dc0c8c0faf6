/** The conventional optional value: `None` stands for JavaScript's `null`/`undefined`
    and Python's `None`. */
module Wrappers {
  datatype Option<+T> = None | Some(value: T)
}
