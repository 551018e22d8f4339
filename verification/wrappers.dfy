/** An optional value, for what the source treats as possibly absent (`None`). */
module Wrappers {
  datatype Option<+T> = None | Some(value: T)
}
