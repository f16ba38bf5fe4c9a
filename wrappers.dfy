/** The optional value used where the C# source uses `null` or "no key available". */
module Wrappers {
  datatype Option<+T> = None | Some(value: T)
}
