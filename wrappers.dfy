/** The optional value used where the firmware never returns (blinkToDeath). */
module Wrappers {
  datatype Option<+T> = None | Some(value: T)
}
