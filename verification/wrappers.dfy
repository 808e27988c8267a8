/** The optional value used where the source can fail (a pose too short to hold a landmark). */
module Wrappers {
  datatype Option<+T> = None | Some(value: T)
}
