/** The optional value used where the planner stores `null` or a lookup can miss. */
module Wrappers {

  datatype Option<+T> = None | Some(value: T)
}
