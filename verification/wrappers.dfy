/** The optional value used for the firmware's `None`-initialised globals. */
module Wrappers {

  datatype Option<+T> = None | Some(value: T)
}
