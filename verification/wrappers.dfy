/** The optional value used wherever the component holds `null` or reads a
    possibly-absent host value (the submitted snapshot, the selected file). */
module Wrappers {

  datatype Option<+T> = None | Some(value: T)
}
