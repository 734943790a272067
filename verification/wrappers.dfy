/** The optional value used where the modelled code produces `NaN`
    instead of an integer. */
module Wrappers {

  datatype Option<+T> = None | Some(value: T)
}
