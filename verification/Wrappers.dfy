/** The optional value used by every model in this project for Go's nil-or-value
    and value-or-error results. Which error message is returned is not modelled. */
module Wrappers {

  datatype Option<+T> = None | Some(value: T)

}
