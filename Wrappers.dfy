/** The conventional Some/None datatype, standing for JavaScript's `null`,
    `undefined` and `NaN` results where the page returns or receives one. */
module Wrappers {

  datatype Option<+T> = None | Some(value: T)
}
