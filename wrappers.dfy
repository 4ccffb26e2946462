/** The optional value used for JavaScript's `undefined` result of an
    out-of-range array index. */
module Wrappers {

  datatype Option<+T> = None | Some(value: T)
}
