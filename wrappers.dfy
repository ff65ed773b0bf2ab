/** The absence value of the store: JavaScript's `null` and `undefined`
    (a missing map entry) are both `None`. */
module Wrappers {

  datatype Option<+T> = None | Some(value: T)
}
