/** The nullable values of the application: `null` versus a present value. */
module Wrappers {

  datatype Option<T> = None | Some(value: T)
}
