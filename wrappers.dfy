/** The optional value used throughout the model; `None` also stands for
    JavaScript's `undefined`. */
module Wrappers {

  datatype Option<+T> = None | Some(value: T)
}
