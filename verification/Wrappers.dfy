/** The option type shared by the machines. */
module Wrappers {

  datatype Option<T> = None | Some(value: T)
}
