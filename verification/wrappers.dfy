/** Values that a page lookup may fail to produce (a missing element or attribute). */
module Wrappers {

  datatype Option<T> = None | Some(value: T)
}
