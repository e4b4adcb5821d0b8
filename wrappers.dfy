/** Swift's `Optional`, for the functions of the core that return `nil` on bad input. */
module Wrappers {

  datatype Option<T> = None | Some(value: T)
}
