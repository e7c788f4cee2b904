/** Swift optionals (`T?`), as used for the date of a calendar cell. */
module Wrappers {

  datatype Option<+T> = None | Some(value: T)
}
