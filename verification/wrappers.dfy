/** Absence as a value: Java's null references and empty Optionals are None. */
module Wrappers {

  datatype Option<+T> = None | Some(value: T)
}
