module Basics {
  datatype Option<+T> = None | Some(value: T)

  predicate IsDigit(c: char) { '0' <= c <= '9' }
}
