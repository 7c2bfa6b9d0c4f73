// A value, or what the source throws instead; a value, or none.
module Outcomes {
  datatype Outcome<+T, +E> = Ok(value: T) | Thrown(error: E)

  datatype Option<+T> = None | Some(value: T)
}
