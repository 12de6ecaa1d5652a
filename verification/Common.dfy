/** Shared result types. */
module Common {
  datatype Option<+T> = None | Some(value: T)

  datatype Status = Ok | Error
}
