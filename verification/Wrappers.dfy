/** Failure-carrying results shared by every module. */
module Wrappers {
  datatype Option<+T> = None | Some(value: T)

  /** A value, or the code of the application error the program raises instead. */
  datatype Result<+T> = Ok(value: T) | Err(code: string)
}
