/** Result and option types shared by every module. */
module Wrappers {

  datatype Option<+T> = None | Some(value: T)

  /** `Err` stands for a thrown exception or a refused call. */
  datatype Result<+T, +E> = Ok(value: T) | Err(error: E)
}
