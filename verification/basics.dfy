/** Failure-carrying wrappers shared by every module of the model.
    `None` stands for a Java `null`; `Err` for a thrown exception. */
module Basics {

  datatype Option<+T> = None | Some(value: T)

  datatype Result<+T, +E> = Ok(value: T) | Err(error: E)
}
