/** Failure-carrying wrappers shared by every module of the model.
    `Option` stands for Python's `None` / pandas' null cell, `Result` for a
    call that either returns a value or raises. */
module Base {

  datatype Option<+T> = None | Some(value: T)

  datatype Result<+T, +E> = Ok(value: T) | Err(error: E)

  /** A Python exception: its class name and message. */
  datatype Raised = Raised(kind: string, message: string)
}
