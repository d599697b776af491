/** Option and Result values shared by every module of the model. */
module Base {

  /** A value that may be absent: `null`/`undefined` in the frontend, `Option` in the core. */
  datatype Option<+T> = None | Some(value: T) {
    function GetOr(default: T): T {
      match this
      case Some(v) => v
      case None => default
    }
  }

  /** The outcome of an operation that can fail with a message. */
  datatype Result<+T> = Ok(value: T) | Err(message: string)
}
