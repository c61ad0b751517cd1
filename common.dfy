/** Small failure-carrying datatypes shared by every module of the model. */
module Common {

  /** `None` stands for JavaScript's `undefined` (a missing property, a missing map entry). */
  datatype Option<T> = None | Some(value: T) {
    function GetOr(default: T): T {
      match this
      case Some(v) => v
      case None => default
    }
  }

  /** The exceptions the modelled code raises or lets escape to a handler's `catch`. */
  datatype Err =
    | SyntaxError            // JSON.parse rejected a text
    | TypeError              // a property read on undefined/null, or a call through undefined
    | LoadError(reason: string) // the database loader failed (file missing, unreadable, malformed)

  /** A computation that either produced a value or threw. */
  datatype Result<T> = Ok(value: T) | Fail(error: Err)
}
