/** Nullable values (`T | null | undefined` in the application) and error-or-value results. */
module Optional {

  /** A value that may be missing: JavaScript's `null` and `undefined` both become `None`. */
  datatype Option<+T> = None | Some(value: T) {

    /** The value, or `default` when missing: the `??` operator. */
    function GetOr(default: T): T {
      match this
      case Some(v) => v
      case None => default
    }
  }

  /** Either a value or the message the user is shown instead. */
  datatype Result<+T> = Ok(value: T) | Err(message: string)
}
