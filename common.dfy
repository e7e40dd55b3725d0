/** Option and Result values used for Java's null and thrown exceptions. */
module Common {

  datatype Option<+T> = None | Some(value: T)
  {
    function GetOr(default: T): T
    {
      match this
      case Some(v) => v
      case None => default
    }
  }

  /** The outcome of a call that either returns a value or throws. */
  datatype Result<+T, +E> = Ok(value: T) | Err(error: E)

  /** The exceptions the modelled code throws, by Java class. */
  datatype JavaException =
    | IllegalArgument(message: string)
    | NumberFormat(input: string)
    | IndexOutOfBounds
    | UnsupportedOperation(message: string)
}
