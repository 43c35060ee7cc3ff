/** Option, Result and the exceptions the modelled code throws. */
module Wrappers {

  /** A nullable value: `None` stands for C#'s `null`. */
  datatype Option<+T> = None | Some(value: T) {
    function GetOr(default: T): T {
      match this
      case Some(v) => v
      case None => default
    }
  }

  /** The exceptions that the modelled code lets escape to its caller. */
  datatype Exception =
    | InvalidOperation(message: string)   // System.InvalidOperationException
    | ArgumentNull(paramName: string)     // System.ArgumentNullException
    | DbUpdate                            // the store refused a commit

  /** Either a returned value or a thrown exception. */
  datatype Result<+T> = Returns(value: T) | Throws(exception: Exception)
}
