/** Values standing for Java's `null`-able results and for the exceptions the
    game code lets escape. */
module Outcomes {

  datatype Option<+T> = None | Some(value: T)

  /** The Java exceptions that the modelled code can throw. */
  datatype Exception =
    | IndexOutOfBounds         // GamePiece.createPiece with an unknown piece number
    | StringIndexOutOfBounds   // String.substring past the end
    | NumberFormat             // Integer.parseInt on a malformed or out-of-range number
    | NoSuchElement            // Queue.remove or Collections.min on an empty collection
    | RejectedExecution        // scheduling on a scheduler that was shut down

  /** How a call that returns nothing ended: normally, or by throwing. */
  datatype Status = Completed | Threw(exception: Exception)

  /** A value, or the exception thrown instead of returning it. */
  datatype Result<+T> = Ok(value: T) | Err(exception: Exception)
}
