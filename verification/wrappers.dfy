/** Failure-compatible wrappers shared by the whole model.

    `Option` stands for the TypeScript `T | null | undefined`: `None` is
    either of JavaScript's two "nothing" values, which every comparison in
    the modelled code treats alike (loose `==`, `!= null`, truthiness of an
    object).
 */
module Wrappers {

  datatype Option<+T> = None | Some(value: T) {

    /** Returns the value in `Some`, or `default` for `None`. */
    function GetOr(default: T): T {
      match this
      case Some(v) => v
      case None => default
    }
  }

  /** The value thrown by a failing await: an `Error` carries a message, any
      other thrown value does not. */
  datatype Thrown = ErrorObject(message: string) | NonError

  /** The outcome of an awaited foreign call: its value, or what it threw. */
  datatype Attempt<+T> = Done(value: T) | Throws(thrown: Thrown)
}
