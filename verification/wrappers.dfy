/** Option and Result values shared by every module of the model. A JavaScript
    `undefined` (an absent field, an unset optional argument) is modelled as
    `None`; a rejected promise or thrown `Error` as `Failure(message)`. */
module Wrappers {

  datatype Option<+T> = None | Some(value: T) {

    /** The carried value, or `default` when there is none. */
    function GetOr(default: T): T {
      match this
      case Some(v) => v
      case None => default
    }
  }

  datatype Result<+R, +E> = Success(value: R) | Failure(error: E)
}
