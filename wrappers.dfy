/** Option and Result, with the members that make them usable with `:-`. */
module Wrappers {

  datatype Option<+T> = None | Some(value: T) {

    /** The value, or `default` when there is none. */
    function GetOr(default: T): T {
      match this
      case Some(v) => v
      case None => default
    }
  }

  datatype Result<+R, +E> = Success(value: R) | Failure(error: E) {

    predicate IsFailure() {
      Failure?
    }

    function PropagateFailure<U>(): Result<U, E>
      requires Failure?
    {
      Failure(error)
    }

    function Extract(): R
      requires Success?
    {
      value
    }
  }
}

/**
 * The Python exceptions the modelled code can raise, by class. Their messages
 * are kept only where the code builds one itself.
 */
module Exceptions {

  datatype PyException =
    | JsonDecodeError          // json.loads rejects the text
    | AttributeError           // `.get` or `.lower` called on a value of the wrong type
    | TypeError                // iterating over null, a boolean or a number
    | ValidationError          // pydantic rejects a field value
    | ValueError(message: string)
}
