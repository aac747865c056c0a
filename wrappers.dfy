// Small value wrappers shared by the modules of this model.

module Wrappers {

  /** A value that may be absent (a null pointer, an unset TOptional, a missing map entry). */
  datatype Option<T> = None | Some(value: T)
  {
    predicate IsSome() { Some? }

    function GetOr(default: T): (r: T)
      ensures Some? ==> r == value
      ensures None? ==> r == default
    {
      match this
      case Some(v) => v
      case None => default
    }
  }

  /** The outcome of an operation that can fail with an error code. */
  datatype Status = Ok | Err
}
