/** Failure-compatible wrappers used throughout the model: an optional value
    (a Go nil pointer or a missing map entry) and a value-or-error result
    (a Go `(T, error)` pair). */
module Wrappers {

  datatype Option<+T> = None | Some(value: T) {

    /** The zero- or one-element sequence holding the encapsulated value;
        this is how a "append if not nil" step contributes to a slice. */
    function ToSeq(): (s: seq<T>)
      ensures |s| <= 1
      ensures Some? ==> s == [value]
      ensures None? ==> s == []
    {
      match this
      case Some(v) => [v]
      case None => []
    }
  }

  datatype Result<+T, +E> = Success(value: T) | Failure(error: E)
}
