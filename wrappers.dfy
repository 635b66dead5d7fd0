/** The optional value used for Python's `None` and for partial operations. */
module Wrappers {

  datatype Option<+T> = None | Some(value: T) {

    /** The value, or `default` when there is none. */
    function GetOr(default: T): (v: T) {
      match this
      case Some(v) => v
      case None => default
    }

    /** The value as a one-element sequence, or the empty sequence when there is none. */
    function ToSeq(): (r: seq<T>)
      ensures |r| <= 1 && (this.Some? ==> r == [this.value]) && (this.None? ==> r == [])
    {
      match this
      case Some(v) => [v]
      case None => []
    }
  }
}
