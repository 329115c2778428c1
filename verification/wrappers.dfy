/** Optional values, used for "no event this sample" and for a missing sensor event. */
module Wrappers {

  datatype Option<+T> = None | Some(value: T) {

    /** The value as a sequence of zero or one elements. */
    function ToSeq(): (s: seq<T>)
      ensures |s| <= 1
      ensures None? <==> s == []
      ensures Some? ==> s == [value]
    {
      match this
      case None => []
      case Some(v) => [v]
    }
  }
}
