/** Optional values, standing in for JavaScript's `undefined`/`null` alternatives. */
module Wrappers {

  /** `None` is the absent value (`undefined` or `null`); `Some` carries a present one. */
  datatype Option<+T> = None | Some(value: T)

  /** An optional value as a sequence of zero or one elements. */
  function ToSeq<T>(o: Option<T>): (s: seq<T>)
    ensures |s| <= 1
    ensures o.Some? <==> |s| == 1
    ensures o.Some? ==> s[0] == o.value
  {
    match o
    case Some(v) => [v]
    case None => []
  }
}
