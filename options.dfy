/** The optional value used where the source distinguishes "absent" (null, undefined, a deleted
    property, a cleared timeout) from any present value, including an empty one. */
module Options {

  datatype Option<+T> = None | Some(value: T)

  /** The present value as a sequence of length zero or one. */
  function ToSeq<T>(o: Option<T>): (s: seq<T>)
    ensures |s| <= 1
    ensures o.Some? <==> |s| == 1
    ensures o.Some? ==> s[0] == o.value
  {
    match o
    case None => []
    case Some(v) => [v]
  }
}
