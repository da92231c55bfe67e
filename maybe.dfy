/** The optional value used throughout the model: `None` stands for JavaScript's
    `undefined` / Python's `None`, `Some(v)` for a present value. */
module Maybe {

  datatype Option<+T> = None | Some(value: T)

  /** The option as a sequence of zero or one element (used for "emit at most one line"). */
  function ToSeq<T>(o: Option<T>): (s: seq<T>)
    ensures |s| <= 1
    ensures |s| == 1 <==> o.Some?
    ensures o.Some? ==> s[0] == o.value
  {
    match o
    case None => []
    case Some(v) => [v]
  }
}
