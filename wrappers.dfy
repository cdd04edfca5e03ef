/** The usual optional value. */
module Wrappers {

  datatype Option<+T> = None | Some(value: T)

  /** The empty sequence for None, the one-element sequence for Some. */
  function ToSeq<T>(o: Option<T>): (r: seq<T>)
    ensures |r| == if o.Some? then 1 else 0
    ensures o.Some? ==> r[0] == o.value
  {
    match o
    case None => []
    case Some(v) => [v]
  }
}
