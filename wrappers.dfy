/** Optional values and results with an error, used for JavaScript's
    null/undefined fields and for the handshake's rejection. */
module Wrappers {

  datatype Option<+T> = None | Some(value: T)

  datatype Result<+R, +E> = Success(value: R) | Failure(error: E)

  /** The elements of an optional value, as a set. */
  function OptSet<T>(o: Option<T>): (r: set<T>)
    ensures o.None? <==> r == {}
    ensures o.Some? ==> o.value in r && |r| == 1
  {
    if o.Some? then {o.value} else {}
  }

  /** Taking one of two different optional elements out of their union
      leaves the other. */
  lemma OptSetMinus<T>(a: Option<T>, b: Option<T>)
    requires a.Some? && b.Some? ==> a.value != b.value
    ensures (OptSet(a) + OptSet(b)) - OptSet(a) == OptSet(b)
    ensures (OptSet(a) + OptSet(b)) - OptSet(b) == OptSet(a)
  {
  }
}
