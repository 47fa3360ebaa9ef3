/** Optional values and results with an error, used where the source returns null or throws. */
module Wrappers {

  datatype Option<+T> = None | Some(value: T)

  datatype Result<+T, +E> = Ok(value: T) | Err(error: E)

  /** Prefixes `p` to the sequence held by `o`, propagating a failure. */
  function Prepend<T>(p: seq<T>, o: Option<seq<T>>): (r: Option<seq<T>>)
    ensures r.Some? <==> o.Some?
    ensures r.Some? ==> |r.value| == |p| + |o.value| && r.value[..|p|] == p && r.value[|p|..] == o.value
  {
    match o
    case None => None
    case Some(s) => Some(p + s)
  }

  lemma PrependPrepend<T>(p: seq<T>, q: seq<T>, o: Option<seq<T>>)
    ensures Prepend(p, Prepend(q, o)) == Prepend(p + q, o)
  {
    if o.Some? {
      assert p + (q + o.value) == (p + q) + o.value;
    }
  }
}
