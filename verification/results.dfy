/** Failure-carrying wrappers shared by every module of the model. */
module Results {

  /** A value that may be absent: a nullable column or a lookup that can miss. */
  datatype Option<+T> = None | Some(value: T) {

    /** The carried value, or `default` when absent (Python's `x or default` on a nullable). */
    function GetOr(default: T): T {
      match this
      case Some(v) => v
      case None => default
    }
  }

  /** The outcome of an operation that either produces a value or raises an error. */
  datatype Result<+T, +E> = Ok(value: T) | Err(error: E)

  /** The position of the first element satisfying `p`: how every "first row where ..." lookup of the model reads. */
  function FirstMatching<T>(s: seq<T>, p: T -> bool): (r: Option<nat>)
    ensures r.Some? ==> r.value < |s| && p(s[r.value])
    ensures r.Some? ==> forall j | 0 <= j < r.value :: !p(s[j])
    ensures r.None? <==> forall j | 0 <= j < |s| :: !p(s[j])
    decreases |s|
  {
    if |s| == 0 then None
    else if p(s[0]) then Some(0)
    else
      match FirstMatching(s[1..], p)
      case Some(k) =>
        assert s[k + 1] == s[1..][k];
        Some(k + 1)
      case None =>
        assert forall j | 1 <= j < |s| :: s[j] == s[1..][j - 1];
        None
  }
}
