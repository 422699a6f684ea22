/** Failure-carrying wrappers shared by every layer of the booking engine, and
    the first-match search that every repository lookup is built on. */
module Common {

  datatype Option<+T> = None | Some(value: T)

  /** The failures the services raise. NotFound, Unauthorized and Forbidden are
      the domain errors; Crash stands for the TypeError a JavaScript property
      read on a missing row raises, which carries none of the domain names. */
  datatype ErrorKind = NotFound | Unauthorized | Forbidden | Crash

  /** The value a service returns, or the error it throws. */
  datatype Result<+T> = Ok(value: T) | Err(error: ErrorKind)

  /** The verdict of a check that carries no value. */
  datatype Verdict = Pass | Fail(error: ErrorKind)

  /** The index of the first element satisfying `p`, as a `findFirst` query
      returns the first matching row. */
  function IndexWhere<T>(xs: seq<T>, p: T -> bool): (r: Option<nat>)
    ensures r.Some? ==> r.value < |xs| && p(xs[r.value])
    ensures r.Some? ==> forall j :: 0 <= j < r.value ==> !p(xs[j])
    ensures r.None? ==> forall j :: 0 <= j < |xs| ==> !p(xs[j])
  {
    if |xs| == 0 then None
    else if p(xs[0]) then Some(0)
    else match IndexWhere(xs[1..], p)
      case None => None
      case Some(i) => Some(i + 1)
  }
}
