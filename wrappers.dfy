/** Option and Result values used in place of Python's None and exceptions. */
module Wrappers {

  datatype Option<+T> = None | Some(value: T)

  /** The exceptions the modelled code raises, one constructor per kind. */
  datatype Error =
    | ValueError(text: string)   // int() on a malformed literal, a malformed fstab line
    | IndexError                 // a list or string index out of range
    | ToolFailed(tool: string)   // a subprocess that exited with a non-zero status
    | Fatal(reason: string)      // sys.exit(1) after a configuration check
    | BadRequest(code: int)      // a symbol server answer other than HTTP 200
    | UpdateError(reason: string) // UpdateException of the update tools

  datatype Result<+T> = Success(value: T) | Failure(error: Error) {
    predicate IsFailure() { Failure? }
    function PropagateFailure<U>(): Result<U>
      requires Failure?
    {
      Failure(error)
    }
    function Extract(): T
      requires Success?
    {
      value
    }
  }

  predicate AllSucceed<T>(rs: seq<Result<T>>)
  {
    forall i :: 0 <= i < |rs| ==> rs[i].Success?
  }

  /** The position of the first failure: where a loop over the computations would raise. */
  function FirstFailure<T>(rs: seq<Result<T>>): (r: Option<nat>)
    ensures r.None? <==> AllSucceed(rs)
    ensures r.Some? ==> r.value < |rs| && rs[r.value].Failure? && AllSucceed(rs[..r.value])
  {
    if rs == [] then None
    else if rs[0].Failure? then Some(0)
    else match FirstFailure(rs[1..])
      case None => None
      case Some(i) =>
        assert rs[..i + 1] == [rs[0]] + rs[1..][..i];
        Some(i + 1)
  }
}
