/** What every resolver of the library returns: an optional response beside an optional error. */
module Lookups {

  datatype Option<+T> = None | Some(value: T) {
    function GetOr(default: T): T {
      if Some? then value else default
    }
  }

  datatype Error =
    | NoResponse
    | NoResolver
    | CircuitOpen
    | CnameDepthExceeded(name: string)
    | MaxRecursionDepth
    | Canceled
    | DeadlineExceeded
    | AdaptiveUpstream(rcode: nat)
    | Upstream(code: int)
    | Joined(errors: seq<Error>)

  datatype Result<+R> = Result(response: Option<R>, err: Option<Error>)

  /** An empty success of a custom resolver becomes an error; everything else passes through. */
  function Normalize<R>(r: Result<R>): (n: Result<R>)
    ensures n.err.None? ==> n.response.Some?
    ensures r.response.Some? || r.err.Some? ==> n == r
    ensures r.response.None? && r.err.None? ==> n.err == Some(NoResponse)
    ensures n.response == r.response
  {
    if r.response.None? && r.err.None? then Result(None, Some(NoResponse)) else r
  }
}
