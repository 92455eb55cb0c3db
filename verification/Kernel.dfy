/** What the results of socket operations mean, and the failures a message notes. */
module Kernel {
  const EINTR := 4
  const EAGAIN := 11
  const EPIPE := 32
  const ETIMEDOUT := 110
  const EINPROGRESS := 115
  const ECANCELED := 125

  datatype Failure = SocketFailure | EmptyFailure | TimeoutFailure | SendFailure | RecvFailure | HttpFailure

  /** The results after which the same bytes are simply requested again. */
  predicate Soft(result: int) {
    result == -EINPROGRESS || result == -EAGAIN
  }

  predicate TimedOut(result: int) {
    result == -ECANCELED || result == -EINTR
  }

  /** The cause noted for a result: none, a time-out, or a failure of this kind. */
  function Cause(result: int, kind: Failure): set<Failure> {
    if result > 0 || Soft(result) then {} else if TimedOut(result) then {TimeoutFailure} else {kind}
  }

  function Max(a: int, b: int): int {
    if a < b then b else a
  }

  function Min(a: nat, b: nat): nat {
    if a < b then a else b
  }
}
