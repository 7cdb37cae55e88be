/// The error values the locker produces: the sentinel errors of the two
/// packages, opaque errors coming out of the database driver, and errors
/// built by `fmt.Errorf` with `%w` verbs, which wrap a list of causes.
module Errors {

  /** The package-level sentinel errors. */
  datatype Sentinel =
    | GetLockContextCancelled  // dmutex.ErrGetLockContextCancelled
    | LockReleased             // dmutex.ErrLockReleased
    | MySQLTimeout             // mysql.ErrMySQLTimeout
    | MySQLInternalError       // mysql.ErrMySQLInternalError

  /** The message of a wrapping error: one constructor per `fmt.Errorf` call site. */
  datatype Reason =
    | ReleaseQueryFailed              // the RELEASE_LOCK row carried an error
    | ReleaseScanFailed               // scanning the RELEASE_LOCK result failed
    | LockDoesNotExist                // RELEASE_LOCK returned NULL
    | NotEstablishedByThisThread      // RELEASE_LOCK returned 0
    | AcquireFailedReleaseFailed      // GET_LOCK failed and so did the cleanup release
    | CouldNotReadResponse            // GET_LOCK failed, the cleanup release succeeded

  /** An error value; `Driver(code)` stands for an error the database driver returned. */
  datatype Error =
    | Sentinel(sentinel: Sentinel)
    | Driver(code: nat)
    | Wrapped(reason: Reason, causes: seq<Error>)

  /** A Go `error` result: nil, or an error value. */
  datatype Status = Ok | Fail(err: Error)

  /** Go's `errors.Is`: `e` is `target` or wraps it, directly or through its causes. */
  predicate Is(e: Error, target: Error)
  {
    e == target || (e.Wrapped? && exists i :: 0 <= i < |e.causes| && Is(e.causes[i], target))
  }

  /** `fmt.Errorf` with one `%w` verb: under `errors.Is` the new error
      matches everything its cause matches. */
  function Errorf1(reason: Reason, w: Error): (e: Error)
    ensures e.Wrapped? && e.reason == reason
    ensures forall t :: Is(w, t) ==> Is(e, t)
    ensures Sentinels(e) == Sentinels(w)
  {
    var e := Wrapped(reason, [w]);
    assert e.causes[0] == w;
    e
  }

  /** `fmt.Errorf` with two `%w` verbs: the new error matches everything
      either cause matches. */
  function Errorf2(reason: Reason, w1: Error, w2: Error): (e: Error)
    ensures e.Wrapped? && e.reason == reason
    ensures forall t :: Is(w1, t) ==> Is(e, t)
    ensures forall t :: Is(w2, t) ==> Is(e, t)
    ensures Sentinels(e) == Sentinels(w1) + Sentinels(w2)
  {
    var e := Wrapped(reason, [w1, w2]);
    assert e.causes[0] == w1 && e.causes[1] == w2;
    e
  }

  /** The sentinels reachable in the wrapping tree of `e`. */
  function Sentinels(e: Error): set<Sentinel>
  {
    match e
    case Sentinel(s) => {s}
    case Driver(_) => {}
    case Wrapped(_, causes) => set i, s | 0 <= i < |causes| && s in Sentinels(causes[i]) :: s
  }

  /** `errors.Is` against a sentinel holds exactly when the sentinel occurs in the tree. */
  lemma {:induction false} IsSentinelIff(e: Error, s: Sentinel)
    ensures Is(e, Sentinel(s)) <==> s in Sentinels(e)
  {
    match e
    case Sentinel(_) =>
    case Driver(_) =>
    case Wrapped(_, causes) =>
      forall i | 0 <= i < |causes|
        ensures Is(causes[i], Sentinel(s)) <==> s in Sentinels(causes[i])
      {
        IsSentinelIff(causes[i], s);
      }
  }
}
