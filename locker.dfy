/// The MySQL-backed locker: a `Locker` owns one session-bound connection and
/// maps `Lock` onto `SELECT GET_LOCK(key, timeout)` and `Release` onto
/// `SELECT RELEASE_LOCK(key)`. The server and the driver are not modelled:
/// what a query hands back is a parameter (an oracle), and the connection is
/// reduced to whether it is closed. A ghost log records the queries issued and
/// the connection closes, in order.
module MySqlLocker {
  import opened Errors

  /** Go's int32, the payload of sql.NullInt32. */
  newtype Int32 = x: int | -0x8000_0000 <= x < 0x8000_0000

  /** Go's time.Duration: a signed 64-bit count of nanoseconds. */
  newtype Duration = d: int | -0x8000_0000_0000_0000 <= d < 0x8000_0000_0000_0000

  /** time.Second, in nanoseconds. */
  const Second: int := 1_000_000_000

  /** sql.NullInt32: when `valid` is false the column was NULL. */
  datatype NullInt32 = NullInt32(valid: bool, int32: Int32)

  /** What database/sql hands back for a single-row query: an error on the row
      itself, an error from Scan, or the scanned column. */
  datatype Response = RowErr(code: nat) | ScanErr(code: nat) | Row(result: NullInt32)

  /** A context's deadline, given as time.Until(deadline) at the moment Lock reads it. */
  datatype Deadline = NoDeadline | Deadline(remaining: Duration)

  /** A context: its deadline, and whether ctx.Done() is closed when Lock looks at it. */
  datatype Context = Context(deadline: Deadline, done: bool)

  /** What happens on the owned connection. */
  datatype Event = GetLockQuery(key: string, timeout: int) | ReleaseLockQuery(key: string) | CloseConn

  /** The connection as the locker sees it: closed or not, and its history. */
  datatype Session = Session(closed: bool, log: seq<Event>)

  /** The ghost log agrees with the connection: it is closed exactly when a close was issued. */
  predicate Consistent(s: Session)
  {
    s.closed <==> CloseConn in s.log
  }

  /** The status carries a wrapping error built for `reason`. */
  predicate Says(st: Status, reason: Reason)
  {
    st.Fail? && st.err.Wrapped? && st.err.reason == reason
  }

  /** Whether Row.Scan fails: it returns the row's own error first, then any scan error. */
  predicate ScanFails(resp: Response)
  {
    !resp.Row?
  }

  /** The successful GET_LOCK / RELEASE_LOCK code: a non-NULL, non-zero value. */
  predicate Granted(resp: Response)
  {
    resp.Row? && resp.result.valid && resp.result.int32 != 0
  }

  /** `t` is `d` nanoseconds in whole seconds, truncated toward zero: the
      part of `d` left over is less than a second and has the sign of `d`. */
  predicate WholeSecondsTowardZero(d: int, t: int)
  {
    && (d >= 0 ==> 0 <= t && t * Second <= d < (t + 1) * Second)
    && (d < 0 ==> t <= 0 && (t - 1) * Second < d <= t * Second)
  }

  /** At most one count of whole seconds fits a duration. */
  lemma WholeSecondsUnique(d: int, t1: int, t2: int)
    requires WholeSecondsTowardZero(d, t1) && WholeSecondsTowardZero(d, t2)
    ensures t1 == t2
  {
  }

  /** int(d.Seconds()), the conversion of a float to int truncating toward zero. */
  function TruncatedSeconds(d: Duration): (t: int)
    ensures WholeSecondsTowardZero(d as int, t)
    ensures -Second < d as int < Second ==> t == 0
    ensures d as int <= -Second ==> t < 0
  {
    if d >= 0 then d as int / Second else -((-(d as int)) / Second)
  }

  /** The timeout argument of GET_LOCK: 1 without a deadline, otherwise the
      remaining time in whole seconds, truncated toward zero and not clamped. */
  function Timeout(deadline: Deadline): (t: int)
    ensures deadline.NoDeadline? ==> t == 1
    ensures deadline.Deadline? ==> WholeSecondsTowardZero(deadline.remaining as int, t)
  {
    match deadline
    case NoDeadline => 1
    case Deadline(d) => TruncatedSeconds(d)
  }

  /** The meaning of a scanned RELEASE_LOCK result. */
  function DecodeReleaseLock(result: NullInt32): (st: Status)
    ensures st.Ok? <==> result.valid && result.int32 != 0
    ensures st.Fail? ==> Is(st.err, Sentinel(LockReleased))
    ensures !result.valid ==> Says(st, LockDoesNotExist)
    ensures result.valid && result.int32 == 0 ==> Says(st, NotEstablishedByThisThread)
  {
    if !result.valid then
      Fail(Errorf1(LockDoesNotExist, Sentinel(LockReleased)))
    else if result.int32 == 0 then
      Fail(Errorf1(NotEstablishedByThisThread, Sentinel(LockReleased)))
    else
      Ok
  }

  /** The meaning of a scanned GET_LOCK result. */
  function DecodeGetLock(result: NullInt32): (st: Status)
    ensures st.Ok? <==> result.valid && result.int32 != 0
    ensures !result.valid ==> st == Fail(Sentinel(MySQLInternalError))
    ensures result.valid && result.int32 == 0 ==> st == Fail(Sentinel(MySQLTimeout))
    ensures st != Fail(Sentinel(GetLockContextCancelled))
  {
    if !result.valid then
      Fail(Sentinel(MySQLInternalError))
    else if result.int32 == 0 then
      Fail(Sentinel(MySQLTimeout))
    else
      Ok
  }

  /** One call of Release on session `s`, the RELEASE_LOCK query answering `resp`:
      its result and the session afterwards. */
  function ReleaseStep(s: Session, key: string, resp: Response): (r: (Status, Session))
    ensures r.1.closed == (s.closed || !resp.RowErr?)
    ensures r.1.log == s.log + [ReleaseLockQuery(key)] + (if resp.RowErr? then [] else [CloseConn])
    ensures r.0.Ok? <==> Granted(resp)
    ensures r.0.Fail? ==> Is(r.0.err, Sentinel(LockReleased))
    ensures !resp.Row? ==> Is(r.0.err, Driver(resp.code))
    ensures resp.Row? ==> r.0 == DecodeReleaseLock(resp.result)
  {
    var queried := s.log + [ReleaseLockQuery(key)];
    match resp
    case RowErr(code) =>
      (Fail(Errorf2(ReleaseQueryFailed, Sentinel(LockReleased), Driver(code))), Session(s.closed, queried))
    case ScanErr(code) =>
      (Fail(Errorf2(ReleaseScanFailed, Sentinel(LockReleased), Driver(code))), Session(true, queried + [CloseConn]))
    case Row(result) =>
      (DecodeReleaseLock(result), Session(true, queried + [CloseConn]))
  }

  /** One call of Lock on session `s` under `ctx`: the GET_LOCK query answers
      `getLock`, and the cleanup release, if Lock makes one, answers `cleanup`. */
  function LockStep(s: Session, ctx: Context, key: string, getLock: Response, cleanup: Response): (r: (Status, Session))
    ensures |r.1.log| > |s.log| && r.1.log[..|s.log| + 1] == s.log + [GetLockQuery(key, Timeout(ctx.deadline))]
    ensures forall i :: |s.log| < i < |r.1.log| ==> !r.1.log[i].GetLockQuery?
    ensures r.0.Ok? <==> Granted(getLock)
    ensures !ScanFails(getLock) ==>
      r.0 == DecodeGetLock(getLock.result) && r.1 == Session(s.closed, s.log + [GetLockQuery(key, Timeout(ctx.deadline))])
    ensures ScanFails(getLock) && ctx.done ==>
      r.0 == Fail(Sentinel(GetLockContextCancelled)) && r.1 == Session(s.closed, s.log + [GetLockQuery(key, Timeout(ctx.deadline))])
    ensures ScanFails(getLock) && !ctx.done ==>
      var released := ReleaseStep(Session(s.closed, s.log + [GetLockQuery(key, Timeout(ctx.deadline))]), key, cleanup);
      && r.1 == released.1
      && r.0.Fail? && Is(r.0.err, Driver(getLock.code))
      && (released.0.Fail? ==> Is(r.0.err, released.0.err) && Is(r.0.err, Sentinel(LockReleased)))
      && (released.0.Ok? ==> Says(r.0, CouldNotReadResponse))
  {
    var queried := Session(s.closed, s.log + [GetLockQuery(key, Timeout(ctx.deadline))]);
    if ScanFails(getLock) then
      if ctx.done then
        (Fail(Sentinel(GetLockContextCancelled)), queried)
      else
        var released := ReleaseStep(queried, key, cleanup);
        if released.0.Fail? then
          (Fail(Errorf2(AcquireFailedReleaseFailed, Driver(getLock.code), released.0.err)), released.1)
        else
          (Fail(Errorf1(CouldNotReadResponse, Driver(getLock.code))), released.1)
    else
      (DecodeGetLock(getLock.result), queried)
  }

  /** The status is an error that `errors.Is` matches against sentinel `k`. */
  predicate Reports(st: Status, k: Sentinel)
  {
    st.Fail? && Is(st.err, Sentinel(k))
  }

  /** A caller of Release can only ever see ErrLockReleased, and sees it
      exactly when the lock was not released. */
  lemma ReleaseReports(s: Session, key: string, resp: Response, k: Sentinel)
    ensures Reports(ReleaseStep(s, key, resp).0, k) <==> k == LockReleased && !Granted(resp)
  {
    var st := ReleaseStep(s, key, resp).0;
    if st.Fail? {
      IsSentinelIff(st.err, k);
    }
  }

  /** A caller of Lock can tell the outcomes apart with `errors.Is`: each
      sentinel is matched exactly on its own path. */
  lemma LockReports(s: Session, ctx: Context, key: string, getLock: Response, cleanup: Response)
    ensures var st := LockStep(s, ctx, key, getLock, cleanup).0;
      && (Reports(st, GetLockContextCancelled) <==> ScanFails(getLock) && ctx.done)
      && (Reports(st, MySQLInternalError) <==> getLock.Row? && !getLock.result.valid)
      && (Reports(st, MySQLTimeout) <==> getLock.Row? && getLock.result.valid && getLock.result.int32 == 0)
      && (Reports(st, LockReleased) <==> ScanFails(getLock) && !ctx.done && !Granted(cleanup))
  {
    var st := LockStep(s, ctx, key, getLock, cleanup).0;
    if st.Fail? {
      IsSentinelIff(st.err, GetLockContextCancelled);
      IsSentinelIff(st.err, MySQLInternalError);
      IsSentinelIff(st.err, MySQLTimeout);
      IsSentinelIff(st.err, LockReleased);
    }
  }

  /** A locker over one dedicated connection (the Go `locker` struct). */
  class Locker {
    var closed: bool
    ghost var log: seq<Event>

    ghost function State(): Session
      reads this
    {
      Session(closed, log)
    }

    ghost predicate Valid()
      reads this
    {
      Consistent(State())
    }

    /** NewLocker: the connection handed over is open and unused. */
    constructor ()
      ensures Valid()
      ensures State() == Session(false, [])
    {
      closed := false;
      log := [];
    }

    /** Release runs RELEASE_LOCK(key); past the row-error check it closes the
        connection on every path, after the result has been decoded. */
    method Release(key: string, resp: Response) returns (err: Status)
      requires Valid()
      modifies this
      ensures Valid()
      ensures (err, State()) == ReleaseStep(old(State()), key, resp)
    {
      log := log + [ReleaseLockQuery(key)];
      if resp.RowErr? {
        return Fail(Errorf2(ReleaseQueryFailed, Sentinel(LockReleased), Driver(resp.code)));
      }
      match resp {
        case ScanErr(code) =>
          err := Fail(Errorf2(ReleaseScanFailed, Sentinel(LockReleased), Driver(code)));
        case Row(result) =>
          if !result.valid {
            err := Fail(Errorf1(LockDoesNotExist, Sentinel(LockReleased)));
          } else if result.int32 == 0 {
            err := Fail(Errorf1(NotEstablishedByThisThread, Sentinel(LockReleased)));
          } else {
            err := Ok;
          }
      }
      // the deferred close
      closed := true;
      log := log + [CloseConn];
    }

    /** Lock derives the timeout, runs GET_LOCK(key, timeout) once and decodes
        the answer; a failed read is classified by ctx.Done(), and when the
        context is not done it is followed by one cleanup Release of `key`. */
    method Lock(ctx: Context, key: string, getLock: Response, cleanup: Response) returns (err: Status)
      requires Valid()
      modifies this
      ensures Valid()
      ensures (err, State()) == LockStep(old(State()), ctx, key, getLock, cleanup)
    {
      var timeout := 1;
      if ctx.deadline.Deadline? {
        timeout := TruncatedSeconds(ctx.deadline.remaining);
      }
      log := log + [GetLockQuery(key, timeout)];
      match getLock
      case Row(res) =>
        if !res.valid {
          return Fail(Sentinel(MySQLInternalError));
        } else if res.int32 == 0 {
          return Fail(Sentinel(MySQLTimeout));
        }
        return Ok;
      case _ =>
        if ctx.done {
          return Fail(Sentinel(GetLockContextCancelled));
        }
        var rErr := Release(key, cleanup);
        if rErr.Fail? {
          return Fail(Errorf2(AcquireFailedReleaseFailed, Driver(getLock.code), rErr.err));
        }
        return Fail(Errorf1(CouldNotReadResponse, Driver(getLock.code)));
    }
  }
}
