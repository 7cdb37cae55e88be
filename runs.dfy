/// Sequences of Lock and Release calls on one locker: what every run keeps
/// true of the connection and of the queries it issues.
module LockerRuns {
  import opened Errors
  import opened MySqlLocker

  /** One call on the locker, with the driver's answers to the queries it may issue. */
  datatype Call =
    | LockCall(ctx: Context, key: string, getLock: Response, cleanup: Response)
    | ReleaseCall(key: string, resp: Response)

  function Step(s: Session, c: Call): Session
  {
    match c
    case LockCall(ctx, key, getLock, cleanup) => LockStep(s, ctx, key, getLock, cleanup).1
    case ReleaseCall(key, resp) => ReleaseStep(s, key, resp).1
  }

  /** The session after the calls, made one after another. */
  function Run(s: Session, calls: seq<Call>): Session
    decreases |calls|
  {
    if calls == [] then s else Run(Step(s, calls[0]), calls[1..])
  }

  function CountGetLocks(log: seq<Event>): nat
  {
    if log == [] then 0 else (if log[0].GetLockQuery? then 1 else 0) + CountGetLocks(log[1..])
  }

  function CountLockCalls(calls: seq<Call>): nat
  {
    if calls == [] then 0 else (if calls[0].LockCall? then 1 else 0) + CountLockCalls(calls[1..])
  }

  lemma {:induction false} CountGetLocksAppend(a: seq<Event>, b: seq<Event>)
    ensures CountGetLocks(a + b) == CountGetLocks(a) + CountGetLocks(b)
  {
    if a != [] {
      assert (a + b)[0] == a[0] && (a + b)[1..] == a[1..] + b;
      CountGetLocksAppend(a[1..], b);
    } else {
      assert a + b == b;
    }
  }

  /** A log without GET_LOCK queries counts none. */
  lemma {:induction false} CountGetLocksNone(log: seq<Event>)
    requires forall i :: 0 <= i < |log| ==> !log[i].GetLockQuery?
    ensures CountGetLocks(log) == 0
  {
    if log != [] {
      CountGetLocksNone(log[1..]);
    }
  }

  /** A single call adds exactly one GET_LOCK query if it is a Lock, none if it is a Release. */
  lemma StepGetLocks(s: Session, c: Call)
    ensures CountGetLocks(Step(s, c).log) == CountGetLocks(s.log) + (if c.LockCall? then 1 else 0)
  {
    var t := Step(s, c);
    var added := t.log[|s.log|..];
    assert t.log == s.log + added;
    CountGetLocksAppend(s.log, added);
    match c
    case LockCall(ctx, key, getLock, cleanup) =>
      assert added == [added[0]] + added[1..];
      CountGetLocksAppend([added[0]], added[1..]);
      CountGetLocksNone(added[1..]);
    case ReleaseCall(key, resp) =>
      CountGetLocksNone(added);
  }

  /** No retries, no polling: every Lock issues exactly one GET_LOCK, and Release none. */
  lemma {:induction false} RunGetLockPerLock(s: Session, calls: seq<Call>)
    ensures CountGetLocks(Run(s, calls).log) == CountGetLocks(s.log) + CountLockCalls(calls)
    decreases |calls|
  {
    if calls != [] {
      StepGetLocks(s, calls[0]);
      RunGetLockPerLock(Step(s, calls[0]), calls[1..]);
    }
  }

  /** The log only grows: a run never rewrites the history of the connection. */
  lemma {:induction false} RunExtendsLog(s: Session, calls: seq<Call>)
    ensures s.log <= Run(s, calls).log
    decreases |calls|
  {
    if calls != [] {
      var t := Step(s, calls[0]);
      RunExtendsLog(t, calls[1..]);
    }
  }

  /** Nothing reopens the connection: once closed it stays closed. */
  lemma {:induction false} RunKeepsClosed(s: Session, calls: seq<Call>)
    requires s.closed
    ensures Run(s, calls).closed
    decreases |calls|
  {
    if calls != [] {
      RunKeepsClosed(Step(s, calls[0]), calls[1..]);
    }
  }

  /** The connection is closed exactly when a close was issued, after any run. */
  lemma {:induction false} RunKeepsConsistent(s: Session, calls: seq<Call>)
    requires Consistent(s)
    ensures Consistent(Run(s, calls))
    decreases |calls|
  {
    if calls != [] {
      var t := Step(s, calls[0]);
      assert s.log <= t.log;
      RunKeepsConsistent(t, calls[1..]);
    }
  }

  /** Every close of the connection comes straight after a RELEASE_LOCK query. */
  predicate ClosesAfterRelease(log: seq<Event>)
  {
    forall i :: 0 <= i < |log| && log[i] == CloseConn ==> i > 0 && log[i - 1].ReleaseLockQuery?
  }

  /** A single call closes the connection only directly after a RELEASE_LOCK query. */
  lemma StepClosesAfterRelease(s: Session, c: Call)
    requires ClosesAfterRelease(s.log)
    ensures ClosesAfterRelease(Step(s, c).log)
  {
  }

  lemma {:induction false} RunClosesAfterRelease(s: Session, calls: seq<Call>)
    requires ClosesAfterRelease(s.log)
    ensures ClosesAfterRelease(Run(s, calls).log)
    decreases |calls|
  {
    if calls != [] {
      StepClosesAfterRelease(s, calls[0]);
      RunClosesAfterRelease(Step(s, calls[0]), calls[1..]);
    }
  }

  /** A lock and release cycle, then a second Lock on the same locker. After a
      successful Release the connection is closed, so the driver answers every
      later query with its closed-connection error `connDone`: the second Lock
      fails, and its cleanup release fails too. */
  method SecondCycle(key: string, ctx: Context, connDone: nat)
    returns (first: Status, released: Status, second: Status)
    requires !ctx.done
    ensures first == Ok && released == Ok
    ensures second.Fail? && Is(second.err, Driver(connDone)) && Reports(second, LockReleased)
    ensures !Reports(second, GetLockContextCancelled)
  {
    var l := new Locker();
    first := l.Lock(ctx, key, Row(NullInt32(true, 1)), Row(NullInt32(true, 1)));
    released := l.Release(key, Row(NullInt32(true, 1)));
    ghost var before := l.State();
    assert before.closed;
    second := l.Lock(ctx, key, RowErr(connDone), RowErr(connDone));
    LockReports(before, ctx, key, RowErr(connDone), RowErr(connDone));
  }
}
