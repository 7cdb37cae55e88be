# go-mysql-lock: a Dafny model of the MySQL-backed locker

The repository offers a `Locker` with two calls, `Lock(ctx, key)` and
`Release(ctx, key)`. Its MySQL implementation owns one dedicated connection.
`Lock` runs `SELECT GET_LOCK(key, timeout)` and `Release` runs
`SELECT RELEASE_LOCK(key)`. These are the named-lock functions from the
"Locking Functions" section of the MySQL Reference Manual. The code decides
three things, and this model covers those three:

- how the context's deadline becomes GET_LOCK's integer timeout;
- how each query's answer is decoded into an error, using the sentinels
  `ErrGetLockContextCancelled`, `ErrLockReleased`, `ErrMySQLTimeout` and
  `ErrMySQLInternalError`, plus errors that wrap other errors;
- the order of effects: the single GET_LOCK, the check of `ctx.Done()`, the
  cleanup release, and the connection close that Release defers.

Files:

- `errors.dfy` (module `Errors`): the sentinels and driver errors, and
  `fmt.Errorf` with one or two `%w` verbs, which builds an error over a list
  of causes. It also has `errors.Is` and a lemma giving `errors.Is` against a
  sentinel in terms of the sentinels found in the error's tree.
- `locker.dfy` (module `MySqlLocker`):
  - the driver's answers (`Response`: a row error, a scan error, or a scanned
    `sql.NullInt32`);
  - the timeout derivation, and the two decoders;
  - `ReleaseStep` and `LockStep`, pure functions that give the result and the
    new connection state of one call;
  - the class `Locker`, whose `closed` field is the state of the owned
    connection and whose ghost `log` records the queries issued and the
    closes. Its methods `Release` and `Lock` are imperative and proved equal
    to `ReleaseStep` and `LockStep`.
- `runs.dfy` (module `LockerRuns`): any sequence of calls on one locker, with
  what every such run preserves, plus `SecondCycle`, a lock–release–lock
  client of the class.

The database is not modelled. Every query result is a parameter of the call
(an oracle): `getLock` for the GET_LOCK query and `cleanup` for the release
that Lock may issue. The clock is also a parameter: a deadline is given as
the `time.Duration` that `time.Until` returns. Whether `ctx.Done()` has fired
is a boolean `done`, sampled where Lock checks it.

Three behaviours of the code that a reader might expect to be otherwise;
the model does what the code does:

- The timeout is not clamped at 0. A deadline more than a second in the past
  gives a negative timeout.
- Release closes the connection on every path after the row-error check: a
  scan error, NULL, 0 and success. It does not close only on success.
- There is no protocol-error kind. Every successful scan is decoded as NULL,
  0, or some other value, and any value other than 0 (not only 1) is success.

## Model

| member | source | states |
|---|---|---|
| `Errors.Errorf1` | mysql/mysql_locker.go:41-46 | a one-`%w` wrapping error matches under `errors.Is` everything its cause matches, and carries exactly its cause's sentinels |
| `Errors.Errorf2` | mysql/mysql_locker.go:26 | a two-`%w` wrapping error matches everything either cause matches, and carries the union of their sentinels |
| `Errors.IsSentinelIff` | errors.go:5-11 | `errors.Is(e, sentinel)` holds exactly when the sentinel occurs somewhere in `e`'s tree of causes |
| `MySqlLocker.WholeSecondsUnique` | mysql/mysql_locker.go:62 | the truncated-seconds characterization leaves a single possible timeout |
| `MySqlLocker.TruncatedSeconds` | mysql/mysql_locker.go:62 | `int(d.Seconds())` is the whole number of seconds in `d`, truncated toward zero: `0 <= t` and `t*1s <= d < (t+1)*1s` for `d >= 0` and the mirror image for `d < 0`. Anything under a second gives 0, and a second or more in the past gives a negative value |
| `MySqlLocker.Timeout` | mysql/mysql_locker.go:58-63 | the timeout is 1 without a deadline, or else the remaining time in whole seconds truncated toward zero, with no clamping |
| `MySqlLocker.DecodeReleaseLock` | mysql/mysql_locker.go:41-49 | a RELEASE_LOCK result is success exactly when it is non-NULL and non-zero (any value, not only 1). Every failure wraps ErrLockReleased. NULL says "lock does not exist" and 0 says "not established by this thread" |
| `MySqlLocker.DecodeGetLock` | mysql/mysql_locker.go:85-94 | a GET_LOCK result is success exactly when it is non-NULL and non-zero. NULL gives ErrMySQLInternalError, 0 gives ErrMySQLTimeout, and it is never the cancellation sentinel |
| `MySqlLocker.ReleaseStep` | mysql/mysql_locker.go:23-50 | one RELEASE_LOCK query with the given key is logged. A row error leaves the connection as it was. Every other answer (scan error, NULL, 0, success) closes it exactly once, after the query. The result is nil exactly on a non-zero value, every error wraps ErrLockReleased, and driver errors are wrapped with it |
| `MySqlLocker.LockStep` | mysql/mysql_locker.go:57-95 | exactly one GET_LOCK(key, Timeout) query comes first, and no later event is a GET_LOCK. Nil exactly on a non-zero value. After a successful scan the result is the decoded GET_LOCK value and the connection is untouched. On a failed read with the context done, the result is ErrGetLockContextCancelled, with no release and the connection untouched. On a failed read otherwise, one release of the same key follows and the new state is that release's. The result is then an error that wraps the read error, and also the release's error (hence ErrLockReleased) when the release failed; otherwise it is "could not read mysql response". It is never nil |
| `MySqlLocker.ReleaseReports` | mysql/mysql_locker.go:23-50 | `errors.Is` matches a Release error only against ErrLockReleased, and it does so exactly when the release did not succeed |
| `MySqlLocker.LockReports` | mysql/mysql_locker.go:70-94 | under `errors.Is`, each sentinel of a Lock error holds on its own path and only there. Cancelled means a failed read with the context done. Internal error means NULL. Timeout means 0. ErrLockReleased means a failed read, the context not done, and a failed cleanup release |
| `MySqlLocker.Locker.constructor` | mysql/mysql_locker.go:15-20 | a new locker holds an open, unused connection |
| `MySqlLocker.Locker.Release` | mysql/mysql_locker.go:23-50 | the method's result and new connection state are those of `ReleaseStep`, computed step by step with the deferred close last |
| `MySqlLocker.Locker.Lock` | mysql/mysql_locker.go:57-95 | the method's result and new state are those of `LockStep`. It derives the timeout, logs one GET_LOCK, then decodes the answer, or checks `ctx.Done()` and calls `Release` as cleanup |
| `LockerRuns.StepGetLocks` | mysql/mysql_locker.go:65-68 | a Lock call adds exactly one GET_LOCK query to the log and a Release call adds none |
| `LockerRuns.RunGetLockPerLock` | mysql/mysql_locker.go:65-68 | over any sequence of calls, the number of GET_LOCK queries issued equals the number of Lock calls: no retry and no polling |
| `LockerRuns.RunExtendsLog` | mysql/mysql_locker.go:24 | over any sequence of calls, the connection's history is only appended to |
| `LockerRuns.RunKeepsClosed` | mysql/mysql_locker.go:29-33 | once the connection is closed, no sequence of calls reopens it |
| `LockerRuns.RunKeepsConsistent` | mysql/mysql_locker.go:29-33 | after any sequence of calls the connection is closed exactly when a close was issued |
| `LockerRuns.StepClosesAfterRelease` | mysql/mysql_locker.go:29-33 | a single call closes the connection only directly after a RELEASE_LOCK query |
| `LockerRuns.RunClosesAfterRelease` | mysql/mysql_locker.go:76-77 | across any sequence of calls, every close comes directly after a RELEASE_LOCK query, including the cleanup release inside Lock |
| `LockerRuns.SecondCycle` | mysql/mysql_locker.go:29-33 | after a successful Lock and Release the connection is closed. If the driver then answers with its closed-connection error, the next Lock fails, wrapping both that error and ErrLockReleased, and it is not reported as a cancellation |

## Left out

- The database/sql package and the MySQL driver (`QueryRowContext`, `Row.Err`, `Row.Scan`, `Conn.Close`): their results are oracle parameters. SQL text and parameter binding are not modelled.
- In Lock, `Row.Scan` returns the row's own error before any scan error, so a row error and a scan error take the same branch there (`ScanFails`).
- The MySQL server's named-lock semantics (exclusion across sessions, ownership by session, blocking on the server side up to the timeout) belong to the server. The model holds no lock table and claims no mutual exclusion.
- The answers of a closed connection: the model does not force the driver to return an error after a close. `SecondCycle` takes that answer as a parameter.
- `Errors.Errorf1`, `Errors.Errorf2`: error messages are not modelled. A wrapping error is its `Reason` (one per `fmt.Errorf` call site) plus its list of causes.
- Printing the error from closing the connection (`fmt.Printf`), which the source does and then ignores.
- `MySqlLocker.TruncatedSeconds`: does not model the float64 rounding of `time.Until(...).Seconds()` for very large durations. Time is integer nanoseconds truncated toward zero, as the Go conversion from float to int does.
- The race between the context being cancelled and the failed query returning: "context done" is a boolean sampled where Lock checks it.
- `MySqlLocker.Locker.Release`: the context argument is left out. It only reaches the driver, and its effect is part of the oracle answer.
- The Locker interface itself (locker.go) has no separate form: `Locker.Lock` and `Locker.Release` are its one implementation.
- mysql/mysql_locker_test.go, a concurrency test of 50 goroutines against a live database, is not part of this model.
