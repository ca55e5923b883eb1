# rlock client decisions in Dafny

This project models the client side of `rlock`, a distributed lock over Redis.
It covers the decisions the Go client makes around each Redis round-trip.
Every round-trip is replaced by its reply, which the model takes as an input:

- `Client.TryLock` maps one SETNX reply to a lock or an error.
- `Client.Lock` is the retry loop. It takes one token per call and, per
  attempt, the reply of the lock script, the answer of `RetryStrategy.Next()`,
  and whether cancellation or the timer won the wait.
- `Lock.Refresh` and `Lock.Unlock` map the reply of an ownership-checked script
  to nil, `ErrLockNotHold`, or the error unchanged. `Unlock` also fires the
  one-shot stop signal.
- `Lock.AutoRefresh` is the watchdog goroutine. It is a state machine driven by
  the cases its `select` takes: ticker, retry channel, unlock signal.

Files, one module each:

- `errors.dfy` (`Errors`): the error values, `errors.Is` over `%w` chains,
  the reply shape `Reply<T>`, and `ContextError` for `ctx.Err()`.
- `lock.dfy` (`Locks`): the lock handle, `NewLock`, `Refresh`, `Unlock`, and
  repeated unlocking.
- `client.dfy` (`Client`): `TryLock`; `Lock`, defined through `Rounds`, a
  recursive function over the input traces, with the ways a call may end
  stated once as `Settled`; `RunLock` as the loop the Go code runs; and lemmas
  on attempt counts, early exits and error classification.
- `watchdog.dfy` (`Watchdog`): `AutoRefresh` as `Step`/`Run` over events.

`Client.Lock` reads three finite sequences. If one runs out before the Go call
would return, the outcome is `Unfinished`, meaning the trace ended with the
call still in progress. It is not a result the Go code returns.

## Model

| member | source | states |
|---|---|---|
| Errors.IsUnwrappedTarget | lock.go:101-106 | On a chain built with one `%w` per layer, `errors.Is` against a sentinel holds exactly when that sentinel is the root of the chain |
| Errors.IsAtMostOneSentinel | lock.go:69-76 | No error built this way matches two distinct sentinels, for example both DeadlineExceeded and ErrFailedToPreemptLock |
| Locks.NewLock | lock.go:151-158 | A new handle carries the given key, token and expiration, and its stop signal has not fired |
| Locks.Refresh | lock.go:207-216 | The result is nil iff the reply is exactly 1. A transport error, redis.Nil included, is returned unchanged. Any other integer gives ErrLockNotHold |
| Locks.Unlock | lock.go:218-241 | redis.Nil (compared with `==`) and any integer other than 1 give ErrLockNotHold. Other errors come back unchanged. Nil iff the reply is 1. The stop signal is set afterwards in every case, and this call fired it iff no earlier call had |
| Locks.UnlockAgreesWithRefresh | lock.go:207-241 | Unlock and Refresh read every reply the same way except redis.Nil, which Unlock reports as not held and Refresh passes through |
| Locks.UnlockAll | lock.go:218-224 | Repeated Unlock calls give one error per call and keep the handle's key, token and expiration |
| Locks.StopSignalFiresOnce | lock.go:218-224 | However many Unlock calls are made, the stop signal fires at most once: once if it had not fired and there was a call. It stays fired. Each call's error depends only on its own reply |
| Client.TryLock | lock.go:123-137 | A store error is returned unchanged. A false reply gives exactly ErrFailedToPreemptLock. A lock comes back iff the reply is true, carrying the input key, the generated token and the input expiration. It always returns a lock or an error, in the same `Outcome` type `Client.Lock` uses |
| Client.ExhaustedError | lock.go:99-107 | The exhaustion error matches ErrFailedToPreemptLock iff the last attempt reported no error (or its error already matched it). It wraps the last attempt's error when there was one. It matches DeadlineExceeded only if that error did |
| Client.Lock | lock.go:77-121 | Every attempt before the last was neither OK nor a deadline, was granted an interval, and had its wait won by the timer. The call then ends in one of four ways. (1) It acquires on an "OK" reply, with a handle holding the call's one token and no strategy call for that attempt. (2) It returns a deadline error verbatim without asking the strategy. (3) It returns `ctx.Err()` after a cancelled wait. (4) It returns the wrapped exhaustion error. The outcome is `Unfinished` only when an input ran out exactly where the call needed it next: every reply was used and each attempt went on; or the last attempt was retryable and no strategy answer was left for it; or the strategy granted an interval and no wait outcome was left for it. The waited total is the sum of the intervals of the rounds that went on to another attempt, plus the last round's when the replies ran out after a timer-won wait |
| Client.RoundsWaited | lock.go:109-116 | Proved by induction over the rounds: a call waits out exactly the intervals `Next()` granted to rounds whose wait the timer won, and nothing for a round that ended the call |
| Client.RoundsSettle | lock.go:86-120 | Proved by induction over the rounds: every run of the retry loop ends in one of the four ways above, or stays unfinished only when an input ran out |
| Client.SkipRounds | lock.go:86-120 | After k rounds that each went on to the next attempt, the call behaves like a fresh call on the remaining inputs. It is offset by k attempts, k strategy calls and the sum of the first k intervals |
| Client.DeadlineEndsCall | lock.go:91-93 | An attempt whose error matches DeadlineExceeded ends the call with that error. Attempts so far are k+1 and strategy calls k, so Next() is not consulted for it |
| Client.CancelEndsCall | lock.go:115-118 | If cancellation wins the wait after attempt k, the call returns `ctx.Err()` after exactly k+1 attempts, with no further attempt |
| Client.AcquiredAfterRetries | lock.go:78-96 | Whichever attempt succeeds, the returned lock carries the single token generated for the call |
| Client.ExhaustsAfterKRetries | lock.go:95-107 | The key is contended throughout and the strategy grants K intervals, then refuses. The call makes exactly K+1 attempts and K+1 Next() calls and waits out the K intervals. It fails with an error matching ErrFailedToPreemptLock and not DeadlineExceeded |
| Client.ExhaustsAfterRetryableAttempt | lock.go:99-107 | After k rounds that went on, a retryable attempt (contention or a non-deadline error) followed by a refusing strategy ends the call with the exhaustion error wrapping that attempt's outcome, after k+1 attempts and k+1 Next() calls |
| Client.FixedIntervalWaited | lock.go:109-116 | With a fixed interval I, the K waits add up to K×I |
| Client.ErrorClassification | lock.go:69-107 | Assume no store error matches ErrFailedToPreemptLock. Then a failed Lock's error matches ErrFailedToPreemptLock iff the strategy gave up after an error-free attempt. It matches DeadlineExceeded only as an attempt's own deadline error or as `ctx.Err()`, and never matches both |
| Client.SingleAttemptAgreesWithTryLock | lock.go:95-137 | One attempt followed by an exhausted strategy agrees with TryLock. Success gives the same handle, and contention gives errors that both match ErrFailedToPreemptLock |
| Client.RunLock | lock.go:77-121 | The loop as written in Go: one token, attempt, deadline check, "OK" check, Next(), exhaustion wrapping, wait or cancel. It computes the same outcome, counts and waited total as `Client.Lock` |
| Watchdog.Offer | lock.go:177-180 | After the non-blocking send a retry is always pending, none is lost, and a channel that was within its capacity ends up exactly full (one retry) |
| Watchdog.AfterRefresh | lock.go:173-185 | The goroutine keeps running iff Refresh returned nil or exactly DeadlineExceeded. A timeout leaves a retry pending. Any other error is returned |
| Watchdog.Step | lock.go:169-204 | A tick, or a retry taken from a non-empty channel, calls Refresh once. If that Refresh returns an error other than exactly DeadlineExceeded, the goroutine returns that error. On exactly DeadlineExceeded it keeps running with the one-slot channel full. On nil it keeps running with one more refresh counted; a taken retry leaves the channel one lower (empty), and a tick leaves it unchanged. A retry event on an empty channel, which `select` cannot take, changes nothing. The unlock signal returns nil without calling Refresh. A returned goroutine takes no more events. At most one retry is ever pending. An error return is the Refresh result and never DeadlineExceeded itself |
| Watchdog.Run | lock.go:169-204 | Over any event sequence at most one retry stays pending. Refresh is called at most once per event. A returned goroutine stays as it is |
| Watchdog.AutoRefresh | lock.go:160-205 | A fresh watchdog never holds more than one pending retry and calls Refresh at most once per event |
| Watchdog.ErrorEndsRun | lock.go:183-185 | On a running goroutine, a tick or taken retry whose Refresh error is neither nil nor exactly DeadlineExceeded ends the run with that error, whatever events follow |
| Watchdog.TickBeforeStopReturnsNotHeld | lock.go:169-204 | A schedule where `select` takes a tick (refresh reply 0) before the unlock case returns ErrLockNotHold, not nil |
| Watchdog.StopEndsCleanly | lock.go:201-202 | Once the unlock signal is taken, the goroutine returns nil with no further Refresh, whether or not a retry is pending |
| Watchdog.ReturnCauses | lock.go:169-204 | A nil return happens only after the unlock signal. An error return is the Refresh result of some tick or retry, and is never DeadlineExceeded |
| Watchdog.TimeoutsAreRetried | lock.go:176-197 | With no unlock signal, and every refresh either succeeding or timing out, the goroutine keeps running. After a timed-out tick a retry stays pending unless some retry's refresh succeeded |
| Watchdog.PendingStaysSet | lock.go:171-182 | A pending retry is only used up by a retry whose refresh succeeds. One that times out is offered again |
| Watchdog.NoTickNoRefresh | lock.go:169-182 | Only a timed-out refresh puts a retry in the channel, so without ticks an empty channel stays empty and Refresh is never called, whatever retry or unlock events arrive |
| Watchdog.EveryTickRefreshes | lock.go:186-200 | Each tick whose refresh succeeds calls Refresh once and keeps the goroutine running |

## Where the code and its comments differ

The model follows the code in each case.

- The doc comment at lock.go:72 lists an outcome where the error matches both
  DeadlineExceeded and ErrFailedToPreemptLock. The code cannot produce it.
  An attempt deadline returns at lock.go:91-93 before the strategy is asked, so
  an exhaustion error never wraps a deadline (`Client.ErrorClassification`).
- The comment at lock.go:201 ("unlock stop AutoFresh") suggests that Unlock
  stops AutoRefresh cleanly. But Go's `select` chooses at random among ready
  cases, so a tick or retry that is ready together with the unlock signal can
  still be taken. That refresh then meets a released key, and its error is
  returned instead of nil (`Watchdog.TickBeforeStopReturnsNotHeld`). Only once
  the unlock case is taken is the clean return guaranteed
  (`Watchdog.StopEndsCleanly`).
- AutoRefresh retries a refresh only when its error `==`
  context.DeadlineExceeded (lock.go:176, lock.go:191). A wrapped deadline or a
  transport-level timeout ends the goroutine with that error.
- Each attempt's context is derived from the caller's (lock.go:87), so it is
  not independent of the overall deadline. An attempt can fail with the
  caller's own deadline, and that ends the call like any attempt deadline.
- Refresh returns redis.Nil unchanged, while Unlock reports it as
  ErrLockNotHold (`Locks.UnlockAgreesWithRefresh`).

## Left out

- Redis itself and the three Lua scripts (lock.go:17-22): they run on the
  server and are not part of this model. Their replies are inputs. Mutual
  exclusion across processes, token uniqueness, and "a second Unlock returns
  not held" depend on the store, so they are not stated here.
- `SingleflightLock` (lock.go:45-65): in-process deduplication of goroutines
  through `singleflight.Group`, a concurrency mechanism.
- `NewClient` and the uuid `valuer` (lock.go:36-43): the token is a parameter.
  The model proves that one call uses one token, not that tokens are unique.
- Timers, the ticker and `select` scheduling: the choice of case is an input
  sequence. The interval values are summed but are not compared with any
  clock.
- `expiration.Seconds()`: float conversion. The expiration is an opaque integer
  passed through to the handle.
- The `unlock` channel and `sync.Once` mechanics: abstracted to the handle's
  `unlocked` flag plus a `fired` result per call.
- `errors.Is` is modelled for single `%w` chains only. The errors lock.go:91
  inspects come from the Redis client and the context package. A deadline
  among them is represented as a `Wrapped` chain ending in `DeadlineExceeded`.
  Multi-error wrapping and custom `Is` methods on those errors are not
  modelled. Transport errors are compared by their text, whereas Go compares
  error values by identity.
- The `client` field of `Lock` and `Client`, and the test helper `Wait()`:
  they only carry or probe the connection.
