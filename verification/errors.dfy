/**
  The error values of the `rlock` package and of the collaborators it talks
  to (the context package and the Redis client), and the abstract shape of a
  Redis reply.

  Go errors are compared in two ways in lock.go: by identity (`err == x`)
  and through `errors.Is`, which follows the chain built by `fmt.Errorf`
  with a `%w` verb. `Error` keeps that chain explicit with `Wrapped`.
 */
module Errors {

  /** A Go `error` value that is not nil. */
  datatype Error =
    | DeadlineExceeded            // context.DeadlineExceeded
    | Canceled                    // context.Canceled
    | LockNotHold                 // rlock.ErrLockNotHold
    | FailedToPreemptLock         // rlock.ErrFailedToPreemptLock
    | RedisNil                    // redis.Nil, the "no reply value" marker
    | Transport(msg: string)      // any other failure reported by the Redis client
    | Wrapped(prefix: string, inner: Error)  // fmt.Errorf(prefix + "%w", inner)

  /** Prefixes `Client.Lock` puts in front of the errors it wraps. */
  const LastRetryPrefix := "最后一次重试错误: "
  const HeldByOtherPrefix := "锁被人持有: "
  const RetriesExhaustedPrefix := "rlock: 重试机会耗尽，"

  /** A Go `error` that may be nil: `None` is nil. */
  datatype Option<+T> = None | Some(value: T)

  /** What a Redis command returns: a value, or an error instead of it. */
  datatype Reply<+T> = Value(value: T) | Failure(err: Error)

  /** `ctx.Err()` once the context is done: only these two values occur. */
  type ContextError = e: Error | e == Canceled || e == DeadlineExceeded witness Canceled

  /** `errors.Is(e, target)` for errors whose wrapping chain has one link per layer. */
  predicate Is(e: Error, target: Error)
    decreases e
  {
    e == target || (e.Wrapped? && Is(e.inner, target))
  }

  /** The innermost error of a wrapping chain. */
  function Root(e: Error): (r: Error)
    ensures !r.Wrapped?
    decreases e
  {
    if e.Wrapped? then Root(e.inner) else e
  }

  /** Matching an unwrapped target through `errors.Is` is the same as
      asking which error sits at the root of the chain. */
  lemma {:induction false} IsUnwrappedTarget(e: Error, target: Error)
    requires !target.Wrapped?
    ensures Is(e, target) <==> Root(e) == target
    decreases e
  {
    if e.Wrapped? {
      IsUnwrappedTarget(e.inner, target);
    }
  }

  /** No error matches two distinct unwrapped targets, so for instance no
      error is both a deadline and a contention error. */
  lemma {:induction false} IsAtMostOneSentinel(e: Error, a: Error, b: Error)
    requires !a.Wrapped? && !b.Wrapped? && a != b
    ensures !(Is(e, a) && Is(e, b))
  {
    IsUnwrappedTarget(e, a);
    IsUnwrappedTarget(e, b);
  }
}
