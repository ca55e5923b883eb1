/**
  Acquisition: `Client.TryLock` (one SETNX) and `Client.Lock` (the retry
  loop). Every Redis round-trip, every `retry.Next()` answer and every wait
  between attempts is an input:

  - `replies[i]` is what the lock script returned on attempt i;
  - `strategy[i]` is what `retry.Next()` answered after attempt i;
  - `cancelled[i]` tells whether `ctx.Done()` won the wait after attempt i
    (otherwise the timer fired), and `ctxErr` is then `ctx.Err()`.

  The three sequences are read in lock step, one round per attempt. A trace
  that ends before the call returns yields `Unfinished`.
 */
module Client {
  import opened Errors
  import opened Locks

  /** The reply Eval must give for the attempt to have taken the lock. */
  const OkReply := "OK"

  /** One answer of `RetryStrategy.Next()`: wait `interval`, or give up when `!ok`. */
  datatype Backoff = Backoff(interval: Duration, ok: bool)

  /** How an acquisition ended: the `(*Lock, error)` pair it returned, or, for
      `Lock` alone, a trace that ran out while the call was still going. */
  datatype Outcome = Acquired(lock: Locks.Lock) | Failed(err: Error) | Unfinished

  /** What one `Lock` call did: its outcome, how many lock scripts it ran,
      how many times it asked the strategy, and the total of the intervals
      it waited out. */
  datatype LockRun = LockRun(outcome: Outcome, attempts: nat, nextCalls: nat, waited: Duration)

  /** `Client.TryLock` with `token` as the value `valuer()` produced. */
  function TryLock(key: string, expiration: Duration, token: string, reply: Reply<bool>): (r: Outcome)
    ensures !r.Unfinished?
    ensures reply.Failure? ==> r == Failed(reply.err)
    ensures reply == Value(false) ==> r == Failed(FailedToPreemptLock)
    ensures r.Acquired? <==> reply == Value(true)
    ensures r.Acquired? ==> r.lock.key == key && r.lock.value == token
                            && r.lock.expiration == expiration && !r.lock.unlocked
  {
    match reply
    case Failure(e) => Failed(e)
    case Value(ok) => if !ok then Failed(FailedToPreemptLock) else Acquired(NewLock(key, token, expiration))
  }

  /** The attempt ended in a deadline: the whole call stops here, without
      asking the strategy. */
  predicate DeadlineAttempt(reply: Reply<string>)
  {
    reply.Failure? && Is(reply.err, DeadlineExceeded)
  }

  /** The attempt neither took the lock nor hit a deadline: the loop asks the
      strategy what to do next. */
  predicate Retryable(reply: Reply<string>)
  {
    !DeadlineAttempt(reply) && reply != Value(OkReply)
  }

  /** The error returned when the strategy gives up after `last`: it wraps
      the last attempt's error, or plain contention when there was none. */
  function ExhaustedError(last: Reply<string>): (e: Error)
    ensures Is(e, FailedToPreemptLock) <==> last.Value? || Is(last.err, FailedToPreemptLock)
    ensures last.Failure? ==> Is(e, last.err)
    ensures Is(e, DeadlineExceeded) <==> last.Failure? && Is(last.err, DeadlineExceeded)
    ensures e.Wrapped? && e.prefix == RetriesExhaustedPrefix
  {
    var cause :=
      if last.Failure? then Wrapped(LastRetryPrefix, last.err)
      else Wrapped(HeldByOtherPrefix, FailedToPreemptLock);
    assert last.Failure? ==> Is(cause, last.err);
    Wrapped(RetriesExhaustedPrefix, cause)
  }

  /** Rounds 0..k-1 all went on to the next round: each attempt was
      retryable, the strategy granted another interval, and the timer won
      the wait. */
  ghost predicate Continues(replies: seq<Reply<string>>, strategy: seq<Backoff>, cancelled: seq<bool>, k: nat)
  {
    && k <= |replies| && k <= |strategy| && k <= |cancelled|
    && forall i :: 0 <= i < k ==> Retryable(replies[i]) && strategy[i].ok && !cancelled[i]
  }

  /** Sum of the first k intervals the strategy handed out. */
  function Waited(strategy: seq<Backoff>, k: nat): Duration
    requires k <= |strategy|
    decreases k
  {
    if k == 0 then 0 else strategy[0].interval + Waited(strategy[1..], k - 1)
  }

  /** How a `Lock` call may end, given its inputs. Every attempt before the
      last went on to the next round, and the call ends in exactly one of
      four ways: the last attempt took the lock (with the call's token), hit
      a deadline (returned verbatim, strategy not asked), was followed by a
      cancelled wait (`ctx.Err()`), or was followed by an exhausted strategy
      (wrapped error). It is left unfinished only when an input ran out. */
  ghost predicate Settled(key: string, expiration: Duration, token: string, ctxErr: ContextError,
                          replies: seq<Reply<string>>, strategy: seq<Backoff>, cancelled: seq<bool>, r: LockRun)
  {
    && r.attempts <= |replies| && r.nextCalls <= |strategy|
    && (|replies| > 0 ==> r.attempts > 0)
    && (r.outcome.Unfinished? ==>
          || (r.attempts == |replies| && r.nextCalls == r.attempts
              && Continues(replies, strategy, cancelled, r.attempts))
          || (r.attempts > 0 && Retryable(replies[r.attempts - 1])
              && r.nextCalls == r.attempts - 1 && r.nextCalls == |strategy|)
          || (r.attempts > 0 && Retryable(replies[r.attempts - 1])
              && r.nextCalls == r.attempts && strategy[r.attempts - 1].ok
              && r.attempts - 1 == |cancelled|))
    && (r.attempts > 0 ==> Continues(replies, strategy, cancelled, r.attempts - 1))
    && (r.outcome.Acquired? ==>
          && r.attempts > 0 && replies[r.attempts - 1] == Value(OkReply)
          && r.nextCalls == r.attempts - 1
          && r.outcome.lock == NewLock(key, token, expiration))
    && (r.outcome.Failed? ==>
          r.attempts > 0 &&
          var last := replies[r.attempts - 1];
          || (DeadlineAttempt(last) && r.outcome.err == last.err && r.nextCalls == r.attempts - 1)
          || (Retryable(last) && r.nextCalls == r.attempts && strategy[r.attempts - 1].ok
              && r.attempts <= |cancelled| && cancelled[r.attempts - 1] && r.outcome.err == ctxErr)
          || (Retryable(last) && r.nextCalls == r.attempts && !strategy[r.attempts - 1].ok
              && r.outcome.err == ExhaustedError(last)))
  }

  /** The rounds of the retry loop, one attempt at a time. */
  function Rounds(key: string, expiration: Duration, token: string, ctxErr: ContextError,
                  replies: seq<Reply<string>>, strategy: seq<Backoff>, cancelled: seq<bool>): LockRun
    decreases |replies|
  {
    if |replies| == 0 then LockRun(Unfinished, 0, 0, 0)
    else if DeadlineAttempt(replies[0]) then LockRun(Failed(replies[0].err), 1, 0, 0)
    else if replies[0] == Value(OkReply) then LockRun(Acquired(NewLock(key, token, expiration)), 1, 0, 0)
    else if |strategy| == 0 then LockRun(Unfinished, 1, 0, 0)
    else if !strategy[0].ok then LockRun(Failed(ExhaustedError(replies[0])), 1, 1, 0)
    else if |cancelled| == 0 then LockRun(Unfinished, 1, 1, 0)
    else if cancelled[0] then LockRun(Failed(ctxErr), 1, 1, 0)
    else Shift(Rounds(key, expiration, token, ctxErr, replies[1..], strategy[1..], cancelled[1..]), 1, strategy[0].interval)
  }

  /** Every run of the rounds ends in one of the ways `Settled` allows. */
  lemma {:induction false} RoundsSettle(key: string, expiration: Duration, token: string, ctxErr: ContextError,
                                        replies: seq<Reply<string>>, strategy: seq<Backoff>, cancelled: seq<bool>)
    ensures Settled(key, expiration, token, ctxErr, replies, strategy, cancelled,
                    Rounds(key, expiration, token, ctxErr, replies, strategy, cancelled))
    decreases |replies|
  {
    if |replies| > 0 && Retryable(replies[0]) && |strategy| > 0 && strategy[0].ok
       && |cancelled| > 0 && !cancelled[0] {
      var rest := Rounds(key, expiration, token, ctxErr, replies[1..], strategy[1..], cancelled[1..]);
      RoundsSettle(key, expiration, token, ctxErr, replies[1..], strategy[1..], cancelled[1..]);
      assert rest.attempts > 0 ==> replies[1..][rest.attempts - 1] == replies[rest.attempts];
      assert rest.nextCalls > 0 ==> strategy[1..][rest.nextCalls - 1] == strategy[rest.nextCalls];
      assert rest.attempts > 0 && rest.attempts <= |cancelled[1..]| ==>
               cancelled[1..][rest.attempts - 1] == cancelled[rest.attempts];
      if rest.attempts > 0 {
        assert Continues(replies, strategy, cancelled, rest.attempts) by {
          forall i | 0 <= i < rest.attempts
            ensures Retryable(replies[i]) && strategy[i].ok && !cancelled[i]
          {
            if i > 0 {
              assert replies[1..][i - 1] == replies[i];
              assert strategy[1..][i - 1] == strategy[i];
              assert cancelled[1..][i - 1] == cancelled[i];
            }
          }
        }
      }
    }
  }

  /** `Client.Lock` with `token` as the one value `valuer()` produced for the
      call: the rounds of the retry loop, ending as `Settled` describes. */
  function Lock(key: string, expiration: Duration, token: string, ctxErr: ContextError,
                replies: seq<Reply<string>>, strategy: seq<Backoff>, cancelled: seq<bool>): (r: LockRun)
    ensures Settled(key, expiration, token, ctxErr, replies, strategy, cancelled, r)
    ensures r.waited == Waited(strategy, WaitedRounds(replies, strategy, cancelled, r))
  {
    RoundsSettle(key, expiration, token, ctxErr, replies, strategy, cancelled);
    RoundsWaited(key, expiration, token, ctxErr, replies, strategy, cancelled);
    Rounds(key, expiration, token, ctxErr, replies, strategy, cancelled)
  }

  /** How many intervals a settled run waited out: one per round that went
      on to another attempt, plus the last one when every reply was used and
      every round went on. */
  ghost function WaitedRounds(replies: seq<Reply<string>>, strategy: seq<Backoff>, cancelled: seq<bool>, r: LockRun): (n: nat)
    requires r.attempts <= |strategy| + 1
    ensures n <= |strategy|
  {
    if r.attempts == |replies| && Continues(replies, strategy, cancelled, r.attempts) then r.attempts
    else if r.attempts > 0 then r.attempts - 1
    else 0
  }

  /** The waits of a call are exactly the intervals granted to the rounds
      that went on: the last attempt's interval counts only when its wait was
      won by the timer, which happens only when the replies ran out after it. */
  lemma {:induction false} RoundsWaited(key: string, expiration: Duration, token: string, ctxErr: ContextError,
                                        replies: seq<Reply<string>>, strategy: seq<Backoff>, cancelled: seq<bool>)
    ensures var r := Rounds(key, expiration, token, ctxErr, replies, strategy, cancelled);
            r.attempts <= |strategy| + 1
            && r.waited == Waited(strategy, WaitedRounds(replies, strategy, cancelled, r))
    decreases |replies|
  {
    if |replies| > 0 && Retryable(replies[0]) && |strategy| > 0 && strategy[0].ok
       && |cancelled| > 0 && !cancelled[0] {
      var rest := Rounds(key, expiration, token, ctxErr, replies[1..], strategy[1..], cancelled[1..]);
      RoundsWaited(key, expiration, token, ctxErr, replies[1..], strategy[1..], cancelled[1..]);
      var r := Rounds(key, expiration, token, ctxErr, replies, strategy, cancelled);
      assert r == Shift(rest, 1, strategy[0].interval);
      var m := WaitedRounds(replies[1..], strategy[1..], cancelled[1..], rest);
      ContinuesCons(replies, strategy, cancelled, r.attempts);
      assert WaitedRounds(replies, strategy, cancelled, r) == m + 1;
    }
  }

  /** k rounds go on exactly when the first does and the k-1 after it do. */
  lemma ContinuesCons(replies: seq<Reply<string>>, strategy: seq<Backoff>, cancelled: seq<bool>, k: nat)
    requires k > 0 && |replies| > 0 && |strategy| > 0 && |cancelled| > 0
    ensures Continues(replies, strategy, cancelled, k)
        <==> Retryable(replies[0]) && strategy[0].ok && !cancelled[0]
             && Continues(replies[1..], strategy[1..], cancelled[1..], k - 1)
  {
    if Retryable(replies[0]) && strategy[0].ok && !cancelled[0]
       && Continues(replies[1..], strategy[1..], cancelled[1..], k - 1) {
      forall i | 0 <= i < k
        ensures Retryable(replies[i]) && strategy[i].ok && !cancelled[i]
      {
        if i > 0 {
          assert replies[1..][i - 1] == replies[i];
          assert strategy[1..][i - 1] == strategy[i];
          assert cancelled[1..][i - 1] == cancelled[i];
        }
      }
    }
    if Continues(replies, strategy, cancelled, k) {
      forall i | 0 <= i < k - 1
        ensures Retryable(replies[1..][i]) && strategy[1..][i].ok && !cancelled[1..][i]
      {
        assert replies[1..][i] == replies[i + 1];
      }
    }
  }

  /** A run seen from k rounds earlier. */
  function Shift(r: LockRun, k: nat, w: Duration): LockRun
  {
    LockRun(r.outcome, r.attempts + k, r.nextCalls + k, r.waited + w)
  }

  /** Rounds that all went on can be skipped: the call then behaves as a
      fresh call on the remaining inputs, k attempts, k strategy answers and
      the first k intervals later. */
  lemma {:induction false} SkipRounds(key: string, expiration: Duration, token: string, ctxErr: ContextError,
                                      replies: seq<Reply<string>>, strategy: seq<Backoff>, cancelled: seq<bool>, k: nat)
    requires Continues(replies, strategy, cancelled, k)
    ensures Rounds(key, expiration, token, ctxErr, replies, strategy, cancelled)
         == Shift(Rounds(key, expiration, token, ctxErr, replies[k..], strategy[k..], cancelled[k..]), k, Waited(strategy, k))
    decreases k
  {
    if k == 0 {
      assert replies[0..] == replies && strategy[0..] == strategy && cancelled[0..] == cancelled;
    } else {
      assert Retryable(replies[0]) && strategy[0].ok && !cancelled[0];
      assert Continues(replies[1..], strategy[1..], cancelled[1..], k - 1) by {
        forall i | 0 <= i < k - 1
          ensures Retryable(replies[1..][i]) && strategy[1..][i].ok && !cancelled[1..][i]
        {
          assert replies[1..][i] == replies[i + 1];
        }
      }
      SkipRounds(key, expiration, token, ctxErr, replies[1..], strategy[1..], cancelled[1..], k - 1);
      assert replies[1..][k - 1..] == replies[k..];
      assert strategy[1..][k - 1..] == strategy[k..];
      assert cancelled[1..][k - 1..] == cancelled[k..];
    }
  }

  /** An attempt that hits a deadline ends the call with that very error,
      before `retry.Next()` is asked about it. */
  lemma {:induction false} DeadlineEndsCall(key: string, expiration: Duration, token: string, ctxErr: ContextError,
                         replies: seq<Reply<string>>, strategy: seq<Backoff>, cancelled: seq<bool>, k: nat)
    requires Continues(replies, strategy, cancelled, k)
    requires k < |replies| && DeadlineAttempt(replies[k])
    ensures Lock(key, expiration, token, ctxErr, replies, strategy, cancelled)
         == LockRun(Failed(replies[k].err), k + 1, k, Waited(strategy, k))
  {
    SkipRounds(key, expiration, token, ctxErr, replies, strategy, cancelled, k);
  }

  /** When cancellation wins the wait after attempt k, the call returns
      `ctx.Err()` and makes no further attempt. */
  lemma {:induction false} CancelEndsCall(key: string, expiration: Duration, token: string, ctxErr: ContextError,
                       replies: seq<Reply<string>>, strategy: seq<Backoff>, cancelled: seq<bool>, k: nat)
    requires Continues(replies, strategy, cancelled, k)
    requires k < |replies| && Retryable(replies[k])
    requires k < |strategy| && strategy[k].ok
    requires k < |cancelled| && cancelled[k]
    ensures Lock(key, expiration, token, ctxErr, replies, strategy, cancelled)
         == LockRun(Failed(ctxErr), k + 1, k + 1, Waited(strategy, k))
  {
    SkipRounds(key, expiration, token, ctxErr, replies, strategy, cancelled, k);
  }

  /** Whichever attempt takes the lock, the handle carries the call's single
      token, after k retries and k strategy answers. */
  lemma {:induction false} AcquiredAfterRetries(key: string, expiration: Duration, token: string, ctxErr: ContextError,
                             replies: seq<Reply<string>>, strategy: seq<Backoff>, cancelled: seq<bool>, k: nat)
    requires Continues(replies, strategy, cancelled, k)
    requires k < |replies| && replies[k] == Value(OkReply)
    ensures Lock(key, expiration, token, ctxErr, replies, strategy, cancelled)
         == LockRun(Acquired(NewLock(key, token, expiration)), k + 1, k, Waited(strategy, k))
  {
    SkipRounds(key, expiration, token, ctxErr, replies, strategy, cancelled, k);
  }

  /** The attempt found the key held by someone else: a clean reply other than "OK". */
  predicate Contended(reply: Reply<string>)
  {
    reply.Value? && reply.value != OkReply
  }

  /** Against a key held throughout, with a strategy that grants K intervals
      and then gives up, the call makes exactly K+1 attempts and K+1
      `retry.Next()` calls, waits out the K intervals, and fails with an
      error that matches ErrFailedToPreemptLock and not DeadlineExceeded. */
  lemma {:induction false} ExhaustsAfterKRetries(key: string, expiration: Duration, token: string, ctxErr: ContextError,
                              replies: seq<Reply<string>>, strategy: seq<Backoff>, cancelled: seq<bool>, K: nat)
    requires K < |replies| && K < |strategy| && K <= |cancelled|
    requires forall i :: 0 <= i <= K ==> Contended(replies[i])
    requires forall i :: 0 <= i < K ==> strategy[i].ok && !cancelled[i]
    requires !strategy[K].ok
    ensures var r := Lock(key, expiration, token, ctxErr, replies, strategy, cancelled);
            && r.outcome.Failed?
            && Is(r.outcome.err, FailedToPreemptLock) && !Is(r.outcome.err, DeadlineExceeded)
            && r.attempts == K + 1 && r.nextCalls == K + 1
            && r.waited == Waited(strategy, K)
  {
    assert Continues(replies, strategy, cancelled, K);
    SkipRounds(key, expiration, token, ctxErr, replies, strategy, cancelled, K);
  }

  /** After k rounds that went on, a retryable attempt (contention or any
      error that is not a deadline) followed by a refusing strategy ends the
      call with the exhaustion error wrapping that attempt's outcome, after
      k+1 attempts and k+1 `retry.Next()` calls. */
  lemma {:induction false} ExhaustsAfterRetryableAttempt(key: string, expiration: Duration, token: string, ctxErr: ContextError,
                                                         replies: seq<Reply<string>>, strategy: seq<Backoff>, cancelled: seq<bool>, k: nat)
    requires Continues(replies, strategy, cancelled, k)
    requires k < |replies| && Retryable(replies[k])
    requires k < |strategy| && !strategy[k].ok
    ensures Lock(key, expiration, token, ctxErr, replies, strategy, cancelled)
         == LockRun(Failed(ExhaustedError(replies[k])), k + 1, k + 1, Waited(strategy, k))
  {
    SkipRounds(key, expiration, token, ctxErr, replies, strategy, cancelled, k);
  }

  /** With a fixed-interval strategy the K waits add up to K times the interval. */
  lemma {:induction false} FixedIntervalWaited(strategy: seq<Backoff>, K: nat, interval: Duration)
    requires K <= |strategy|
    requires forall i :: 0 <= i < K ==> strategy[i].interval == interval
    ensures Waited(strategy, K) == K * interval
    decreases K
  {
    if K > 0 {
      FixedIntervalWaited(strategy[1..], K - 1, interval);
    }
  }

  /** How a caller can classify the error `Lock` returns with `errors.Is`,
      provided the store never reports an error wrapping
      ErrFailedToPreemptLock:
      - it matches ErrFailedToPreemptLock exactly when the strategy gave up
        after an attempt that reported no error;
      - it matches DeadlineExceeded only when it is the deadline error of the
        last attempt, returned as is, or `ctx.Err()`: an exhausted strategy
        never yields an error matching both ErrFailedToPreemptLock and
        DeadlineExceeded, nor one that wraps a deadline. */
  lemma {:induction false} ErrorClassification(key: string, expiration: Duration, token: string, ctxErr: ContextError,
                            replies: seq<Reply<string>>, strategy: seq<Backoff>, cancelled: seq<bool>)
    requires forall i :: 0 <= i < |replies| && replies[i].Failure? ==> !Is(replies[i].err, FailedToPreemptLock)
    ensures var r := Lock(key, expiration, token, ctxErr, replies, strategy, cancelled);
            r.outcome.Failed? ==>
              && (Is(r.outcome.err, FailedToPreemptLock) <==>
                    r.nextCalls == r.attempts && !strategy[r.attempts - 1].ok && replies[r.attempts - 1].Value?)
              && (Is(r.outcome.err, DeadlineExceeded) ==>
                    (DeadlineAttempt(replies[r.attempts - 1]) && r.outcome.err == replies[r.attempts - 1].err)
                    || r.outcome.err == ctxErr)
              && !(Is(r.outcome.err, FailedToPreemptLock) && Is(r.outcome.err, DeadlineExceeded))
  {
    var r := Lock(key, expiration, token, ctxErr, replies, strategy, cancelled);
    if r.outcome.Failed? {
      var last := replies[r.attempts - 1];
      if DeadlineAttempt(last) && r.outcome.err == last.err {
        IsAtMostOneSentinel(last.err, DeadlineExceeded, FailedToPreemptLock);
      }
      IsAtMostOneSentinel(r.outcome.err, DeadlineExceeded, FailedToPreemptLock);
    }
  }

  /** TryLock and a single `Lock` attempt followed by an exhausted strategy
      agree: success yields the same handle, and contention yields errors
      that both match ErrFailedToPreemptLock (Lock's is wrapped). */
  lemma SingleAttemptAgreesWithTryLock(key: string, expiration: Duration, token: string, ctxErr: ContextError,
                                       taken: bool, other: string)
    requires other != OkReply
    ensures var t := TryLock(key, expiration, token, Value(taken));
            var r := Lock(key, expiration, token, ctxErr,
                          [if taken then Value(OkReply) else Value(other)], [Backoff(0, false)], []);
            && (t.Acquired? <==> r.outcome.Acquired?)
            && (t.Acquired? ==> t.lock == r.outcome.lock)
            && (t.Failed? ==> r.outcome.Failed? && Is(t.err, FailedToPreemptLock) && Is(r.outcome.err, FailedToPreemptLock))
  {
  }

  /** `Client.Lock` as the loop lock.go runs: one token for the whole call,
      then attempt, stop on a deadline, stop on "OK", ask the strategy, wrap
      the error on exhaustion, wait or stop on cancellation, and go round
      again. It computes the same run as the recursive definition. */
  method RunLock(key: string, expiration: Duration, token: string, ctxErr: ContextError,
                 replies: seq<Reply<string>>, strategy: seq<Backoff>, cancelled: seq<bool>)
    returns (outcome: Outcome, attempts: nat, nextCalls: nat, waited: Duration)
    ensures LockRun(outcome, attempts, nextCalls, waited) == Lock(key, expiration, token, ctxErr, replies, strategy, cancelled)
  {
    attempts, nextCalls, waited := 0, 0, 0;
    var i := 0;
    while true
      invariant Continues(replies, strategy, cancelled, i)
      invariant attempts == i && nextCalls == i && waited == Waited(strategy, i)
      decreases |replies| - i
    {
      SkipRounds(key, expiration, token, ctxErr, replies, strategy, cancelled, i);
      if i == |replies| {
        outcome := Unfinished;
        return;
      }
      var reply := replies[i];
      attempts := attempts + 1;
      if reply.Failure? && Is(reply.err, DeadlineExceeded) {
        outcome := Failed(reply.err);
        return;
      }
      if reply == Value(OkReply) {
        outcome := Acquired(NewLock(key, token, expiration));
        return;
      }
      if i == |strategy| {
        outcome := Unfinished;
        return;
      }
      var next := strategy[i];
      nextCalls := nextCalls + 1;
      if !next.ok {
        outcome := Failed(ExhaustedError(reply));
        return;
      }
      if i == |cancelled| {
        outcome := Unfinished;
        return;
      }
      if cancelled[i] {
        outcome := Failed(ctxErr);
        return;
      }
      WaitedStep(strategy, i);
      waited := waited + next.interval;
      i := i + 1;
    }
  }

  /** The running total of waited intervals grows by one interval per round. */
  lemma {:induction false} WaitedStep(strategy: seq<Backoff>, k: nat)
    requires k < |strategy|
    ensures Waited(strategy, k + 1) == Waited(strategy, k) + strategy[k].interval
    decreases k
  {
    if k > 0 {
      WaitedStep(strategy[1..], k - 1);
    }
  }
}
