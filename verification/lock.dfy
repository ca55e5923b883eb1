/**
  The lock handle and the two ownership-checked operations on it, Refresh
  and Unlock. The Lua scripts run on the Redis server and are not part of
  this model: each operation takes the reply of its script as an input and
  maps it to the error the caller sees.
 */
module Locks {
  import opened Errors

  /** `time.Duration`, in nanoseconds; kept as an opaque integer. */
  type Duration = int

  /** A held lease: key, ownership token (`value`), requested expiration, and
      whether the one-shot stop signal has been fired (the `sync.Once`
      guarding the `unlock` channel has run). */
  datatype Lock = Lock(key: string, value: string, expiration: Duration, unlocked: bool)

  /** `newLock`: a fresh handle whose stop signal has not fired. */
  function NewLock(key: string, value: string, expiration: Duration): (l: Lock)
    ensures l.key == key && l.value == value && l.expiration == expiration
    ensures !l.unlocked
  {
    Lock(key, value, expiration, false)
  }

  /** `Lock.Refresh`: maps the refresh script's integer reply to the error
      returned (None is nil). Only a reply of exactly 1 means the lease was
      renewed; a transport error, including redis.Nil, comes back unchanged. */
  function Refresh(reply: Reply<int>): (r: Option<Error>)
    ensures r == None <==> reply == Value(1)
    ensures reply.Failure? ==> r == Some(reply.err)
    ensures reply.Value? && reply.value != 1 ==> r == Some(LockNotHold)
  {
    match reply
    case Failure(e) => Some(e)
    case Value(n) => if n != 1 then Some(LockNotHold) else None
  }

  /** What one call of `Lock.Unlock` leaves behind. */
  datatype Unlocked = Unlocked(lock: Lock, err: Option<Error>, fired: bool)

  /** `Lock.Unlock`: maps the unlock script's reply to the error returned and
      fires the stop signal after the store call whatever its outcome, unless
      an earlier call already fired it. redis.Nil is compared with `==`, so a
      wrapped redis.Nil is returned as is. */
  function Unlock(l: Lock, reply: Reply<int>): (r: Unlocked)
    ensures r.lock == l.(unlocked := true)
    ensures r.fired <==> !l.unlocked
    ensures r.err == None <==> reply == Value(1)
    ensures reply == Failure(RedisNil) ==> r.err == Some(LockNotHold)
    ensures reply.Failure? && reply.err != RedisNil ==> r.err == Some(reply.err)
    ensures reply.Value? && reply.value != 1 ==> r.err == Some(LockNotHold)
  {
    var err :=
      match reply
      case Failure(e) => if e == RedisNil then Some(LockNotHold) else Some(e)
      case Value(n) => if n != 1 then Some(LockNotHold) else None;
    Unlocked(l.(unlocked := true), err, !l.unlocked)
  }

  /** Refresh and Unlock read a reply the same way except for redis.Nil,
      which Unlock reports as "not held" and Refresh passes through. */
  lemma UnlockAgreesWithRefresh(l: Lock, reply: Reply<int>)
    ensures reply != Failure(RedisNil) ==> Unlock(l, reply).err == Refresh(reply)
    ensures reply == Failure(RedisNil) ==>
              Unlock(l, reply).err == Some(LockNotHold) && Refresh(reply) == Some(RedisNil)
  {
  }

  /** The outcome of calling Unlock once per reply, in order, on the same handle. */
  datatype UnlockTrace = UnlockTrace(lock: Lock, errs: seq<Option<Error>>, fires: nat)

  function UnlockAll(l: Lock, replies: seq<Reply<int>>): (t: UnlockTrace)
    ensures |t.errs| == |replies|
    ensures t.lock.key == l.key && t.lock.value == l.value && t.lock.expiration == l.expiration
    decreases |replies|
  {
    if |replies| == 0 then UnlockTrace(l, [], 0)
    else
      var u := Unlock(l, replies[0]);
      var rest := UnlockAll(u.lock, replies[1..]);
      UnlockTrace(rest.lock, [u.err] + rest.errs, rest.fires + (if u.fired then 1 else 0))
  }

  /** However many times Unlock is called, the stop signal is fired at most
      once: exactly once if it had not fired before and there was a call,
      never otherwise. Once fired it stays fired, and every call's error is
      the one its own reply dictates. */
  lemma {:induction false} StopSignalFiresOnce(l: Lock, replies: seq<Reply<int>>)
    ensures UnlockAll(l, replies).fires == (if !l.unlocked && |replies| > 0 then 1 else 0)
    ensures UnlockAll(l, replies).lock.unlocked <==> l.unlocked || |replies| > 0
    ensures forall i :: 0 <= i < |replies| ==>
              UnlockAll(l, replies).errs[i] == Unlock(l, replies[i]).err
    decreases |replies|
  {
    if |replies| > 0 {
      var u := Unlock(l, replies[0]);
      StopSignalFiresOnce(u.lock, replies[1..]);
      var t := UnlockAll(l, replies);
      forall i | 0 <= i < |replies|
        ensures t.errs[i] == Unlock(l, replies[i]).err
      {
        if i > 0 {
          assert replies[1..][i - 1] == replies[i];
        }
      }
    }
  }
}
