/**
  `Lock.AutoRefresh` as a state machine. The goroutine's `select` is driven
  by a sequence of events, one per case the `select` takes: the ticker
  fired, a retry was taken from the one-slot retry channel, or the unlock
  signal was received. Each refresh-triggering event carries the reply the
  refresh script gave, which `Refresh` maps to an error.

  The retry channel is the only state besides running/returned: a buffer of
  capacity one that a timed-out refresh offers to without blocking.
 */
module Watchdog {
  import opened Errors
  import opened Locks

  /** Capacity of the retry channel (`make(chan struct{}, 1)`). */
  const RetryCapacity: nat := 1

  datatype Event =
    | Tick(reply: Reply<int>)    // `<-ticker.C`, then Refresh
    | Retry(reply: Reply<int>)   // `<-ch`, then Refresh
    | Stop                       // `<-l.unlock`

  datatype Status = Running | Returned(err: Option<Error>)

  /** The goroutine's state: whether it still runs, how many retries wait in
      the channel, and how many times it has called Refresh so far. */
  datatype Watch = Watch(status: Status, pending: nat, refreshes: nat)

  /** A new AutoRefresh call: running, empty retry channel, no refresh yet. */
  const Start := Watch(Running, 0, 0)

  ghost predicate Valid(w: Watch)
  {
    w.pending <= RetryCapacity
  }

  /** A non-blocking send: `select { case ch <- struct{}{}: default: }`. */
  function Offer(pending: nat): (p: nat)
    ensures p >= 1 && p >= pending
    ensures pending <= RetryCapacity ==> p == RetryCapacity
  {
    if pending < RetryCapacity then pending + 1 else pending
  }

  /** What the loop does after Refresh returns `err`, with `pending`
      retries left in the channel: a timeout that IS context.DeadlineExceeded
      (compared with `==`) asks for a retry and keeps running, any other error
      ends the goroutine with it, and success keeps running. */
  function AfterRefresh(pending: nat, refreshes: nat, err: Option<Error>): (w: Watch)
    ensures w.refreshes == refreshes + 1
    ensures w.status.Running? <==> err == None || err == Some(DeadlineExceeded)
    ensures w.status.Returned? ==> w.status.err == err
    ensures err == Some(DeadlineExceeded) ==> w.pending == Offer(pending) && w.pending >= 1
    ensures err != Some(DeadlineExceeded) ==> w.pending == pending
  {
    if err == Some(DeadlineExceeded) then Watch(Running, Offer(pending), refreshes + 1)
    else if err.Some? then Watch(Returned(err), pending, refreshes + 1)
    else Watch(Running, pending, refreshes + 1)
  }

  /** The event makes the loop call Refresh: a tick, or a retry taken from
      a non-empty channel. */
  predicate Refreshes(w: Watch, ev: Event)
  {
    ev.Tick? || (ev.Retry? && w.pending > 0)
  }

  /** One pass of the `for { select { … } }` loop. A goroutine that has
      returned takes no more events; a retry event with nothing in the
      channel cannot be selected and changes nothing. */
  function Step(w: Watch, ev: Event): (w': Watch)
    ensures Valid(w) ==> Valid(w')
    ensures !w.status.Running? ==> w' == w
    ensures w.status.Running? && ev.Stop? ==> w' == Watch(Returned(None), w.pending, w.refreshes)
    ensures w.status.Running? && ev.Tick? ==> w'.refreshes == w.refreshes + 1
    ensures w.status.Running? && ev.Retry? ==> w'.refreshes == w.refreshes + (if w.pending > 0 then 1 else 0)
    ensures ev.Retry? && w.pending == 0 ==> w' == w
    ensures w'.status.Returned? && w.status.Running? && !ev.Stop? ==>
              ev.Tick? || (ev.Retry? && w.pending > 0)
    ensures w'.status == Returned(None) ==> w.status == Returned(None) || ev.Stop?
    ensures w'.status.Returned? && w'.status.err.Some? && w.status.Running? ==>
              !ev.Stop? && w'.status.err == Refresh(ev.reply) && w'.status.err != Some(DeadlineExceeded)
    ensures (w.status.Running? && Refreshes(w, ev) && Refresh(ev.reply).Some? && Refresh(ev.reply) != Some(DeadlineExceeded))
              ==> w'.status == Returned(Refresh(ev.reply))
    ensures w.status.Running? && Refreshes(w, ev) && Refresh(ev.reply) == Some(DeadlineExceeded) && Valid(w) ==>
              w'.status.Running? && w'.pending == RetryCapacity
    ensures w.status.Running? && Refreshes(w, ev) && Refresh(ev.reply) == None ==>
              w' == Watch(Running, if ev.Retry? then w.pending - 1 else w.pending, w.refreshes + 1)
  {
    if !w.status.Running? then w
    else match ev
      case Stop => Watch(Returned(None), w.pending, w.refreshes)
      case Tick(reply) => AfterRefresh(w.pending, w.refreshes, Refresh(reply))
      case Retry(reply) =>
        if w.pending == 0 then w
        else AfterRefresh(w.pending - 1, w.refreshes, Refresh(reply))
  }

  /** The goroutine after it has taken the given events in order. */
  function Run(w: Watch, events: seq<Event>): (w': Watch)
    ensures Valid(w) ==> Valid(w')
    ensures w'.refreshes >= w.refreshes
    ensures w'.refreshes <= w.refreshes + |events|
    ensures !w.status.Running? ==> w' == w
    decreases |events|
  {
    if |events| == 0 then w else Run(Step(w, events[0]), events[1..])
  }

  /** `Lock.AutoRefresh` started fresh. */
  function AutoRefresh(events: seq<Event>): (w: Watch)
    ensures Valid(w)
    ensures w.refreshes <= |events|
  {
    Run(Start, events)
  }

  /** The unlock signal ends the goroutine with nil and no further refresh,
      whether or not a retry is pending and whatever events would follow. */
  lemma StopEndsCleanly(w: Watch, events: seq<Event>)
    requires w.status.Running?
    ensures Run(w, [Stop] + events) == Watch(Returned(None), w.pending, w.refreshes)
  {
    assert ([Stop] + events)[1..] == events;
  }

  /** The goroutine returns nil only after taking the unlock signal, and
      returns an error only when a Refresh produced it; that error is never
      context.DeadlineExceeded itself. */
  lemma {:induction false} ReturnCauses(w: Watch, events: seq<Event>)
    requires w.status.Running?
    ensures Run(w, events).status == Returned(None) ==> Stop in events
    ensures Run(w, events).status.Returned? && Run(w, events).status.err.Some? ==>
              var e := Run(w, events).status.err;
              e != Some(DeadlineExceeded) &&
              exists i :: 0 <= i < |events| && !events[i].Stop? && Refresh(events[i].reply) == e
    decreases |events|
  {
    if |events| > 0 {
      var w1 := Step(w, events[0]);
      if w1.status.Running? {
        ReturnCauses(w1, events[1..]);
        if Run(w, events).status.Returned? && Run(w, events).status.err.Some? {
          var e := Run(w, events).status.err;
          var j :| 0 <= j < |events[1..]| && !events[1..][j].Stop? && Refresh(events[1..][j].reply) == e;
          assert events[j + 1] == events[1..][j];
        }
        if Run(w, events).status == Returned(None) {
          assert Stop in events[1..];
        }
      }
    }
  }

  /** The reply of a refresh decides whether the goroutine stays alive. */
  predicate KeepsRunning(ev: Event)
  {
    !ev.Stop? && (Refresh(ev.reply) == None || Refresh(ev.reply) == Some(DeadlineExceeded))
  }

  /** While no unlock signal arrives and every refresh either succeeds or
      times out with context.DeadlineExceeded, the goroutine keeps running;
      once a tick has timed out, a retry stays pending unless some retry's
      refresh succeeded. */
  lemma {:induction false} TimeoutsAreRetried(w: Watch, events: seq<Event>)
    requires w.status.Running? && Valid(w)
    requires forall i :: 0 <= i < |events| ==> KeepsRunning(events[i])
    ensures Run(w, events).status.Running?
    ensures (exists i :: 0 <= i < |events| && events[i].Tick? && Refresh(events[i].reply) == Some(DeadlineExceeded))
            && (forall i :: 0 <= i < |events| && events[i].Retry? ==> Refresh(events[i].reply) != None)
            ==> Run(w, events).pending == 1
    decreases |events|
  {
    if |events| > 0 {
      var w1 := Step(w, events[0]);
      assert w1.status.Running?;
      TimeoutsAreRetried(w1, events[1..]) by {
        forall i | 0 <= i < |events[1..]| ensures KeepsRunning(events[1..][i]) {
          assert events[1..][i] == events[i + 1];
        }
      }
      if && (exists i :: 0 <= i < |events| && events[i].Tick? && Refresh(events[i].reply) == Some(DeadlineExceeded))
         && (forall i :: 0 <= i < |events| && events[i].Retry? ==> Refresh(events[i].reply) != None) {
        var i :| 0 <= i < |events| && events[i].Tick? && Refresh(events[i].reply) == Some(DeadlineExceeded);
        if i == 0 {
          assert w1.pending == 1;
          PendingStaysSet(w1, events[1..]);
        } else {
          assert events[1..][i - 1] == events[i];
          forall j | 0 <= j < |events[1..]| && events[1..][j].Retry?
            ensures Refresh(events[1..][j].reply) != None
          {
            assert events[1..][j] == events[j + 1];
          }
        }
      }
    }
  }

  /** Once a retry is pending, successes and timeouts never empty the
      channel for good: a taken retry that times out is offered again. */
  lemma {:induction false} PendingStaysSet(w: Watch, events: seq<Event>)
    requires w.status.Running? && w.pending == 1
    requires forall i :: 0 <= i < |events| ==> KeepsRunning(events[i])
    ensures Run(w, events).pending == 1 || exists i :: 0 <= i < |events| && events[i].Retry? && Refresh(events[i].reply) == None
    decreases |events|
  {
    if |events| > 0 {
      var w1 := Step(w, events[0]);
      if events[0].Retry? && Refresh(events[0].reply) == None {
      } else {
        assert w1.pending == 1 && w1.status.Running?;
        PendingStaysSet(w1, events[1..]) by {
          forall i | 0 <= i < |events[1..]| ensures KeepsRunning(events[1..][i]) {
            assert events[1..][i] == events[i + 1];
          }
        }
        if Run(w, events).pending != 1 {
          var j :| 0 <= j < |events[1..]| && events[1..][j].Retry? && Refresh(events[1..][j].reply) == None;
          assert events[j + 1] == events[1..][j];
        }
      }
    }
  }

  /** Every tick calls Refresh once: with only ticks whose refresh succeeds,
      the goroutine runs on and has refreshed once per tick. */
  lemma {:induction false} EveryTickRefreshes(w: Watch, events: seq<Event>)
    requires w.status.Running?
    requires forall i :: 0 <= i < |events| ==> events[i] == Tick(Value(1))
    ensures Run(w, events) == Watch(Running, w.pending, w.refreshes + |events|)
    decreases |events|
  {
    if |events| > 0 {
      EveryTickRefreshes(Step(w, events[0]), events[1..]);
    }
  }

  /** Without ticks nothing ever fills an empty retry channel, so retry
      events find nothing to take: Refresh is never called and the channel
      stays empty, whatever the unlock signal does. */
  lemma {:induction false} NoTickNoRefresh(w: Watch, events: seq<Event>)
    requires w.pending == 0
    requires forall i :: 0 <= i < |events| ==> !events[i].Tick?
    ensures Run(w, events).refreshes == w.refreshes && Run(w, events).pending == 0
    decreases |events|
  {
    if |events| > 0 {
      NoTickNoRefresh(Step(w, events[0]), events[1..]) by {
        forall i | 0 <= i < |events[1..]| ensures !events[1..][i].Tick? {
          assert events[1..][i] == events[i + 1];
        }
      }
    }
  }

  /** A refresh whose error is neither nil nor exactly
      context.DeadlineExceeded ends the goroutine with that error, whatever
      events follow. */
  lemma {:induction false} ErrorEndsRun(w: Watch, events: seq<Event>, k: nat)
    requires k < |events|
    requires Run(w, events[..k]).status.Running?
    requires Refreshes(Run(w, events[..k]), events[k])
    requires Refresh(events[k].reply).Some? && Refresh(events[k].reply) != Some(DeadlineExceeded)
    ensures Run(w, events).status == Returned(Refresh(events[k].reply))
    decreases k
  {
    if k == 0 {
      assert events[..0] == [];
    } else {
      var w1 := Step(w, events[0]);
      assert events[..k][1..] == events[1..][..k - 1];
      assert events[1..][k - 1] == events[k];
      ErrorEndsRun(w1, events[1..], k - 1);
    }
  }

  /** `select` may take a ready tick before the ready unlock signal: the
      refresh then meets a released key and its error is returned, not nil. */
  lemma TickBeforeStopReturnsNotHeld()
    ensures Run(Start, [Tick(Value(0)), Stop]).status == Returned(Some(LockNotHold))
  {
    assert [Tick(Value(0)), Stop][1..] == [Stop];
  }
}
