/**
 The self-rearming expiry timer of a socket iostream (asio/asio/basic_socket_streambuf.hpp).

 The timer service calls the handler of each wait exactly once: when the wait's expiry time
 has come, or when setting a new expiry time has cancelled it.  The clock only moves forward.
 */
module SocketTimer {

  datatype State = NoTimer | IsPending | HasExpired

  class SocketTimer {
    var state: State
    var expiry: int
    var now: int
    /** Waits handed to the timer service and not yet answered by a handler call. */
    var outstanding: nat
    var scheduledFor: int
    var cancelled: bool
    /** Calls so far: expiry times set, waits started, handler runs, sockets closed by the timer. */
    ghost var sets: nat
    ghost var waits: nat
    ghost var runs: nat
    ghost var closes: nat

    /**
     A pending timer has exactly one handler outstanding and every other state none; an expired
     timer is past the expiry time now set; and each wait, as each closing of the socket, is due to
     one setting of the expiry.
     */
    ghost predicate Valid()
      reads this
    {
      && outstanding == (if state == IsPending then 1 else 0)
      && (state == HasExpired ==> expiry <= now)
      && (state == NoTimer <==> sets == 0)
      && (state == IsPending ==> cancelled || scheduledFor == expiry)
      && waits == runs + outstanding
      && waits + (if state == IsPending && cancelled then 1 else 0) <= sets
      && closes + outstanding <= sets && (state == HasExpired ==> closes > 0)
    }

    constructor (time: int)
      ensures Valid() && state == NoTimer && now == time
    {
      state, expiry, now := NoTimer, 0, time;
      outstanding, scheduledFor, cancelled := 0, 0, false;
      sets, waits, runs, closes := 0, 0, 0, 0;
    }

    method Tick(elapsed: nat)
      requires Valid()
      modifies `now
      ensures Valid() && now == old(now) + elapsed
    {
      now := now + elapsed;
    }

    /** The body of timer_handler. */
    method Handler()
      modifies `state, `outstanding, `scheduledFor, `cancelled, `waits, `closes
      ensures if now < expiry then
                && state == IsPending && outstanding == old(outstanding) + 1 && waits == old(waits) + 1
                && scheduledFor == expiry && !cancelled && closes == old(closes)
              else
                && state == HasExpired && closes == old(closes) + 1
                && unchanged(`outstanding, `scheduledFor, `cancelled, `waits)
    {
      if now < expiry {
        state := IsPending;
        // async_wait
        outstanding, waits, scheduledFor, cancelled := outstanding + 1, waits + 1, expiry, false;
      } else {
        state := HasExpired;
        closes := closes + 1;
      }
    }

    /** expires_at: cancels an outstanding wait, sets the time and starts the timer if none is pending. */
    method ExpiresAt(time: int)
      requires Valid()
      modifies this
      ensures Valid() && expiry == time && now == old(now) && sets == old(sets) + 1 && runs == old(runs)
      ensures old(state) != IsPending ==> state == if now < time then IsPending else HasExpired
      ensures old(state) == IsPending ==> state == IsPending && waits == old(waits)
    {
      if outstanding > 0 {
        cancelled := true;
      }
      expiry := time;
      sets := sets + 1;
      if state != IsPending {
        Handler();
      }
    }

    /** A wait ends when its time has come or it was cancelled. */
    predicate HandlerReady()
      reads this
    {
      outstanding > 0 && (cancelled || scheduledFor <= now)
    }

    /** The service calls the handler: the timer then shows whether the set expiry time has passed. */
    method Fire()
      requires Valid() && HandlerReady()
      modifies this
      ensures Valid() && runs == old(runs) + 1 && sets == old(sets) && expiry == old(expiry) && now == old(now)
      ensures state == if now < expiry then IsPending else HasExpired
      ensures !old(cancelled) ==> state == HasExpired
      ensures !HandlerReady()
    {
      outstanding, runs := outstanding - 1, runs + 1;
      Handler();
    }
  }

  datatype Event = Elapse(time: nat) | Set(expiry: int) | Fire

  /** Number of settings in a run. */
  function Sets(events: seq<Event>, i: nat): nat
    requires i <= |events|
  {
    if i == 0 then 0 else Sets(events, i - 1) + if events[i - 1].Set? then 1 else 0
  }

  /**
   Over every interleaving of passing time, settings of the expiry and handler calls, the timer
   keeps its invariant, and the handler runs at most once per setting: it never spins.  Nor is an
   expiry missed: when its time has come on a pending timer, the handler can be called.
   */
  method Run(t: SocketTimer, events: seq<Event>)
    requires t.Valid() && t.state == NoTimer
    modifies t
    ensures t.Valid() && t.sets == Sets(events, |events|)
    ensures t.runs + t.outstanding <= t.sets && t.closes + t.outstanding <= t.sets
    ensures t.state == HasExpired ==> t.expiry <= t.now
    ensures t.state == IsPending <==> t.outstanding == 1
    ensures t.state == IsPending && t.expiry <= t.now ==> t.HandlerReady()
  {
    for i := 0 to |events|
      invariant t.Valid() && t.sets == Sets(events, i)
    {
      match events[i] {
        case Elapse(time) => t.Tick(time);
        case Set(expiry) => t.ExpiresAt(expiry);
        case Fire =>
          if t.HandlerReady() {
            t.Fire();
          }
      }
    }
  }

  /**
   After any such run, one call of the handler, if it can be called, leaves the timer expired exactly
   when an expiry was set and its time has come, whatever was set, cancelled or elapsed before.
   */
  method ExpiryIsSeen(t: SocketTimer, events: seq<Event>)
    requires t.Valid() && t.state == NoTimer
    modifies t
    ensures t.Valid() && (t.state == HasExpired <==> Sets(events, |events|) > 0 && t.expiry <= t.now)
    ensures !t.HandlerReady()
  {
    Run(t, events);
    if t.HandlerReady() {
      t.Fire();
    }
  }
}
