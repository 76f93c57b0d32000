/** The rate-limit backoff: one global lock, a queue of waiting callbacks and the auto-clear timers. */
module Backoff {
  import opened Outcome

  /** A queued callback and the backoff generation in which it was queued. */
  datatype Waiter = Waiter(id: nat, generation: nat)

  /** A pending auto-clear timer. */
  datatype Timer = Timer(generation: nat, due: int)

  /** A callback that got its answer: started, or rejected as superseded. */
  datatype Settled = Settled(id: nat, started: bool)

  datatype State = State(active: bool, until: int, retryAfterSeconds: nat, queue: seq<Waiter>, generation: nat,
                         timers: seq<Timer>, log: seq<Settled>)

  const IDLE := State(false, 0, 0, [], 0, [], [])

  const DEFAULT_WAIT_SECONDS: nat := 30

  /** `header` is the parsed Retry-After value, None when absent or not a number. */
  function WaitSeconds(header: Option<int>): nat {
    if header.Some? && header.value > 0 then header.value else DEFAULT_WAIT_SECONDS
  }

  /** What draining does to each waiter, in order. */
  function Verdicts(pending: seq<Waiter>, generation: nat): seq<Settled> {
    if pending == [] then []
    else
      var w := pending[|pending| - 1];
      Verdicts(pending[..|pending| - 1], generation) + [Settled(w.id, w.generation == generation)]
  }

  function ClearBackoff(s: State): State {
    s.(active := false, until := 0, retryAfterSeconds := 0, queue := [], log := s.log + Verdicts(s.queue, s.generation))
  }

  function IsThrottled(s: State, now: int): (State, bool) {
    if !s.active then (s, false)
    else if now >= s.until then (ClearBackoff(s), false)
    else (s, true)
  }

  datatype Op =
    | RateLimited(header: Option<int>)   // a 429 response was reported
    | Guard(id: nat)                     // withBackoffGuard was called
    | Check                              // isThrottled was called
    | Fire(k: nat)                       // pending timer number k fires

  datatype Entry = Entry(now: int, op: Op)

  function Step(s: State, e: Entry): State {
    match e.op
    case RateLimited(header) =>
      var wait := WaitSeconds(header);
      var until := e.now + wait * 1000;
      s.(active := true, retryAfterSeconds := wait, until := until, generation := s.generation + 1,
         timers := s.timers + [Timer(s.generation + 1, until)])
    case Guard(id) =>
      var (s', throttled) := IsThrottled(s, e.now);
      if throttled then s'.(queue := s'.queue + [Waiter(id, s'.generation)])
      else s'.(log := s'.log + [Settled(id, true)])
    case Check => IsThrottled(s, e.now).0
    case Fire(k) =>
      if k >= |s.timers| then s
      else
        var s' := s.(timers := s.timers[..k] + s.timers[k + 1..]);
        if s.timers[k].generation != s.generation then s' else ClearBackoff(s')
  }

  /** The module state of the network layer. */
  class Network {
    var active: bool
    var until: int
    var retryAfterSeconds: nat
    var queue: seq<Waiter>
    var generation: nat
    var timers: seq<Timer>
    ghost var log: seq<Settled>

    ghost function Now(): State
      reads this
    {
      State(active, until, retryAfterSeconds, queue, generation, timers, log)
    }

    constructor ()
      ensures Now() == IDLE
    {
      active, until, retryAfterSeconds, queue, generation, timers, log := false, 0, 0, [], 0, [], [];
    }

    method Throttled(now: int) returns (throttled: bool)
      modifies this
      ensures (Now(), throttled) == IsThrottled(old(Now()), now)
      ensures Now() == Step(old(Now()), Entry(now, Check))
    {
      if !active { return false; }
      if now >= until {
        Clear(None);
        return false;
      }
      return true;
    }

    method HandleRateLimitResponse(now: int, header: Option<int>)
      modifies this
      ensures Now() == Step(old(Now()), Entry(now, RateLimited(header)))
    {
      var waitSeconds := DEFAULT_WAIT_SECONDS;
      if header.Some? && header.value > 0 {
        waitSeconds := header.value;
      }
      active := true;
      retryAfterSeconds := waitSeconds;
      until := now + waitSeconds * 1000;
      generation := generation + 1;
      timers := timers + [Timer(generation, until)];
    }

    /** Starts the callback at once, or queues it with the current generation. */
    method WithBackoffGuard(now: int, id: nat) returns (startedNow: bool)
      modifies this
      ensures Now() == Step(old(Now()), Entry(now, Guard(id)))
      ensures startedNow <==> !IsThrottled(old(Now()), now).1
    {
      var throttled := Throttled(now);
      if !throttled {
        log := log + [Settled(id, true)];
        return true;
      }
      queue := queue + [Waiter(id, generation)];
      return false;
    }

    method TimerFires(now: int, k: nat)
      requires k < |timers|
      modifies this
      ensures Now() == Step(old(Now()), Entry(now, Fire(k)))
    {
      var timer := timers[k];
      timers := timers[..k] + timers[k + 1..];
      Clear(Some(timer.generation));
    }

    /** Without a generation: clears unconditionally. With one: only if it is still the current one. */
    method Clear(expected: Option<nat>)
      modifies this
      ensures Now() == if expected.Some? && expected.value != old(generation) then old(Now())
                       else ClearBackoff(old(Now()))
    {
      if expected.Some? && expected.value != generation {
        return;
      }
      active := false;
      retryAfterSeconds := 0;
      until := 0;
      var pending := queue;
      queue := [];
      for k := 0 to |pending|
        invariant State(active, until, retryAfterSeconds, queue, generation, timers, log)
               == ClearBackoff(old(Now())).(log := old(log) + Verdicts(pending[..k], generation))
        invariant pending == old(queue) && generation == old(generation)
      {
        assert pending[..k + 1][..k] == pending[..k];
        var cb := pending[k];
        if generation != cb.generation {
          log := log + [Settled(cb.id, false)];
        } else {
          log := log + [Settled(cb.id, true)];
        }
      }
      assert pending[..|pending|] == pending;
    }
  }
}
