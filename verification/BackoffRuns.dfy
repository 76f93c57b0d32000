/** Settlement, order and timing of the backoff over whole runs. */
module BackoffRuns {
  import opened Outcome
  import opened Backoff

  function At(run: seq<Entry>, n: nat): State
    requires n <= |run|
  {
    if n == 0 then IDLE else Step(At(run, n - 1), run[n - 1])
  }

  /** A timer fires once, not before it is due. */
  ghost predicate Enabled(s: State, e: Entry) {
    e.op.Fire? ==> e.op.k < |s.timers| && e.now >= s.timers[e.op.k].due
  }

  ghost predicate EnabledAt(run: seq<Entry>, k: nat)
    requires k < |run|
  {
    Enabled(At(run, k), run[k])
  }

  ghost predicate Legal(run: seq<Entry>) {
    && (forall i, j | 0 <= i <= j < |run| :: run[i].now <= run[j].now)
    && (forall k | 0 <= k < |run| :: EnabledAt(run, k))
  }

  ghost function ClockAt(run: seq<Entry>, n: nat): int
    requires n <= |run|
  {
    if n > 0 then run[n - 1].now else if run != [] then run[0].now else 0
  }

  // ---------------------------------------------------------------- order of settlement

  function Ids(log: seq<Settled>): seq<nat> {
    if log == [] then [] else Ids(log[..|log| - 1]) + [log[|log| - 1].id]
  }

  function Waiting(queue: seq<Waiter>): seq<nat> {
    if queue == [] then [] else Waiting(queue[..|queue| - 1]) + [queue[|queue| - 1].id]
  }

  /** The callbacks passed to the guard by the first `n` calls, in order. */
  function Submitted(run: seq<Entry>, n: nat): seq<nat>
    requires n <= |run|
  {
    if n == 0 then []
    else Submitted(run, n - 1) + if run[n - 1].op.Guard? then [run[n - 1].op.id] else []
  }

  lemma {:induction false} IdsConcat(a: seq<Settled>, b: seq<Settled>)
    ensures Ids(a + b) == Ids(a) + Ids(b)
  {
    if b == [] {
      assert a + b == a;
    } else {
      assert (a + b)[..|a + b| - 1] == a + b[..|b| - 1];
      IdsConcat(a, b[..|b| - 1]);
    }
  }

  lemma {:induction false} DrainSettlesAll(queue: seq<Waiter>, generation: nat)
    ensures Ids(Verdicts(queue, generation)) == Waiting(queue)
    ensures |Verdicts(queue, generation)| == |queue|
    ensures forall i | 0 <= i < |queue| ::
              Verdicts(queue, generation)[i] == Settled(queue[i].id, queue[i].generation == generation)
  {
    if queue != [] {
      var v := Verdicts(queue[..|queue| - 1], generation);
      DrainSettlesAll(queue[..|queue| - 1], generation);
      assert (v + [Verdicts(queue, generation)[|queue| - 1]])[..|queue| - 1] == v;
    }
  }

  /** The lock protects the queue: nobody waits while it is open. */
  ghost predicate QueueLocked(s: State) {
    s.queue != [] ==> s.active
  }

  lemma ClearKeepsOrder(s: State)
    ensures Ids(ClearBackoff(s).log) == Ids(s.log) + Waiting(s.queue)
  {
    DrainSettlesAll(s.queue, s.generation);
    IdsConcat(s.log, Verdicts(s.queue, s.generation));
  }

  ghost predicate KeepsOrder(s: State, s': State, added: seq<nat>) {
    QueueLocked(s') && Ids(s'.log) + Waiting(s'.queue) == Ids(s.log) + Waiting(s.queue) + added
  }

  lemma CheckKeepsOrder(s: State, now: int)
    requires QueueLocked(s)
    ensures KeepsOrder(s, IsThrottled(s, now).0, [])
    ensures IsThrottled(s, now).1 <==> IsThrottled(s, now).0.active
  {
    ClearKeepsOrder(s);
  }

  lemma AppendedOrder(log: seq<Settled>, queue: seq<Waiter>, id: nat, started: bool, generation: nat)
    ensures Ids(log + [Settled(id, started)]) == Ids(log) + [id]
    ensures Waiting(queue + [Waiter(id, generation)]) == Waiting(queue) + [id]
  {
    assert (log + [Settled(id, started)])[..|log|] == log;
    assert (queue + [Waiter(id, generation)])[..|queue|] == queue;
  }

  lemma StepKeepsOrder(s: State, e: Entry)
    requires QueueLocked(s)
    ensures KeepsOrder(s, Step(s, e), if e.op.Guard? then [e.op.id] else [])
  {
    hide ClearBackoff, Ids, Waiting, IsThrottled;
    match e.op
    case RateLimited(_) =>
    case Check => CheckKeepsOrder(s, e.now);
    case Fire(k) =>
      if k < |s.timers| { ClearKeepsOrderToo(s.(timers := s.timers[..k] + s.timers[k + 1..])); }
    case Guard(id) =>
      CheckKeepsOrder(s, e.now);
      var s' := IsThrottled(s, e.now).0;
      AppendedOrder(s'.log, s'.queue, id, true, s'.generation);
      if s'.active {
        assert Ids(s'.log) + (Waiting(s'.queue) + [id]) == Ids(s'.log) + Waiting(s'.queue) + [id];
      } else {
        NobodyWaiting(s');
        assert Ids(s'.log) + [id] + [] == Ids(s'.log) + [] + [id];
      }
  }

  lemma ClearKeepsOrderToo(s: State)
    ensures KeepsOrder(s, ClearBackoff(s), [])
  {
    ClearKeepsOrder(s);
  }

  lemma NobodyWaiting(s: State)
    requires QueueLocked(s)
    ensures !s.active ==> s.queue == [] && Waiting(s.queue) == []
  {
  }

  /** In every reachable state the callbacks settled so far, followed by those waiting, are exactly the
      callbacks submitted, in the order submitted. So each is settled at most once, none is lost, and no
      later callback, queued or direct, is settled before an earlier one. */
  lemma {:induction false} SettledInOrderExactlyOnce(run: seq<Entry>, n: nat)
    requires n <= |run|
    ensures QueueLocked(At(run, n))
    ensures Submitted(run, n) == Ids(At(run, n).log) + Waiting(At(run, n).queue)
  {
    if n > 0 {
      SettledInOrderExactlyOnce(run, n - 1);
      StepKeepsOrder(At(run, n - 1), run[n - 1]);
    }
  }

  // ---------------------------------------------------------------- the verdict of each callback

  /** How many 429 responses were reported by the first `n` calls. */
  function Hits(run: seq<Entry>, n: nat): nat
    requires n <= |run|
  {
    if n == 0 then 0 else Hits(run, n - 1) + if run[n - 1].op.RateLimited? then 1 else 0
  }

  lemma {:induction false} HitsGrow(run: seq<Entry>, m: nat, n: nat)
    requires m <= n <= |run|
    ensures Hits(run, m) <= Hits(run, n)
    ensures Hits(run, m) == Hits(run, n) <==> forall k | m <= k < n :: !run[k].op.RateLimited?
  {
    if m < n {
      HitsGrow(run, m, n - 1);
      assert (forall k | m <= k < n :: !run[k].op.RateLimited?)
        <==> (forall k | m <= k < n - 1 :: !run[k].op.RateLimited?) && !run[n - 1].op.RateLimited?;
    }
  }

  /** Call `i` submitted the waiter, in the generation it carries. */
  ghost predicate QueuedBy(run: seq<Entry>, i: nat, n: nat, w: Waiter)
    requires n <= |run|
  {
    i < n && run[i].op == Guard(w.id) && Hits(run, i) == w.generation
  }

  ghost predicate Origin(run: seq<Entry>, n: nat, w: Waiter)
    requires n <= |run|
  {
    exists i: nat :: QueuedBy(run, i, n, w)
  }

  ghost predicate SortedByGeneration(queue: seq<Waiter>) {
    forall i, j | 0 <= i <= j < |queue| :: queue[i].generation <= queue[j].generation
  }

  ghost predicate QueueTells(run: seq<Entry>, n: nat, s: State)
    requires n <= |run|
  {
    && s.generation == Hits(run, n)
    && SortedByGeneration(s.queue)
    && (forall i | 0 <= i < |s.queue| :: s.queue[i].generation <= s.generation && Origin(run, n, s.queue[i]))
  }

  lemma {:induction false} QueueTellsGenerations(run: seq<Entry>, n: nat)
    requires n <= |run|
    ensures QueueTells(run, n, At(run, n))
  {
    if n > 0 {
      QueueTellsGenerations(run, n - 1);
      var s, s' := At(run, n - 1), At(run, n);
      forall i | 0 <= i < |s'.queue| ensures s'.queue[i].generation <= s'.generation && Origin(run, n, s'.queue[i]) {
        if i < |s.queue| {
          assert s'.queue[i] == s.queue[i];
          var o: nat :| QueuedBy(run, o, n - 1, s.queue[i]);
          assert QueuedBy(run, o, n, s.queue[i]);
        } else {
          assert QueuedBy(run, n - 1, n, s'.queue[i]);
        }
      }
    }
  }

  /** What was appended on the way from `log` to `log'`. */
  function Newly(log: seq<Settled>, log': seq<Settled>): seq<Settled> {
    if |log| <= |log'| then log'[|log|..] else []
  }

  lemma NewlyCleared(s: State)
    ensures Newly(s.log, ClearBackoff(s).log) == Verdicts(s.queue, s.generation)
    ensures s.log <= ClearBackoff(s).log
  {
  }

  /** One call only appends to the log: a callback it starts itself, or the waiters it drains. */
  lemma LogGrows(s: State, e: Entry)
    ensures s.log <= Step(s, e).log
    ensures var added := Newly(s.log, Step(s, e).log);
            || added == [] || added == Verdicts(s.queue, s.generation)
            || (e.op.Guard? && added == [Settled(e.op.id, true)])
            || (e.op.Guard? && added == Verdicts(s.queue, s.generation) + [Settled(e.op.id, true)])
  {
    hide Verdicts;
    NewlyCleared(s);
  }

  /** Every call of the guard passes a callback of its own. */
  ghost predicate DistinctIds(run: seq<Entry>) {
    forall i, j | 0 <= i < |run| && 0 <= j < |run| && run[i].op.Guard? && run[j].op.Guard? ::
      run[i].op.id == run[j].op.id ==> i == j
  }

  /** The callback's answer is among those appended to the log. */
  ghost predicate JustSettled(s: State, s': State, x: Settled) {
    exists k :: |s.log| <= k < |s'.log| && s'.log[k] == x
  }

  /** A callback settled by call `j` was submitted by a call `i` up to `j`, and it is started if and only if
      no 429 was reported in between; otherwise it is rejected. */
  lemma {:induction false} StartedIffNotSuperseded(run: seq<Entry>, i: nat, j: nat, x: Settled)
    requires i < |run| && j < |run| && DistinctIds(run)
    requires run[i].op == Guard(x.id)
    requires JustSettled(At(run, j), At(run, j + 1), x)
    ensures i <= j
    ensures x.started <==> forall k | i <= k < j :: !run[k].op.RateLimited?
  {
    hide Step, Verdicts;
    var s := At(run, j);
    LogGrows(s, run[j]);
    assert x in Newly(s.log, At(run, j + 1).log);
    QueueTellsGenerations(run, j);
    DrainSettlesAll(s.queue, s.generation);
    if run[j].op.Guard? && x == Settled(run[j].op.id, true) {
      HitsGrow(run, j, j);
    } else {
      var q :| 0 <= q < |s.queue| && x == Settled(s.queue[q].id, s.queue[q].generation == s.generation);
      assert Origin(run, j, s.queue[q]);
      var o: nat :| QueuedBy(run, o, j, s.queue[q]);
      HitsGrow(run, o, j);
    }
  }

  // ---------------------------------------------------------------- timing

  /** The deadline set by the 429 that call `i` reported. */
  function DueAt(run: seq<Entry>, i: nat): int
    requires i < |run| && run[i].op.RateLimited?
  {
    run[i].now + WaitSeconds(run[i].op.header) * 1000
  }

  /** The deadline set by the latest 429 among the first `n` calls. */
  function Deadline(run: seq<Entry>, n: nat): Option<int>
    requires n <= |run|
  {
    if n == 0 then None
    else
      match run[n - 1].op
      case RateLimited(_) => Some(DueAt(run, n - 1))
      case _ => Deadline(run, n - 1)
  }

  /** A 429 locks for as many seconds as it asks for, and for half a minute if it does not say or says nonsense. */
  lemma WaitsAsAsked(run: seq<Entry>, i: nat)
    requires i < |run| && run[i].op.RateLimited?
    ensures var header, s := run[i].op.header, At(run, i + 1);
            && (header.Some? && header.value > 0 ==>
                  DueAt(run, i) == run[i].now + header.value * 1_000 && s.retryAfterSeconds == header.value)
            && (header.None? || header.value <= 0 ==>
                  DueAt(run, i) == run[i].now + 30_000 && s.retryAfterSeconds == 30)
            && s.active && s.until == DueAt(run, i) && s.log == At(run, i).log && s.queue == At(run, i).queue
  {
  }

  /** An open lock reports no wait and no deadline; an active one those of the latest 429. */
  lemma {:induction false} StatusFollowsLatest(run: seq<Entry>, n: nat)
    requires n <= |run|
    ensures var s := At(run, n);
            && (!s.active ==> s.until == 0 && s.retryAfterSeconds == 0)
            && (s.active ==> exists i: nat :: LatestHit(run, i, n) && s.until == DueAt(run, i)
                                         && s.retryAfterSeconds * 1_000 == DueAt(run, i) - run[i].now)
  {
    if n > 0 {
      StatusFollowsLatest(run, n - 1);
      var s, s' := At(run, n - 1), At(run, n);
      if run[n - 1].op.RateLimited? {
        assert LatestHit(run, n - 1, n);
      } else if s'.active {
        StaysLocked(s, run[n - 1]);
        var i: nat :| LatestHit(run, i, n - 1) && s.until == DueAt(run, i)
                      && s.retryAfterSeconds * 1_000 == DueAt(run, i) - run[i].now;
        assert LatestHit(run, i, n);
      }
    }
  }

  lemma StaysLocked(s: State, e: Entry)
    requires Step(s, e).active && !e.op.RateLimited?
    ensures s.active && s.until == Step(s, e).until && s.retryAfterSeconds == Step(s, e).retryAfterSeconds
  {
  }

  /** The lock is held until the latest deadline and has its timer; once open, that deadline has passed. */
  ghost predicate Timed(s: State, deadline: Option<int>, clock: int) {
    && (s.active ==> deadline == Some(s.until) && Timer(s.generation, s.until) in s.timers)
    && (!s.active ==> deadline.None? || deadline.value <= clock)
    && (forall t <- s.timers :: t.generation <= s.generation)
    && (forall t <- s.timers :: t.generation == s.generation ==> deadline == Some(t.due))
  }

  lemma StepKeepsTimed(s: State, e: Entry, deadline: Option<int>, clock: int)
    requires Timed(s, deadline, clock) && clock <= e.now && Enabled(s, e)
    ensures Timed(Step(s, e),
                  match e.op { case RateLimited(h) => Some(e.now + WaitSeconds(h) * 1000) case _ => deadline }, e.now)
  {
    if e.op.Fire? {
      var k := e.op.k;
      assert forall t | t in s.timers[..k] + s.timers[k + 1..] :: t in s.timers;
      assert forall t | t in s.timers && t != s.timers[k] :: t in s.timers[..k] + s.timers[k + 1..];
    }
  }

  /** In every reachable state an active lock has a pending timer of the current generation, due exactly at
      `until`, which is the deadline of the latest 429; and an open lock means that deadline has passed. */
  lemma {:induction false} LockFollowsLatestDeadline(run: seq<Entry>, n: nat)
    requires Legal(run) && n <= |run|
    ensures Timed(At(run, n), Deadline(run, n), ClockAt(run, n))
  {
    if n > 0 {
      LockFollowsLatestDeadline(run, n - 1);
      assert EnabledAt(run, n - 1);
      StepKeepsTimed(At(run, n - 1), run[n - 1], Deadline(run, n - 1), ClockAt(run, n - 1));
    }
  }

  /** In every reachable state, and at every moment from then on, traffic is held back exactly until the
      deadline of the latest 429. */
  lemma ThrottledExactly(run: seq<Entry>, n: nat, t: int)
    requires Legal(run) && n <= |run| && t >= ClockAt(run, n)
    ensures IsThrottled(At(run, n), t).1 <==> Deadline(run, n).Some? && t < Deadline(run, n).value
  {
    LockFollowsLatestDeadline(run, n);
  }

  /** Call `j` reported the last 429 among the first `n` calls. */
  ghost predicate LatestHit(run: seq<Entry>, j: nat, n: nat)
    requires n <= |run|
  {
    && j < n && run[j].op.RateLimited?
    && forall k | j < k < n :: !run[k].op.RateLimited?
  }

  lemma {:induction false} DeadlineIsOfLatestHit(run: seq<Entry>, i: nat, n: nat) returns (j: nat)
    requires i < n <= |run| && run[i].op.RateLimited?
    ensures i <= j && LatestHit(run, j, n) && Deadline(run, n) == Some(DueAt(run, j))
  {
    if run[n - 1].op.RateLimited? {
      j := n - 1;
    } else {
      j := DeadlineIsOfLatestHit(run, i, n - 1);
    }
  }

  /** Before the deadline of an earlier 429 the lock is open if and only if a later 429 replaced that deadline:
      the latest of them is already due. */
  lemma OpensEarlyExactly(run: seq<Entry>, i: nat, n: nat, t: int)
    requires Legal(run) && i < n <= |run| && run[i].op.RateLimited?
    requires ClockAt(run, n) <= t < DueAt(run, i)
    ensures !IsThrottled(At(run, n), t).1
       <==> exists j: nat :: i < j && LatestHit(run, j, n) && DueAt(run, j) <= t
  {
    ThrottledExactly(run, n, t);
    var j := DeadlineIsOfLatestHit(run, i, n);
    if DueAt(run, j) <= t {
      assert i < j && LatestHit(run, j, n);
    }
  }

  /** Nothing is settled, and so nothing starts, before the deadline of the latest 429. */
  lemma NothingStartsWhileLocked(run: seq<Entry>, j: nat)
    requires Legal(run) && j < |run|
    requires At(run, j + 1).log != At(run, j).log
    ensures Deadline(run, j).None? || run[j].now >= Deadline(run, j).value
    ensures !At(run, j + 1).active
  {
    LockFollowsLatestDeadline(run, j);
    SettledInOrderExactlyOnce(run, j);
    assert EnabledAt(run, j);
    SettlingIsOnTime(At(run, j), run[j], Deadline(run, j), ClockAt(run, j));
  }

  lemma SettlingIsOnTime(s: State, e: Entry, deadline: Option<int>, clock: int)
    requires Timed(s, deadline, clock) && clock <= e.now && Enabled(s, e) && QueueLocked(s)
    requires Step(s, e).log != s.log
    ensures deadline.None? || e.now >= deadline.value
    ensures !Step(s, e).active
  {
    if !s.active { NothingToDrain(s); }
  }

  lemma NothingToDrain(s: State)
    requires QueueLocked(s) && !s.active
    ensures ClearBackoff(s).log == s.log
  {
  }

  /** The state without its pending timer number `k`. */
  function TimerGone(s: State, k: nat): State
    requires k < |s.timers|
  {
    s.(timers := s.timers[..k] + s.timers[k + 1..])
  }

  /** A timer of an earlier generation changes nothing but itself. */
  lemma StaleTimersDoNothing(s: State, now: int, k: nat)
    requires k < |s.timers| && s.timers[k].generation != s.generation
    ensures Step(s, Entry(now, Fire(k))) == TimerGone(s, k)
  {
  }

  lemma CurrentTimerClears(s: State, now: int, k: nat)
    requires k < |s.timers| && s.timers[k].generation == s.generation
    ensures Step(s, Entry(now, Fire(k))) == ClearBackoff(TimerGone(s, k))
    ensures !Step(s, Entry(now, Fire(k))).active && Step(s, Entry(now, Fire(k))).queue == []
  {
  }

  /** One of the pending timers fires. */
  ghost predicate TimerFires(s: State, e: Entry) {
    e.op.Fire? && e.op.k < |s.timers|
  }

  /** The 429 reported by call `i` scheduled the timer. */
  ghost predicate ScheduledBy(run: seq<Entry>, i: nat, n: nat, t: Timer)
    requires n <= |run|
  {
    i < n && run[i].op.RateLimited? && t == Timer(Hits(run, i + 1), DueAt(run, i))
  }

  lemma TimersOfStep(s: State, e: Entry, t: Timer)
    requires t in Step(s, e).timers && t !in s.timers
    ensures e.op.RateLimited? && t == Timer(s.generation + 1, e.now + WaitSeconds(e.op.header) * 1000)
  {
  }

  lemma {:induction false} TimerOrigin(run: seq<Entry>, n: nat, t: Timer) returns (i: nat)
    requires n <= |run| && t in At(run, n).timers
    ensures ScheduledBy(run, i, n, t)
  {
    hide Step;
    if t in At(run, n - 1).timers {
      i := TimerOrigin(run, n - 1, t);
    } else {
      i := n - 1;
      QueueTellsGenerations(run, i);
      TimersOfStep(At(run, i), run[i], t);
    }
  }

  /** How many pending timers fired in the first `n` calls. */
  function Fired(run: seq<Entry>, n: nat): nat
    requires n <= |run|
  {
    if n == 0 then 0
    else
      var s, e := At(run, n - 1), run[n - 1];
      Fired(run, n - 1) + if e.op.Fire? && e.op.k < |s.timers| then 1 else 0
  }

  /** Each 429 schedules one timer, which stays until it fires, stale or not. */
  lemma {:induction false} TimersAddUp(run: seq<Entry>, n: nat)
    requires n <= |run|
    ensures |At(run, n).timers| + Fired(run, n) == Hits(run, n)
  {
    hide Step;
    if n > 0 {
      TimersAddUp(run, n - 1);
      StepTimers(At(run, n - 1), run[n - 1]);
    }
  }

  lemma StepTimers(s: State, e: Entry)
    ensures |Step(s, e).timers|
         == |s.timers| + (if e.op.RateLimited? then 1 else 0) - if e.op.Fire? && e.op.k < |s.timers| then 1 else 0
  {
    hide Verdicts;
  }

  /** A timer that fires was scheduled by some 429. If a newer one was reported since, the timer changes
      nothing but itself; otherwise it opens the lock and settles everyone who waits. */
  lemma {:induction false} TimerActsExactly(run: seq<Entry>, j: nat) returns (i: nat)
    requires j < |run| && TimerFires(At(run, j), run[j])
    ensures ScheduledBy(run, i, j, At(run, j).timers[run[j].op.k])
    ensures var rest := TimerGone(At(run, j), run[j].op.k);
            At(run, j + 1)
            == if exists m | i < m < j :: run[m].op.RateLimited? then rest else ClearBackoff(rest)
  {
    hide Step, ClearBackoff, TimerGone;
    var s, k := At(run, j), run[j].op.k;
    i := TimerOrigin(run, j, s.timers[k]);
    QueueTellsGenerations(run, j);
    HitsGrow(run, i + 1, j);
    if s.timers[k].generation == s.generation {
      CurrentTimerClears(s, run[j].now, k);
    } else {
      StaleTimersDoNothing(s, run[j].now, k);
    }
  }

  /** When a timer fires, either a newer 429 has been reported since the one that scheduled it, or the lock is now
      open and everyone who waited is settled. */
  lemma {:induction false} TimerLiftsTheLock(run: seq<Entry>, j: nat) returns (i: nat)
    requires j < |run| && TimerFires(At(run, j), run[j])
    ensures ScheduledBy(run, i, j, At(run, j).timers[run[j].op.k])
    ensures || (exists m | i < m < j :: run[m].op.RateLimited?)
            || (!At(run, j + 1).active && At(run, j + 1).queue == []
                && Submitted(run, j + 1) == Ids(At(run, j + 1).log))
  {
    hide Step, Ids, Submitted, TimerGone;
    i := TimerActsExactly(run, j);
    SettledInOrderExactlyOnce(run, j + 1);
    assert Ids(At(run, j + 1).log) + [] == Ids(At(run, j + 1).log);
  }

  /** An input for `OpensEarlyExactly`: a newer, shorter Retry-After opens the lock before the first deadline. */
  lemma {:induction false} NewerLimitMayShortenTheWait() returns (run: seq<Entry>)
    ensures Legal(run) && |run| == 3
    ensures Deadline(run, 1) == Some(60_000) && run[2].now == 2_000 && !At(run, 3).active
  {
    run := [Entry(0, RateLimited(Some(60))), Entry(1_000, RateLimited(Some(1))), Entry(2_000, Check)];
    assert At(run, 0) == IDLE;
    assert At(run, 1) == Step(At(run, 0), run[0]);
    assert At(run, 2) == Step(At(run, 1), run[1]);
    assert At(run, 3) == Step(At(run, 2), run[2]);
    assert Deadline(run, 0) == None;
  }
}
