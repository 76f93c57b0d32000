/** The agent's task scheduler: bounded concurrency, a bounded FIFO for the excess, and draining. */
module Scheduler {

  /** MAX_CONCURRENT_TASKS and QUEUE_CAPACITY. */
  datatype Limits = Limits(maxConcurrent: nat, queueCapacity: nat)

  /** `activeTasks`, `taskQueue` and `isDraining`; then, for the record, the tasks accepted and started
      so far in order, those now running, and those that got their result. */
  datatype State = State(activeTasks: int, taskQueue: seq<nat>, isDraining: bool,
                         accepted: seq<nat>, started: seq<nat>, running: multiset<nat>, results: seq<nat>)

  const FRESH := State(0, [], false, [], [], multiset{}, [])

  datatype Reply = Runs | Queued | Rejected

  datatype Op = Submit(task: nat) | Complete(task: nat) | Drain

  /** Reserves a slot and starts the task. */
  function Start(s: State, task: nat): State {
    s.(activeTasks := s.activeTasks + 1, started := s.started + [task], running := s.running + multiset{task})
  }

  function SubmitTo(c: Limits, s: State, task: nat): (State, Reply) {
    if s.isDraining then (s, Rejected)
    else if s.activeTasks >= c.maxConcurrent then
      if c.queueCapacity > 0 && |s.taskQueue| < c.queueCapacity
      then (s.(taskQueue := s.taskQueue + [task], accepted := s.accepted + [task]), Queued)
      else (s, Rejected)
    else (Start(s.(accepted := s.accepted + [task]), task), Runs)
  }

  function Dispatch(c: Limits, s: State): State {
    if s.taskQueue == [] || s.activeTasks >= c.maxConcurrent then s
    else Start(s.(taskQueue := s.taskQueue[1..]), s.taskQueue[0])
  }

  /** The task gets its result and gives its slot back. */
  function Finish(s: State, task: nat): State {
    s.(activeTasks := s.activeTasks - 1, running := s.running - multiset{task}, results := s.results + [task])
  }

  function Step(c: Limits, s: State, op: Op): State {
    match op
    case Submit(task) => SubmitTo(c, s, task).0
    case Complete(task) => Dispatch(c, Finish(s, task))
    case Drain => s.(isDraining := true)
  }

  class PayFiAgent {
    const limits: Limits
    var activeTasks: int
    var isDraining: bool
    var taskQueue: seq<nat>
    ghost var accepted: seq<nat>
    ghost var started: seq<nat>
    ghost var running: multiset<nat>
    ghost var results: seq<nat>

    ghost function Now(): State
      reads this
    {
      State(activeTasks, taskQueue, isDraining, accepted, started, running, results)
    }

    constructor (limits: Limits)
      ensures this.limits == limits && Now() == FRESH
    {
      this.limits, activeTasks, isDraining, taskQueue := limits, 0, false, [];
      accepted, started, running, results := [], [], multiset{}, [];
    }

    /** The call that hands a task to the agent. */
    method Run(task: nat) returns (r: Reply)
      modifies this
      ensures (Now(), r) == SubmitTo(limits, old(Now()), task)
    {
      if isDraining {
        return Rejected;
      }
      if activeTasks >= limits.maxConcurrent {
        if limits.queueCapacity > 0 && |taskQueue| < limits.queueCapacity {
          taskQueue := taskQueue + [task];
          accepted := accepted + [task];
          return Queued;
        }
        return Rejected;
      }
      accepted := accepted + [task];
      ExecuteTask(task);
      return Runs;
    }

    /** The synchronous beginning of a task's execution. */
    method ExecuteTask(task: nat)
      modifies this
      ensures Now() == Start(old(Now()), task)
    {
      activeTasks := activeTasks + 1;
      started := started + [task];
      running := running + multiset{task};
    }

    method DispatchQueued()
      modifies this
      ensures Now() == Dispatch(limits, old(Now()))
    {
      if |taskQueue| == 0 { return; }
      if activeTasks >= limits.maxConcurrent { return; }
      var next := taskQueue[0];
      taskQueue := taskQueue[1..];
      ExecuteTask(next);
    }

    /** The end of a task's execution: its result, then the `finally` block. */
    method TaskSettles(task: nat)
      modifies this
      ensures Now() == Step(limits, old(Now()), Complete(task))
    {
      results := results + [task];
      running := running - multiset{task};
      activeTasks := activeTasks - 1;
      assert Now() == Finish(old(Now()), task);
      DispatchQueued();
    }

    method StartDraining()
      modifies this
      ensures Now() == Step(limits, old(Now()), Drain)
      ensures isDraining && Now() == old(Now()).(isDraining := true)
    {
      isDraining := true;
    }

    /** The condition `waitForPendingTasks` polls. */
    method NothingPending() returns (done: bool)
      requires Consistent(limits, Now())
      ensures done <==> |results| == |accepted|
      ensures done ==> multiset(results) == multiset(accepted)
    {
      CountsAddUp(limits, Now());
      if |taskQueue| == 0 { assert started == accepted; }
      return activeTasks == 0 && |taskQueue| == 0;
    }
  }

  // ---------------------------------------------------------------- every reachable state

  ghost predicate Consistent(c: Limits, s: State) {
    && s.activeTasks == |s.running| <= c.maxConcurrent
    && |s.taskQueue| <= c.queueCapacity
    && (s.taskQueue != [] ==> s.activeTasks == c.maxConcurrent)
    && s.started + s.taskQueue == s.accepted
    && multiset(s.started) == s.running + multiset(s.results)
  }

  lemma CountsAddUp(c: Limits, s: State)
    requires Consistent(c, s)
    ensures |s.accepted| == s.activeTasks + |s.taskQueue| + |s.results|
    ensures s.running == multiset{} <==> s.activeTasks == 0
  {
    assert |multiset(s.started)| == |s.running| + |multiset(s.results)|;
  }

  /** Only a running task can get its result. */
  ghost predicate Enabled(s: State, op: Op) {
    op.Complete? ==> op.task in s.running
  }

  /** Consistent, except that one slot may be free although tasks wait. */
  ghost predicate AlmostConsistent(c: Limits, s: State) {
    && s.activeTasks == |s.running| <= c.maxConcurrent
    && |s.taskQueue| <= c.queueCapacity
    && (s.taskQueue != [] ==> s.activeTasks >= c.maxConcurrent - 1)
    && s.started + s.taskQueue == s.accepted
    && multiset(s.started) == s.running + multiset(s.results)
  }

  lemma DispatchConsistent(c: Limits, s: State)
    requires AlmostConsistent(c, s)
    ensures Consistent(c, Dispatch(c, s))
  {
    if s.taskQueue != [] && s.activeTasks < c.maxConcurrent {
      var task, rest := s.taskQueue[0], s.taskQueue[1..];
      assert s.taskQueue == [task] + rest;
      assert s.started + s.taskQueue == s.started + [task] + rest;
      assert multiset(s.started + [task]) == multiset(s.started) + multiset{task};
    }
  }

  lemma FinishConsistent(c: Limits, s: State, task: nat)
    requires Consistent(c, s) && task in s.running
    ensures AlmostConsistent(c, Finish(s, task))
  {
    assert multiset(s.results + [task]) == multiset(s.results) + multiset{task};
  }

  lemma SubmitConsistent(c: Limits, s: State, task: nat)
    requires Consistent(c, s)
    ensures Consistent(c, SubmitTo(c, s, task).0)
  {
    assert s.started + (s.taskQueue + [task]) == s.accepted + [task];
    assert multiset(s.started + [task]) == multiset(s.started) + multiset{task};
    if s.taskQueue == [] { assert s.started == s.accepted; }
  }

  lemma StepConsistent(c: Limits, s: State, op: Op)
    requires Consistent(c, s) && Enabled(s, op)
    ensures Consistent(c, Step(c, s, op))
  {
    hide SubmitTo, Dispatch, Finish;
    match op
    case Submit(task) => SubmitConsistent(c, s, task);
    case Complete(task) => FinishConsistent(c, s, task); DispatchConsistent(c, Finish(s, task));
    case Drain =>
  }

  function At(c: Limits, run: seq<Op>, n: nat): State
    requires n <= |run|
  {
    if n == 0 then FRESH else Step(c, At(c, run, n - 1), run[n - 1])
  }

  ghost predicate EnabledAt(c: Limits, run: seq<Op>, k: nat)
    requires k < |run|
  {
    Enabled(At(c, run, k), run[k])
  }

  ghost predicate Legal(c: Limits, run: seq<Op>) {
    forall k | 0 <= k < |run| :: EnabledAt(c, run, k)
  }

  /** In every reachable state the bounds hold, a waiting task means every slot is taken, the tasks started
      followed by those waiting are the tasks accepted in order (no overtaking), and every started task is
      running or has exactly one result. */
  lemma {:induction false} AlwaysConsistent(c: Limits, run: seq<Op>, n: nat)
    requires Legal(c, run) && n <= |run|
    ensures Consistent(c, At(c, run, n))
  {
    if n > 0 {
      AlwaysConsistent(c, run, n - 1);
      assert EnabledAt(c, run, n - 1);
      StepConsistent(c, At(c, run, n - 1), run[n - 1]);
    }
  }

  /** A task is started at once, and a free slot taken for it, exactly when the agent is not draining and has a free
      slot; it is queued, last in line, exactly when it is not draining, has no free slot and has a free place; a
      task that is turned away changes nothing. */
  lemma {:induction false} SubmitExactly(c: Limits, run: seq<Op>, n: nat, task: nat)
    requires Legal(c, run) && n <= |run|
    ensures var s := At(c, run, n);
            var (s', reply) := SubmitTo(c, s, task);
            && (reply == Runs <==> !s.isDraining && s.activeTasks < c.maxConcurrent)
            && (reply == Queued <==>
                  !s.isDraining && s.activeTasks == c.maxConcurrent && |s.taskQueue| < c.queueCapacity)
            && (reply == Runs ==>
                  && s'.started == s.started + [task] && s'.running == s.running + multiset{task}
                  && s'.taskQueue == s.taskQueue == [])
            && (reply == Queued ==>
                  s'.taskQueue == s.taskQueue + [task] && s'.started == s.started && s'.running == s.running)
            && (reply == Rejected <==> s' == s)
            && (reply != Rejected ==> s'.accepted == s.accepted + [task] && s'.results == s.results)
  {
    AlwaysConsistent(c, run, n);
  }

  /** A completion gives the task its result and starts the task that has waited longest, if one waits. */
  lemma {:induction false} CompleteExactly(c: Limits, run: seq<Op>, n: nat, task: nat)
    requires Legal(c, run) && n <= |run| && task in At(c, run, n).running
    ensures var s := At(c, run, n);
            var s' := Step(c, s, Complete(task));
            && s'.results == s.results + [task]
            && (if s.taskQueue == []
                then s'.started == s.started && s'.running == s.running - multiset{task} && s'.taskQueue == []
                else && s'.started == s.started + [s.taskQueue[0]]
                     && s'.running == s.running - multiset{task} + multiset{s.taskQueue[0]}
                     && s'.taskQueue == s.taskQueue[1..])
            && s'.isDraining == s.isDraining
  {
    AlwaysConsistent(c, run, n);
  }

  /** A task is turned away exactly when the agent is draining, or all slots and all queue places are taken. */
  lemma RejectedExactly(c: Limits, run: seq<Op>, n: nat, task: nat)
    requires Legal(c, run) && n <= |run|
    ensures var s := At(c, run, n);
            SubmitTo(c, s, task).1 == Rejected <==>
              s.isDraining || (s.activeTasks == c.maxConcurrent && |s.taskQueue| == c.queueCapacity)
  {
    AlwaysConsistent(c, run, n);
  }

  // ---------------------------------------------------------------- draining

  function Pending(s: State): int {
    s.activeTasks + |s.taskQueue|
  }

  function Completions(run: seq<Op>, m: nat, n: nat): nat
    requires m <= n <= |run|
  {
    if m == n then 0 else Completions(run, m, n - 1) + if run[n - 1].Complete? then 1 else 0
  }

  /** Draining changes nothing else, and once it was asked for, every task is turned away for good. */
  lemma {:induction false} DrainTakesEffect(c: Limits, run: seq<Op>, k: nat, n: nat, task: nat)
    requires k < n <= |run| && run[k].Drain?
    ensures At(c, run, k + 1) == At(c, run, k).(isDraining := true)
    ensures At(c, run, n).isDraining
    ensures SubmitTo(c, At(c, run, n), task) == (At(c, run, n), Rejected)
  {
    hide SubmitTo, Dispatch, Finish;
    if n > k + 1 {
      DrainTakesEffect(c, run, k, n - 1, task);
      DrainingStep(c, At(c, run, n - 1), run[n - 1]);
    }
    DrainingRejects(c, At(c, run, n), task);
  }

  lemma DrainingRejects(c: Limits, s: State, task: nat)
    requires s.isDraining
    ensures SubmitTo(c, s, task) == (s, Rejected)
  {
  }

  /** From the moment the agent drains, the pending count falls by one at each completion and by nothing
      else, and no further task is accepted. */
  lemma {:induction false} DrainingCountsDown(c: Limits, run: seq<Op>, m: nat, n: nat)
    requires Legal(c, run) && m <= n <= |run|
    requires At(c, run, m).isDraining
    ensures At(c, run, n).isDraining
    ensures At(c, run, n).accepted == At(c, run, m).accepted
    ensures Pending(At(c, run, n)) == Pending(At(c, run, m)) - Completions(run, m, n)
  {
    hide Step, Pending, Legal;
    if m < n {
      DrainingCountsDown(c, run, m, n - 1);
      DrainingStep(c, At(c, run, n - 1), run[n - 1]);
    }
  }

  lemma DrainingStep(c: Limits, s: State, op: Op)
    requires s.isDraining
    ensures Step(c, s, op).isDraining && Step(c, s, op).accepted == s.accepted
    ensures Pending(Step(c, s, op)) == Pending(s) - if op.Complete? then 1 else 0
  {
  }

  /** While anything is pending, some task is running, so a completion is possible: draining cannot get stuck. */
  lemma PendingMeansRunning(c: Limits, run: seq<Op>, n: nat)
    requires Legal(c, run) && n <= |run| && c.maxConcurrent >= 1
    requires Pending(At(c, run, n)) > 0
    ensures exists task :: task in At(c, run, n).running && Enabled(At(c, run, n), Complete(task))
  {
    AlwaysConsistent(c, run, n);
    var s := At(c, run, n);
    CountsAddUp(c, s);
    var task :| task in s.running;
    assert Enabled(s, Complete(task));
  }

  /** After draining starts, the wait is over exactly when as many tasks completed as were pending then,
      which is exactly when every accepted task has its result. */
  lemma {:induction false} WaitEndsWhenAllSettled(c: Limits, run: seq<Op>, m: nat, n: nat)
    requires Legal(c, run) && m <= n <= |run|
    requires At(c, run, m).isDraining
    ensures var s := At(c, run, n);
            && (s.activeTasks == 0 && s.taskQueue == [] <==> Completions(run, m, n) == Pending(At(c, run, m)))
            && (s.activeTasks == 0 && s.taskQueue == [] <==> multiset(s.results) == multiset(s.accepted))
  {
    var s := At(c, run, n);
    AlwaysConsistent(c, run, n);
    DrainingCountsDown(c, run, m, n);
    CountsAddUp(c, s);
    if multiset(s.results) == multiset(s.accepted) {
      assert |multiset(s.results)| == |multiset(s.accepted)|;
    }
    if s.taskQueue == [] { assert s.started == s.accepted; }
  }
}
