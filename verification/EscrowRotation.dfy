/** The arbiter time-lock over whole runs. */
module EscrowRotation {
  import opened Outcome
  import opened TokenLedger
  import opened Escrow
  import opened EscrowRuns

  ghost predicate Proposes(w0: World, run: seq<Entry>, k: nat)
    requires k < |run|
  {
    run[k].call.Propose? && Carried(w0, run, k)
  }

  ghost predicate Accepts(w0: World, run: seq<Entry>, k: nat)
    requires k < |run|
  {
    run[k].call.Accept? && Carried(w0, run, k)
  }

  /** Call `j` is the depositor's proposal of `a`, and neither a later proposal nor an acceptance
      came between it and call `n`. */
  ghost predicate LatestProposal(w0: World, run: seq<Entry>, j: nat, n: nat, a: Address)
    requires n <= |run|
  {
    && j < n
    && Proposes(w0, run, j)
    && run[j].call.newArbiter == a
    && At(w0, run, j).store.depositor == Some(run[j].call.depositor)
    && run[j].call.depositor in run[j].env.auths
    && (forall k | j < k < n :: !Proposes(w0, run, k) && !Accepts(w0, run, k))
  }

  /** What one call does to the pending proposal and to the arbiter. */
  lemma StepPending(w: World, env: Env, call: Call)
    requires SoundStore(w.store)
    ensures var s, s' := w.store, Step(w, env, call).store;
            && (call.Propose? && Try(w, env, call).Success? ==>
                  s'.pendingArbiter == Some(call.newArbiter) && s'.pendingArbiterTime == Some(env.now)
                  && s.depositor == Some(call.depositor) && call.depositor in env.auths)
            && (call.Accept? && Try(w, env, call).Success? ==>
                  s'.pendingArbiter == None && s'.arbiter == s.pendingArbiter && s.pendingArbiterTime.Some?
                  && env.now >= s.pendingArbiterTime.value + MIN_ROTATION_DELAY)
            && (!((call.Propose? || call.Accept?) && Try(w, env, call).Success?) ==>
                  s'.pendingArbiter == s.pendingArbiter && s'.pendingArbiterTime == s.pendingArbiterTime)
            && (s.Initialized() ==> s'.Initialized() && s'.initializedAt == s.initializedAt)
            && (!s.Initialized() && s'.Initialized() ==> s'.initializedAt == Some(env.now))
            && (s.Initialized() && s'.arbiter != s.arbiter ==> call.Accept? && Try(w, env, call).Success?)
  {
  }

  lemma {:induction false} PendingIsLatestProposal(w0: World, run: seq<Entry>, n: nat) returns (j: nat)
    requires Genesis(w0) && ValidRun(run) && n <= |run|
    requires At(w0, run, n).store.pendingArbiter.Some?
    ensures LatestProposal(w0, run, j, n, At(w0, run, n).store.pendingArbiter.value)
    ensures At(w0, run, n).store.pendingArbiterTime == Some(run[j].env.now)
  {
    RunSound(w0, run, n - 1);
    StepPending(At(w0, run, n - 1), run[n - 1].env, run[n - 1].call);
    if Proposes(w0, run, n - 1) {
      j := n - 1;
    } else {
      j := PendingIsLatestProposal(w0, run, n - 1);
    }
  }

  /** Every acceptance, and so every change of the arbiter, installs the address of the latest proposal,
      which the depositor made at least the minimum delay earlier and which no acceptance used before. */
  lemma ArbiterChangesAreTimeLocked(w0: World, run: seq<Entry>, n: nat)
    requires Genesis(w0) && ValidRun(run) && n < |run|
    requires || Accepts(w0, run, n)
             || (At(w0, run, n).store.Initialized() && At(w0, run, n + 1).store.arbiter != At(w0, run, n).store.arbiter)
    ensures Accepts(w0, run, n)
    ensures At(w0, run, n + 1).store.arbiter.Some?
    ensures exists j: nat :: LatestProposal(w0, run, j, n, At(w0, run, n + 1).store.arbiter.value)
                        && run[n].env.now >= run[j].env.now + 86_400
  {
    RunSound(w0, run, n);
    StepPending(At(w0, run, n), run[n].env, run[n].call);
    var j := PendingIsLatestProposal(w0, run, n);
  }

  ghost function Rotations(w0: World, run: seq<Entry>, n: nat): nat
    requires n <= |run|
  {
    if n == 0 then 0 else Rotations(w0, run, n - 1) + if Accepts(w0, run, n - 1) then 1 else 0
  }

  lemma {:induction false} RotationsFitBefore(w0: World, run: seq<Entry>, n: nat)
    requires Genesis(w0) && ValidRun(run) && 0 < n <= |run|
    ensures var s := At(w0, run, n).store;
            && s.Whole()
            && (!s.Initialized() ==> Rotations(w0, run, n) == 0)
            && (s.pendingArbiter.Some? ==> s.pendingArbiterTime.value <= run[n - 1].env.now)
            && (s.Initialized() ==>
                  Rotations(w0, run, n) * MIN_ROTATION_DELAY
                  <= (if s.pendingArbiter.Some? then s.pendingArbiterTime.value else run[n - 1].env.now)
                     - s.initializedAt.value)
  {
    RunSound(w0, run, n);
    RunSound(w0, run, n - 1);
    StepPending(At(w0, run, n - 1), run[n - 1].env, run[n - 1].call);
    if n == 1 {
      assert At(w0, run, 0) == w0;
      assert Rotations(w0, run, 0) == 0;
    } else {
      RotationsFitBefore(w0, run, n - 1);
    }
  }

  /** However the depositor proposes and re-proposes, rotations are a day apart: their number times the
      delay never exceeds the age of the escrow. */
  lemma RotationsAreADayApart(w0: World, run: seq<Entry>, n: nat)
    requires Genesis(w0) && ValidRun(run) && 0 < n <= |run|
    requires At(w0, run, n).store.Initialized() && At(w0, run, n).store.Whole()
    ensures Rotations(w0, run, n) * 86_400
         <= run[n - 1].env.now - At(w0, run, n).store.initializedAt.value
  {
    RotationsFitBefore(w0, run, n);
  }

  /** A pending proposal can be accepted, by anyone, exactly from the end of its delay on, unless that
      deadline does not fit the clock. Then the proposed arbiter is stored, the proposal is used up, and nothing
      else changes but one more event. */
  lemma {:induction false} AcceptExactly(w0: World, run: seq<Entry>, n: nat, env: Env)
    requires Genesis(w0) && ValidRun(run) && n <= |run|
    ensures var w := At(w0, run, n);
            var s, a := w.store, Try(w, env, Accept);
            && (s.pendingArbiter.None? ==> a == Failure(NoPendingRotation))
            && (s.pendingArbiter.Some? ==>
                  exists j: nat :: LatestProposal(w0, run, j, n, s.pendingArbiter.value)
                              && (a == Failure(DeadlineOverflow) <==> run[j].env.now + 86_400 > U64_MAX)
                              && (a == Failure(RotationLocked) <==>
                                    env.now < run[j].env.now + 86_400 <= U64_MAX)
                              && (a.Success? <==> run[j].env.now + 86_400 <= env.now))
            && (a.Success? ==>
                  && a.value.store == s.(arbiter := s.pendingArbiter, pendingArbiter := None,
                                          pendingArbiterTime := None)
                  && a.value.ledger == w.ledger
                  && a.value.events == w.events + [RotationAccepted(s.pendingArbiter.value, env.now)])
  {
    RunSound(w0, run, n);
    if At(w0, run, n).store.pendingArbiter.Some? {
      var j := PendingIsLatestProposal(w0, run, n);
    }
  }

  /** An input for the overflow of `AcceptExactly`: a proposal in the last day of the clock can never be accepted. */
  lemma DeadlineCanOverflow() returns (w0: World, run: seq<Entry>)
    ensures Genesis(w0) && ValidRun(run) && |run| == 2
    ensures At(w0, run, 2).store.pendingArbiter.Some?
    ensures forall env: Env :: Try(At(w0, run, 2), env, Accept) == Failure(DeadlineOverflow)
  {
    var late: U64 := U64_MAX - 10;
    w0 := World(EMPTY, map[(9, 1) := 100], []);
    run := [Entry(Env(late, {1}), Call.Initialize(1, 2, 3, 9, 50, U64_MAX)), Entry(Env(late, {1}), Propose(1, 4))];
    assert At(w0, run, 0) == w0;
    var w1 := At(w0, run, 1);
    assert w1 == Step(w0, run[0].env, run[0].call);
    assert At(w0, run, 2) == Step(w1, run[1].env, run[1].call);
  }
}
