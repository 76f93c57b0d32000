/** Which error a refused call reports: in every reachable state, each error if and only if its own condition holds
    and none of those checked before it does. */
module EscrowRefusals {
  import opened Outcome
  import opened TokenLedger
  import opened Escrow
  import opened EscrowRuns
  import opened EscrowEntryPoints

  /** A refused call leaves storage, balances and events as they were, and its error reaches the caller. */
  lemma RefusedCallsChangeNothing(w: World, env: Env, call: Call)
    ensures ReplyTo(Try(w, env, call)) == Done <==> Try(w, env, call).Success?
    ensures forall e :: ReplyTo(Try(w, env, call)) == Panicked(e) <==> Try(w, env, call) == Failure(e)
    ensures ReplyTo(Try(w, env, call)) != Done ==> Step(w, env, call) == w
    ensures ReplyTo(Try(w, env, call)) == Done ==> Try(w, env, call) == Success(Step(w, env, call))
  {
  }

  lemma InitializeRefusals(w0: World, run: seq<Entry>, n: nat, env: Env, d: Address, r: Address, a: Address,
                           token: Address, amount: I128, expiry: U64)
    requires Reachable(w0, run, n) && ESCROW !in env.auths
    ensures var w := At(w0, run, n);
            var used, res := w.store.Initialized(), Try(w, env, Call.Initialize(d, r, a, token, amount, expiry));
            var distinct := d != a && d != r && a != r;
            var sensible := 0 < amount <= I128_MAX / 2;
            && (res == Failure(AlreadyInitialized) <==> used)
            && (res == Failure(Unauthorized) <==> !used && d !in env.auths)
            && (res == Failure(InvalidParties) <==> !used && d in env.auths && !distinct)
            && (res == Failure(InvalidAmount) <==> !used && d in env.auths && distinct && !sensible)
            && (res == Failure(InvalidExpiry) <==>
                  !used && d in env.auths && distinct && sensible && expiry <= env.now)
            && (res == Failure(TransferFailed) <==>
                  && !used && d in env.auths && distinct && sensible && expiry > env.now
                  && (Bal(w.ledger, token, d) < amount || Bal(w.ledger, token, ESCROW) + amount > I128_MAX))
  {
  }

  lemma ReleaseRefusals(w0: World, run: seq<Entry>, n: nat, env: Env, a: Address)
    requires Reachable(w0, run, n)
    ensures var w := At(w0, run, n);
            var s, res := w.store, Try(w, env, Call.Release(a));
            && (res == Failure(StateCorrupted) <==> !s.Initialized())
            && (s.Initialized() ==>
                  && s.Whole()
                  && var auth := s.arbiter.value in env.auths;
                  && (res == Failure(Unauthorized) <==> !auth)
                  && (res == Failure(NotArbiter) <==> auth && a != s.arbiter.value)
                  && (res == Failure(AlreadyReleased) <==> auth && a == s.arbiter.value && s.Sealed())
                  && (res == Failure(TransferFailed) <==>
                        auth && a == s.arbiter.value && !s.Sealed() && !HasRoom(w, s.recipient.value, s.amount.value)))
  {
    RunSound(w0, run, n);
    ReleaseExactly(w0, run, n, env, a);
    hide HasRoom, Transfer;
  }

  lemma ReleasePartialRefusals(w0: World, run: seq<Entry>, n: nat, env: Env, a: Address, part: I128)
    requires Reachable(w0, run, n)
    ensures var w := At(w0, run, n);
            var s, res := w.store, Try(w, env, Call.ReleasePartial(a, part));
            && (res == Failure(StateCorrupted) <==> !s.Initialized())
            && (s.Initialized() ==>
                  && s.Whole()
                  && var auth, fits := s.arbiter.value in env.auths, 0 < part <= s.amount.value;
                  && (res == Failure(Unauthorized) <==> !auth)
                  && (res == Failure(NotArbiter) <==> auth && a != s.arbiter.value)
                  && (res == Failure(AlreadyReleased) <==> auth && a == s.arbiter.value && s.Sealed())
                  && (res == Failure(InvalidAmount) <==> auth && a == s.arbiter.value && !s.Sealed() && !fits)
                  && (res == Failure(TransferFailed) <==>
                        auth && a == s.arbiter.value && !s.Sealed() && fits && !HasRoom(w, s.recipient.value, part)))
  {
    RunSound(w0, run, n);
    ReleasePartialExactly(w0, run, n, env, a, part);
    hide HasRoom, Transfer;
  }

  lemma RefundRefusals(w0: World, run: seq<Entry>, n: nat, env: Env, d: Address)
    requires Reachable(w0, run, n)
    ensures var w := At(w0, run, n);
            var s, res := w.store, Try(w, env, Call.Refund(d));
            && (res == Failure(StateCorrupted) <==> !s.Initialized())
            && (s.Initialized() ==>
                  && s.Whole()
                  && var auth, named := s.depositor.value in env.auths, d == s.depositor.value;
                  && (res == Failure(Unauthorized) <==> !auth)
                  && (res == Failure(NotDepositor) <==> auth && !named)
                  && (res == Failure(AlreadyReleased) <==> auth && named && s.Sealed())
                  && (res == Failure(NotExpired) <==> auth && named && !s.Sealed() && env.now < s.expiry.value)
                  && (res == Failure(TransferFailed) <==>
                        && auth && named && !s.Sealed() && env.now >= s.expiry.value
                        && Bal(w.ledger, s.token.value, d) + s.amount.value > I128_MAX))
  {
    RunSound(w0, run, n);
    RefundExactly(w0, run, n, env, d);
    hide Transfer;
  }

  lemma CancelRefusals(w0: World, run: seq<Entry>, n: nat, env: Env, d: Address, a: Address)
    requires Reachable(w0, run, n)
    ensures var w := At(w0, run, n);
            var s, res := w.store, Try(w, env, Call.Cancel(d, a));
            && (res == Failure(StateCorrupted) <==> !s.Initialized())
            && (s.Initialized() ==>
                  && s.Whole()
                  && var both := s.depositor.value in env.auths && s.arbiter.value in env.auths;
                  && (res == Failure(Unauthorized) <==> !both)
                  && (res == Failure(NotDepositor) <==> both && d != s.depositor.value)
                  && (res == Failure(NotArbiter) <==> both && d == s.depositor.value && a != s.arbiter.value)
                  && (res == Failure(AlreadyReleased) <==>
                        both && d == s.depositor.value && a == s.arbiter.value && s.Sealed())
                  && (res == Failure(TransferFailed) <==>
                        && both && d == s.depositor.value && a == s.arbiter.value && !s.Sealed()
                        && Bal(w.ledger, s.token.value, d) + s.amount.value > I128_MAX))
  {
    RunSound(w0, run, n);
    CancelExactly(w0, run, n, env, d, a);
    hide Transfer;
  }

  lemma ProposeRefusals(w0: World, run: seq<Entry>, n: nat, env: Env, d: Address, a: Address)
    requires Reachable(w0, run, n)
    ensures var s, res := At(w0, run, n).store, Try(At(w0, run, n), env, Propose(d, a));
            && (res == Failure(StateCorrupted) <==> !s.Initialized())
            && (s.Initialized() ==>
                  && (res == Failure(Unauthorized) <==> s.depositor.value !in env.auths)
                  && (res == Failure(NotDepositor) <==> s.depositor.value in env.auths && d != s.depositor.value))
  {
  }
}
