/** When each entry point is carried out in a reachable state, and what it then does to every balance
    and to the storage: the contract's declared conditions, completed by authorisation and by room at the payee. */
module EscrowEntryPoints {
  import opened Outcome
  import opened TokenLedger
  import opened Escrow
  import opened EscrowRuns

  /** The payee's balance can take the amount; a payment to the contract itself needs no room. */
  predicate HasRoom(w: World, to: Address, amount: int)
    requires w.store.token.Some?
  {
    to == ESCROW || Bal(w.ledger, w.store.token.value, to) + amount <= I128_MAX
  }

  /** Exactly `amount` of the stored token went from `from` to `to`, and no other balance changed. */
  ghost predicate Moved(w: World, w': World, token: Address, from: Address, to: Address, amount: int) {
    forall t, h :: Bal(w'.ledger, t, h) == Bal(w.ledger, t, h) + if t == token then Delta(from, to, amount, h) else 0
  }

  ghost predicate Reachable(w0: World, run: seq<Entry>, n: nat) {
    Genesis(w0) && ValidRun(run) && n <= |run|
  }

  lemma TransferMoves(w: World, w': World, token: Address, from: Address, to: Address, amount: int)
    requires Transfer(w.ledger, token, from, to, amount) == Some(w'.ledger)
    ensures Moved(w, w', token, from, to, amount)
  {
    forall t, h
      ensures Bal(w'.ledger, t, h) == Bal(w.ledger, t, h) + if t == token then Delta(from, to, amount, h) else 0
    {
      TransferEffect(w.ledger, token, from, to, amount, t, h);
    }
  }

  lemma PayOutExactly(w: World, store: Storage, to: Address, amount: int, event: Event)
    requires store.token.Some? && store.token == w.store.token
    requires InRange(w.ledger) && 0 <= amount <= Bal(w.ledger, store.token.value, ESCROW)
    ensures PayOut(w, store, to, amount, event).Success? <==> HasRoom(w, to, amount)
    ensures var a := PayOut(w, store, to, amount, event);
            a.Success? ==>
              && Moved(w, a.value, store.token.value, ESCROW, to, amount)
              && a.value.store == store && a.value.events == w.events + [event]
  {
    var a := PayOut(w, store, to, amount, event);
    if a.Success? { TransferMoves(w, a.value, store.token.value, ESCROW, to, amount); }
  }

  /** Deposit: exactly when the contract is unused, the depositor authorises, the three parties differ, the
      amount and the expiry are sensible, and the depositor can pay. */
  lemma InitializeExactly(w0: World, run: seq<Entry>, n: nat, env: Env, d: Address, r: Address, a: Address,
                                             token: Address, amount: I128, expiry: U64)
    requires Reachable(w0, run, n) && ESCROW !in env.auths
    ensures var w := At(w0, run, n);
            var res := Try(w, env, Call.Initialize(d, r, a, token, amount, expiry));
            && (res.Success? <==> && !w.store.Initialized() && d in env.auths
                                  && d != a && d != r && a != r
                                  && 0 < amount <= I128_MAX / 2 && expiry > env.now
                                  && Bal(w.ledger, token, d) >= amount
                                  && Bal(w.ledger, token, ESCROW) + amount <= I128_MAX)
            && (res.Success? ==>
                  && Moved(w, res.value, token, d, ESCROW, amount)
                  && res.value.store == Storage(Some(d), Some(r), Some(a), Some(token), Some(amount), Some(expiry),
                                                Some(false), Some(env.now), None, None)
                  && res.value.events == w.events + [Event.Initialized(d, r, amount)])
  {
    RunSound(w0, run, n);
    var w := At(w0, run, n);
    var res := Try(w, env, Call.Initialize(d, r, a, token, amount, expiry));
    if res.Success? { TransferMoves(w, res.value, token, d, ESCROW, amount); }
  }

  /** Full release: exactly when the stored arbiter calls with its authority before sealing. */
  lemma ReleaseExactly(w0: World, run: seq<Entry>, n: nat, env: Env, a: Address)
    requires Reachable(w0, run, n)
    ensures var w := At(w0, run, n);
            var s, res := w.store, Try(w, env, Call.Release(a));
            && (res.Success? <==> && s.Initialized() && s.Whole()
                                  && s.arbiter == Some(a) && a in env.auths && !s.Sealed()
                                  && HasRoom(w, s.recipient.value, s.amount.value))
            && (res.Success? ==>
                  && s.Whole()
                  && Moved(w, res.value, s.token.value, ESCROW, s.recipient.value, s.amount.value)
                  && res.value.store == s.(released := Some(true))
                  && res.value.events == w.events + [Event.Released(s.recipient.value, s.amount.value)])
  {
    var w := At(w0, run, n);
    var s := w.store;
    RunSound(w0, run, n);
    if s.Initialized() { ContractHoldsTheLockedAmount(w0, run, n); }
    hide Moved, InRange, Bal, HasRoom;
    if s.Initialized() && !s.Sealed() {
      assert InRange(w.ledger);
      PayOutExactly(w, s.(released := Some(true)), s.recipient.value, s.amount.value,
                    Event.Released(s.recipient.value, s.amount.value));
    }
  }

  /** Partial release: exactly when, besides, the part is positive and not more than what is stored; the
      escrow is sealed exactly when nothing remains. */
  lemma ReleasePartialExactly(w0: World, run: seq<Entry>, n: nat, env: Env, a: Address, part: I128)
    requires Reachable(w0, run, n)
    ensures var w := At(w0, run, n);
            var s, res := w.store, Try(w, env, Call.ReleasePartial(a, part));
            && (res.Success? <==> && s.Initialized() && s.Whole()
                                  && s.arbiter == Some(a) && a in env.auths && !s.Sealed()
                                  && 0 < part <= s.amount.value
                                  && HasRoom(w, s.recipient.value, part))
            && (res.Success? ==>
                  && s.Whole()
                  && Moved(w, res.value, s.token.value, ESCROW, s.recipient.value, part)
                  && res.value.store.amount == Some(s.amount.value - part)
                  && (res.value.store.Sealed() <==> part == s.amount.value)
                  && res.value.store == s.(amount := res.value.store.amount, released := res.value.store.released)
                  && res.value.events
                     == w.events + [if part == s.amount.value then LastPartReleased(s.recipient.value, part)
                                    else PartialReleased(s.recipient.value, part, s.amount.value - part)])
  {
    var w := At(w0, run, n);
    var s := w.store;
    RunSound(w0, run, n);
    if s.Initialized() { ContractHoldsTheLockedAmount(w0, run, n); }
    hide Moved, InRange, Bal, HasRoom;
    if s.Initialized() && !s.Sealed() && 0 < part <= s.amount.value {
      assert InRange(w.ledger);
      var left: I128 := s.amount.value - part;
      PayOutExactly(w, s.(amount := Some(left), released := Some(true)), s.recipient.value, part,
                    LastPartReleased(s.recipient.value, part));
      PayOutExactly(w, s.(amount := Some(left)), s.recipient.value, part,
                    PartialReleased(s.recipient.value, part, left));
    }
  }

  /** Refund: exactly when the stored depositor calls with its authority at or after expiry, before sealing. */
  lemma RefundExactly(w0: World, run: seq<Entry>, n: nat, env: Env, d: Address)
    requires Reachable(w0, run, n)
    ensures var w := At(w0, run, n);
            var s, res := w.store, Try(w, env, Call.Refund(d));
            && (res.Success? <==> && s.Whole() && s.depositor == Some(d) && d in env.auths && !s.Sealed()
                                  && env.now >= s.expiry.value
                                  && Bal(w.ledger, s.token.value, d) + s.amount.value <= I128_MAX)
            && (res.Success? ==>
                  && s.Whole()
                  && Moved(w, res.value, s.token.value, ESCROW, d, s.amount.value)
                  && res.value.store == s.(released := Some(true))
                  && res.value.events == w.events + [Refunded(d, s.amount.value)])
  {
    var w := At(w0, run, n);
    var s := w.store;
    RunSound(w0, run, n);
    if s.Initialized() { ContractHoldsTheLockedAmount(w0, run, n); }
    hide Moved, InRange, Bal;
    if s.Initialized() && !s.Sealed() {
      assert InRange(w.ledger);
      PayOutExactly(w, s.(released := Some(true)), s.depositor.value, s.amount.value,
                    Refunded(s.depositor.value, s.amount.value));
    }
  }

  /** Cancel: exactly when both stored parties are named and authorise, before sealing, expired or not. */
  lemma CancelExactly(w0: World, run: seq<Entry>, n: nat, env: Env, d: Address, a: Address)
    requires Reachable(w0, run, n)
    ensures var w := At(w0, run, n);
            var s, res := w.store, Try(w, env, Call.Cancel(d, a));
            && (res.Success? <==> && s.Whole() && s.depositor == Some(d) && s.arbiter == Some(a)
                                  && d in env.auths && a in env.auths && !s.Sealed()
                                  && Bal(w.ledger, s.token.value, d) + s.amount.value <= I128_MAX)
            && (res.Success? ==>
                  && s.Whole()
                  && Moved(w, res.value, s.token.value, ESCROW, d, s.amount.value)
                  && res.value.store == s.(released := Some(true))
                  && res.value.events == w.events + [Cancelled(d, s.amount.value)])
  {
    var w := At(w0, run, n);
    var s := w.store;
    RunSound(w0, run, n);
    if s.Initialized() { ContractHoldsTheLockedAmount(w0, run, n); }
    hide Moved, InRange, Bal;
    if s.Initialized() && !s.Sealed() {
      assert InRange(w.ledger);
      PayOutExactly(w, s.(released := Some(true)), s.depositor.value, s.amount.value,
                    Cancelled(s.depositor.value, s.amount.value));
    }
  }

  /** Proposing: exactly when the stored depositor calls with its authority, sealed or not; then the pending
      arbiter and its time are set, and nothing else changes but one more event. */
  lemma ProposeExactly(w0: World, run: seq<Entry>, n: nat, env: Env, d: Address, a: Address)
    requires Reachable(w0, run, n)
    ensures var w := At(w0, run, n);
            var s, res := w.store, Try(w, env, Propose(d, a));
            && (res.Success? <==> s.depositor == Some(d) && d in env.auths)
            && (res.Success? ==>
                  && res.value.store == s.(pendingArbiter := Some(a), pendingArbiterTime := Some(env.now))
                  && res.value.ledger == w.ledger
                  && res.value.events == w.events + [RotationProposed(d, a, env.now)])
  {
  }

  /** Before initialisation no call but `initialize` is carried out. The five calls that name the depositor or the
      arbiter panic without an error code, for want of the stored value; accepting finds no proposal. */
  lemma BeforeInitialisation(w0: World, run: seq<Entry>, n: nat, env: Env, call: Call)
    requires Reachable(w0, run, n)
    requires !At(w0, run, n).store.Initialized() && !call.Initialize? && !call.Outside?
    ensures Try(At(w0, run, n), env, call) == Failure(if call.Accept? then NoPendingRotation else StateCorrupted)
  {
    RunSound(w0, run, n);
  }

  lemma TwoFitInSupply(m: Ledger, t: Address, a: Address, b: Address, hs: set<Address>)
    requires InRange(m) && a != b && a in hs && b in hs
    ensures Bal(m, t, a) + Bal(m, t, b) <= Total(m, t, hs)
  {
    TotalTakeOut(m, t, hs, a);
    TotalTakeOut(m, t, hs - {a}, b);
    TotalNonNegative(m, t, hs - {a} - {b});
  }

  /** With the token's supply inside i128 from the start, the depositor's refund at or after expiry never fails. */
  lemma RefundIsAlwaysAvailable(w0: World, run: seq<Entry>, n: nat, env: Env, hs: set<Address>)
    requires Reachable(w0, run, n) && Among(run, hs)
    requires At(w0, run, n).store.Initialized() && At(w0, run, n).store.Whole()
    requires var s := At(w0, run, n).store;
             && !s.Sealed() && env.now >= s.expiry.value
             && s.depositor.value in env.auths
             && Total(w0.ledger, s.token.value, hs) <= I128_MAX
    ensures var w := At(w0, run, n);
            Try(w, env, Call.Refund(w.store.depositor.value)).Success?
  {
    var w := At(w0, run, n);
    RunSound(w0, run, n);
    ContractHoldsTheLockedAmount(w0, run, n);
    SupplyStaysConstant(w0, run, n, w.store.token.value, hs);
    TwoFitInSupply(w.ledger, w.store.token.value, w.store.depositor.value, ESCROW, hs);
    RefundExactly(w0, run, n, env, w.store.depositor.value);
  }
}
