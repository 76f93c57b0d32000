/** Releasing in parts moves the same money as releasing at once. */
module EscrowPartial {
  import opened Outcome
  import opened TokenLedger
  import opened Escrow
  import opened EscrowRuns

  /** Partial releases of positive parts, each authorised by the arbiter `a`. */
  ghost predicate Parts(run: seq<Entry>, a: Address) {
    forall i | 0 <= i < |run| ::
      run[i].call.ReleasePartial? && run[i].call.arbiter == a && run[i].call.part > 0 && a in run[i].env.auths
  }

  function PaidOut(run: seq<Entry>, n: nat): int
    requires n <= |run|
  {
    if n == 0 then 0
    else PaidOut(run, n - 1) + if run[n - 1].call.ReleasePartial? then run[n - 1].call.part else 0
  }

  lemma {:induction false} PaidOutGrows(run: seq<Entry>, a: Address, m: nat, n: nat)
    requires Parts(run, a) && m <= n <= |run|
    ensures 0 <= PaidOut(run, m) <= PaidOut(run, n)
    ensures m < n ==> PaidOut(run, m) < PaidOut(run, n)
  {
    if m < n { PaidOutGrows(run, a, m, n - 1); }
    else if 0 < n { PaidOutGrows(run, a, n - 1, n - 1); }
  }

  /** The payee can take the sum of the parts; no parts need no room. */
  ghost predicate CanTake(w: World, sum: int)
    requires w.store.token.Some? && w.store.recipient.Some?
  {
    sum > 0 ==> Transfer(w.ledger, w.store.token.value, ESCROW, w.store.recipient.value, sum).Some?
  }

  /** Parts whose sum fits the stored amount and can be paid at once are all carried out; together they are one
      transfer of their sum, and they seal the escrow exactly when nothing remains. */
  lemma {:induction false} PartsAddUp(w: World, run: seq<Entry>, n: nat)
    requires SoundStore(w.store) && w.store.Initialized() && !w.store.Sealed()
    requires Parts(run, w.store.arbiter.value) && n <= |run|
    requires PaidOut(run, |run|) <= w.store.amount.value && CanTake(w, PaidOut(run, |run|))
    ensures forall k | 0 <= k < n :: Carried(w, run, k)
    ensures 0 <= PaidOut(run, n) <= w.store.amount.value
    ensures var w' := At(w, run, n);
            var left: I128 := w.store.amount.value - PaidOut(run, n);
            && w'.store == w.store.(amount := Some(left),
                                    released := if left == 0 then Some(true) else w.store.released)
            && (0 < n ==> Some(w'.ledger) == Transfer(w.ledger, w.store.token.value, ESCROW, w.store.recipient.value,
                                                      PaidOut(run, n)))
            && Sum(w'.events, ToRecipient) == Sum(w.events, ToRecipient) + PaidOut(run, n)
            && Sum(w'.events, ToDepositor) == Sum(w.events, ToDepositor)
  {
    hide Try, Step, Transfer, Sum;
    PaidOutGrows(run, w.store.arbiter.value, n, |run|);
    if n > 0 {
      PartsAddUp(w, run, n - 1);
      PaidOutGrows(run, w.store.arbiter.value, n - 1, n);
      OnePart(w, run, n);
    }
  }

  lemma OnePart(w: World, run: seq<Entry>, n: nat)
    requires SoundStore(w.store) && w.store.Initialized() && !w.store.Sealed()
    requires Parts(run, w.store.arbiter.value) && 0 < n <= |run|
    requires 0 <= PaidOut(run, n - 1) < PaidOut(run, n) <= PaidOut(run, |run|) <= w.store.amount.value
    requires CanTake(w, PaidOut(run, |run|))
    requires var w' := At(w, run, n - 1);
             && w'.store == w.store.(amount := Some(w.store.amount.value - PaidOut(run, n - 1)))
             && (if n == 1 then w' == w
                 else Some(w'.ledger) == Transfer(w.ledger, w.store.token.value, ESCROW, w.store.recipient.value,
                                                  PaidOut(run, n - 1)))
    ensures Carried(w, run, n - 1)
    ensures var b, w' := At(w, run, n - 1), At(w, run, n);
            var left: I128 := w.store.amount.value - PaidOut(run, n);
            && w'.store == w.store.(amount := Some(left),
                                    released := if left == 0 then Some(true) else w.store.released)
            && Some(w'.ledger)
               == Transfer(w.ledger, w.store.token.value, ESCROW, w.store.recipient.value, PaidOut(run, n))
            && Sum(w'.events, ToRecipient) == Sum(b.events, ToRecipient) + run[n - 1].call.part
            && Sum(w'.events, ToDepositor) == Sum(b.events, ToDepositor)
  {
    var t, r, part := w.store.token.value, w.store.recipient.value, run[n - 1].call.part;
    var b := At(w, run, n - 1);
    assert PaidOut(run, n) == PaidOut(run, n - 1) + part;
    assert n == 1 ==> PaidOut(run, n - 1) == 0;
    assert At(w, run, n) == Step(b, run[n - 1].env, run[n - 1].call);
    OneTransfer(w.ledger, b.ledger, t, r, PaidOut(run, n - 1), part, PaidOut(run, |run|), n == 1);
    hide Transfer, Sum, SoundStore, At;
    PartStep(b, run[n - 1].env, w.store.arbiter.value, part);
  }

  /** One partial release that the contract can pay. */
  lemma PartStep(b: World, env: Env, a: Address, part: I128)
    requires b.store.Whole() && b.store.Initialized() && !b.store.Sealed()
    requires b.store.arbiter == Some(a) && a in env.auths && 0 < part <= b.store.amount.value
    requires Transfer(b.ledger, b.store.token.value, ESCROW, b.store.recipient.value, part).Some?
    ensures Try(b, env, ReleasePartial(a, part)).Success?
    ensures var w', left := Step(b, env, ReleasePartial(a, part)), b.store.amount.value - part;
            && w'.store == b.store.(amount := Some(left),
                                    released := if left == 0 then Some(true) else b.store.released)
            && Some(w'.ledger) == Transfer(b.ledger, b.store.token.value, ESCROW, b.store.recipient.value, part)
            && Sum(w'.events, ToRecipient) == Sum(b.events, ToRecipient) + part
            && Sum(w'.events, ToDepositor) == Sum(b.events, ToDepositor)
  {
    hide Transfer, Sum;
    var left := b.store.amount.value - part;
    var e := if left == 0 then LastPartReleased(b.store.recipient.value, part)
             else PartialReleased(b.store.recipient.value, part, left);
    assert Step(b, env, ReleasePartial(a, part)).events == b.events + [e];
    SumAppend(b.events, e, ToRecipient);
    SumAppend(b.events, e, ToDepositor);
  }

  lemma OneTransfer(m: Ledger, m': Ledger, t: Address, r: Address, before: int, part: int, all: int,
                                       first: bool)
    requires 0 <= before && 0 < part && before + part <= all
    requires Transfer(m, t, ESCROW, r, all).Some?
    requires if first then m' == m && before == 0 else Some(m') == Transfer(m, t, ESCROW, r, before)
    ensures Transfer(m', t, ESCROW, r, part) == Transfer(m, t, ESCROW, r, before + part)
    ensures Transfer(m', t, ESCROW, r, part).Some?
  {
    TransferTwice(m, t, ESCROW, r, before + part, all - before - part);
    if !first { TransferTwice(m, t, ESCROW, r, before, part); }
  }

  /** Any parts that sum to the stored amount leave the same balances as one full release, report the
      same total to the recipient, and seal the escrow just as it does. */
  lemma {:induction false} PartsEqualOneRelease(w: World, run: seq<Entry>, env: Env)
    requires SoundStore(w.store) && w.store.Initialized()
    requires Parts(run, w.store.arbiter.value)
    requires PaidOut(run, |run|) == w.store.amount.value
    requires DoRelease(w, env, w.store.arbiter.value).Success?
    ensures var one, many := DoRelease(w, env, w.store.arbiter.value).value, At(w, run, |run|);
            && many.ledger == one.ledger
            && many.store == one.store.(amount := Some(0))
            && one.store.Sealed() && many.store.Sealed()
            && Sum(many.events, ToRecipient) == Sum(one.events, ToRecipient)
            && Sum(many.events, ToDepositor) == Sum(one.events, ToDepositor)
  {
    PartsAddUp(w, run, |run|);
    assert |run| > 0;
    var e := Event.Released(w.store.recipient.value, w.store.amount.value);
    SumAppend(w.events, e, ToRecipient);
    SumAppend(w.events, e, ToDepositor);
  }
}
