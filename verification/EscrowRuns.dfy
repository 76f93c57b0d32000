/** What the escrow keeps over whole runs: every sequence of calls, by anyone, mixed with
    outside traffic of the same tokens. */
module EscrowRuns {
  import opened Outcome
  import opened TokenLedger
  import opened Escrow

  datatype Entry = Entry(env: Env, call: Call)

  /** Ledger time never decreases, and nobody can authorise in the contract's name. */
  ghost predicate ValidRun(run: seq<Entry>) {
    && (forall i | 0 <= i < |run| :: ESCROW !in run[i].env.auths)
    && (forall i, j | 0 <= i <= j < |run| :: run[i].env.now <= run[j].env.now)
  }

  /** Before deployment: nothing stored, nothing published, balances in range. */
  ghost predicate Genesis(w: World) {
    && w.store == EMPTY
    && w.events == []
    && InRange(w.ledger)
  }

  /** The world after the first `n` calls. */
  ghost function At(w0: World, run: seq<Entry>, n: nat): World
    requires n <= |run|
  {
    if n == 0 then w0 else Step(At(w0, run, n - 1), run[n - 1].env, run[n - 1].call)
  }

  /** Call number `k` was carried out (did not panic). */
  ghost predicate Carried(w0: World, run: seq<Entry>, k: nat)
    requires k < |run|
  {
    Try(At(w0, run, k), run[k].env, run[k].call).Success?
  }

  // ---------------------------------------------------------------- money

  function Locked(s: Storage): int {
    if s.Sealed() || s.amount.None? then 0 else s.amount.value
  }

  /** The transfer an event reports: (from, to, amount). */
  function Moves(e: Event): (Address, Address, int) {
    match e
    case Initialized(d, r, a) => (d, ESCROW, a)
    case Released(r, a) => (ESCROW, r, a)
    case LastPartReleased(r, a) => (ESCROW, r, a)
    case PartialReleased(r, a, _) => (ESCROW, r, a)
    case Refunded(d, a) => (ESCROW, d, a)
    case Cancelled(d, a) => (ESCROW, d, a)
    case RotationProposed(_, _, _) => (ESCROW, ESCROW, 0)
    case RotationAccepted(_, _) => (ESCROW, ESCROW, 0)
  }

  function ToRecipient(e: Event): int {
    match e
    case Released(_, a) => a
    case LastPartReleased(_, a) => a
    case PartialReleased(_, a, _) => a
    case _ => 0
  }

  function ToDepositor(e: Event): int {
    match e
    case Refunded(_, a) => a
    case Cancelled(_, a) => a
    case _ => 0
  }

  function Deposited(e: Event): int {
    if e.Initialized? then e.amount else 0
  }

  function Sum(events: seq<Event>, f: Event -> int): int {
    if events == [] then 0 else Sum(events[..|events| - 1], f) + f(events[|events| - 1])
  }

  lemma SumAppend(events: seq<Event>, e: Event, f: Event -> int)
    ensures Sum(events + [e], f) == Sum(events, f) + f(e)
  {
    assert (events + [e])[..|events|] == events;
  }

  /** What the published events did to the balance of `h`. */
  function Booked(events: seq<Event>, h: Address): int {
    if events == [] then 0
    else
      var m := Moves(events[|events| - 1]);
      Booked(events[..|events| - 1], h) + Delta(m.0, m.1, m.2, h)
  }

  lemma BookedAppend(events: seq<Event>, e: Event, h: Address)
    ensures Booked(events + [e], h) == Booked(events, h) + Delta(Moves(e).0, Moves(e).1, Moves(e).2, h)
  {
    assert (events + [e])[..|events|] == events;
  }

  /** What call `k` did to the balance of `h` if it was a successful outside transfer of `token`. */
  ghost function OutsideAt(w0: World, run: seq<Entry>, k: nat, token: Address, h: Address): int
    requires k < |run|
  {
    var c := run[k].call;
    if c.Outside? && c.tok == token && Carried(w0, run, k) then Delta(c.from, c.to, c.units, h) else 0
  }

  ghost function OutsideNet(w0: World, run: seq<Entry>, n: nat, token: Address, h: Address): int
    requires n <= |run|
  {
    if n == 0 then 0 else OutsideNet(w0, run, n - 1, token, h) + OutsideAt(w0, run, n - 1, token, h)
  }

  /** Every balance is a number the token contract can hold. */
  ghost predicate InRange(m: Ledger) {
    forall t, h :: 0 <= Bal(m, t, h) <= I128_MAX
  }

  /** The storage is whole, and the amount and the depositor in it are sane. */
  ghost predicate SoundStore(s: Storage) {
    && s.Whole()
    && (s.Initialized() ==>
          && s.depositor != Some(ESCROW)
          && s.amount.value >= 0
          && (s.amount.value == 0 ==> s.Sealed()))
  }

  /** Every published payment, deposit included, is positive and names the stored parties. */
  ghost predicate SoundEvent(s: Storage, e: Event) {
    && s.Initialized()
    && (!e.RotationProposed? && !e.RotationAccepted? ==> e.amount > 0)
    && (e.Initialized? ==> s.depositor == Some(e.depositor) && s.recipient == Some(e.recipient))
    && (e.Released? || e.LastPartReleased? || e.PartialReleased? ==> s.recipient == Some(e.recipient))
    && (e.Refunded? || e.Cancelled? ==> s.depositor == Some(e.depositor))
  }

  ghost predicate Sound(w: World) {
    && SoundStore(w.store)
    && InRange(w.ledger)
    && (forall e <- w.events :: SoundEvent(w.store, e))
  }

  ghost predicate SameParties(s: Storage, s': Storage) {
    s.Initialized() ==> s'.depositor == s.depositor && s'.recipient == s.recipient && s'.token == s.token
  }

  /** A carried call of the contract publishes one event and makes exactly the transfer it names. */
  ghost predicate Effect(w: World, w': World, e: Event) {
    && w'.events == w.events + [e]
    && w'.store.token.Some?
    && SameParties(w.store, w'.store)
    && (e.Initialized? <==> !w.store.Initialized())
    && Deposited(e) == ToRecipient(e) + ToDepositor(e) + Locked(w'.store) - Locked(w.store)
    && (if e.RotationProposed? || e.RotationAccepted? then w'.ledger == w.ledger
        else Transfer(w.ledger, w'.store.token.value, Moves(e).0, Moves(e).1, Moves(e).2) == Some(w'.ledger))
  }

  lemma CarriedEffect(w: World, env: Env, call: Call) returns (e: Event)
    requires SoundStore(w.store) && ESCROW !in env.auths
    requires Try(w, env, call).Success? && !call.Outside?
    ensures var w' := Try(w, env, call).value;
            Effect(w, w', e) && SoundStore(w'.store) && SoundEvent(w'.store, e)
  {
    var w' := Try(w, env, call).value;
    e := w'.events[|w.events|];
  }

  lemma OutsideEffect(w: World, env: Env, call: Call)
    requires call.Outside? && Try(w, env, call).Success?
    ensures var w' := Try(w, env, call).value;
            && w' == w.(ledger := w'.ledger)
            && call.from in env.auths && call.units >= 0
            && Transfer(w.ledger, call.tok, call.from, call.to, call.units) == Some(w'.ledger)
  {
  }

  lemma SoundEventKept(s: Storage, s': Storage, e: Event)
    requires SoundEvent(s, e) && SameParties(s, s') && SoundStore(s')
    ensures SoundEvent(s', e)
  {
  }

  lemma StepSound(w: World, env: Env, call: Call)
    requires Sound(w) && ESCROW !in env.auths
    ensures Sound(Step(w, env, call))
  {
    hide SoundEvent, SoundStore, Transfer, Try;
    match Try(w, env, call)
    case Failure(_) =>
    case Success(w') =>
      if call.Outside? {
        OutsideEffect(w, env, call);
        forall t, h ensures 0 <= Bal(w'.ledger, t, h) <= I128_MAX {
          TransferEffect(w.ledger, call.tok, call.from, call.to, call.units, t, h);
        }
      } else {
        var e := CarriedEffect(w, env, call);
        forall t, h ensures 0 <= Bal(w'.ledger, t, h) <= I128_MAX { EffectOnBalance(w, w', e, t, h); }
        forall x <- w'.events ensures SoundEvent(w'.store, x) {
          assert x in w.events || x == e;
          if x in w.events { SoundEventKept(w.store, w'.store, x); }
        }
      }
  }

  lemma EffectOnBalance(w: World, w': World, e: Event, t: Address, h: Address)
    requires Effect(w, w', e)
    ensures Bal(w'.ledger, t, h)
         == Bal(w.ledger, t, h)
            + if w'.store.token == Some(t) then Delta(Moves(e).0, Moves(e).1, Moves(e).2, h) else 0
    ensures 0 <= Bal(w.ledger, t, h) <= I128_MAX ==> 0 <= Bal(w'.ledger, t, h) <= I128_MAX
  {
    if !e.RotationProposed? && !e.RotationAccepted? {
      TransferEffect(w.ledger, w'.store.token.value, Moves(e).0, Moves(e).1, Moves(e).2, t, h);
    }
  }

  lemma {:induction false} RunSound(w0: World, run: seq<Entry>, n: nat)
    requires Genesis(w0) && ValidRun(run) && n <= |run|
    ensures Sound(At(w0, run, n))
  {
    if n > 0 {
      RunSound(w0, run, n - 1);
      StepSound(At(w0, run, n - 1), run[n - 1].env, run[n - 1].call);
    }
  }

  /** What the events did to the balance of `h` in token `t`: they all move the stored token. */
  function BookedIn(w: World, t: Address, h: Address): int {
    if w.store.token == Some(t) then Booked(w.events, h) else 0
  }

  lemma StepIsBooked(w: World, env: Env, call: Call, t: Address, h: Address)
    requires SoundStore(w.store) && ESCROW !in env.auths && Try(w, env, call).Success?
    requires !w.store.Initialized() ==> w.events == []
    ensures Bal(Try(w, env, call).value.ledger, t, h) - BookedIn(Try(w, env, call).value, t, h)
         == Bal(w.ledger, t, h) - BookedIn(w, t, h)
            + if call.Outside? && call.tok == t then Delta(call.from, call.to, call.units, h) else 0
  {
    var w' := Try(w, env, call).value;
    if call.Outside? {
      OutsideEffect(w, env, call);
      hide Try, Transfer, Booked;
      TransferEffect(w.ledger, call.tok, call.from, call.to, call.units, t, h);
    } else {
      var e := CarriedEffect(w, env, call);
      hide Try, Transfer, Moves, Delta;
      EffectOnBalance(w, w', e, t, h);
      BookedAppend(w.events, e, h);
    }
  }

  /** Every balance of every holder is its initial value, plus outside traffic, plus what the events report. */
  lemma {:induction false} EveryBalanceIsAccountedFor(w0: World, run: seq<Entry>, n: nat, t: Address, h: Address)
    requires Genesis(w0) && ValidRun(run) && n <= |run|
    ensures Bal(At(w0, run, n).ledger, t, h)
         == Bal(w0.ledger, t, h) + OutsideNet(w0, run, n, t, h) + BookedIn(At(w0, run, n), t, h)
  {
    if n > 0 {
      EveryBalanceIsAccountedFor(w0, run, n - 1, t, h);
      RunSound(w0, run, n - 1);
      var w := At(w0, run, n - 1);
      assert !w.store.Initialized() ==> w.events == [] by {
        if w.events != [] { assert SoundEvent(w.store, w.events[0]); }
      }
      hide Try, BookedIn, Bal, Delta;
      if Carried(w0, run, n - 1) {
        StepIsBooked(w, run[n - 1].env, run[n - 1].call, t, h);
      }
    }
  }

  /** The deposit is paid to the recipient, paid back to the depositor, or still locked; the first
      event is the only deposit. */
  lemma {:induction false} DepositIsConserved(w0: World, run: seq<Entry>, n: nat)
    requires Genesis(w0) && ValidRun(run) && n <= |run|
    ensures var w := At(w0, run, n);
            && Sum(w.events, Deposited) == Sum(w.events, ToRecipient) + Sum(w.events, ToDepositor) + Locked(w.store)
            && (w.store.Initialized() <==> w.events != [])
            && (w.events != [] ==> w.events[0].Initialized? && w.events[0].amount == Sum(w.events, Deposited))
  {
    if n > 0 {
      DepositIsConserved(w0, run, n - 1);
      RunSound(w0, run, n - 1);
      var w, env, call := At(w0, run, n - 1), run[n - 1].env, run[n - 1].call;
      if Carried(w0, run, n - 1) && call.Outside? { OutsideEffect(w, env, call); }
      if Carried(w0, run, n - 1) && !call.Outside? {
        hide Try, Sum, Locked, Transfer;
        var e := CarriedEffect(w, env, call);
        SumAppend(w.events, e, Deposited);
        SumAppend(w.events, e, ToRecipient);
        SumAppend(w.events, e, ToDepositor);
      }
    }
  }

  /** The events move the deposit in and the payments out, except those the contract paid to itself. */
  lemma {:induction false} BookedToContract(s: Storage, events: seq<Event>)
    requires SoundStore(s) && forall e <- events :: SoundEvent(s, e)
    ensures Booked(events, ESCROW)
         == Sum(events, Deposited) - Sum(events, ToRecipient) - Sum(events, ToDepositor)
            + if s.recipient == Some(ESCROW) then Sum(events, ToRecipient) else 0
    ensures Sum(events, ToRecipient) >= 0
  {
    if events != [] {
      assert SoundEvent(s, events[|events| - 1]);
      BookedToContract(s, events[..|events| - 1]);
    }
  }

  /** Payments that stayed in the contract because it is its own recipient. */
  function SelfPaid(w: World): int {
    if w.store.recipient == Some(ESCROW) then Sum(w.events, ToRecipient) else 0
  }

  /** Call `k` is outside money of token `t` arriving at the contract. */
  ghost predicate Gift(w0: World, run: seq<Entry>, k: nat, t: Address)
    requires k < |run|
  {
    var c := run[k].call;
    c.Outside? && c.tok == t && c.to == ESCROW && c.units > 0 && Carried(w0, run, k)
  }

  lemma OutsideGives(w0: World, run: seq<Entry>, k: nat, t: Address)
    requires ValidRun(run) && k < |run|
    ensures OutsideAt(w0, run, k, t, ESCROW) >= 0
    ensures OutsideAt(w0, run, k, t, ESCROW) == 0 <==> !Gift(w0, run, k, t)
  {
  }

  lemma {:induction false} OutsideNeverTakes(w0: World, run: seq<Entry>, n: nat, t: Address)
    requires ValidRun(run) && n <= |run|
    ensures OutsideNet(w0, run, n, t, ESCROW) >= 0
    ensures OutsideNet(w0, run, n, t, ESCROW) == 0 <==> forall k | 0 <= k < n :: !Gift(w0, run, k, t)
  {
    if n > 0 {
      OutsideNeverTakes(w0, run, n - 1, t);
      OutsideGives(w0, run, n - 1, t);
    }
  }

  /** The contract holds what is locked, on top of what it held before, gifts, and payments to itself. */
  lemma ContractHoldsTheLockedAmount(w0: World, run: seq<Entry>, n: nat)
    requires Genesis(w0) && ValidRun(run) && n <= |run|
    requires At(w0, run, n).store.Initialized() && At(w0, run, n).store.Whole()
    ensures var w := At(w0, run, n);
            var t := w.store.token.value;
            && Bal(w.ledger, t, ESCROW)
               == Bal(w0.ledger, t, ESCROW) + OutsideNet(w0, run, n, t, ESCROW) + SelfPaid(w) + Locked(w.store)
            && Bal(w.ledger, t, ESCROW) >= Locked(w.store)
            && SelfPaid(w) >= 0
  {
    var w := At(w0, run, n);
    RunSound(w0, run, n);
    EveryBalanceIsAccountedFor(w0, run, n, w.store.token.value, ESCROW);
    DepositIsConserved(w0, run, n);
    BookedToContract(w.store, w.events);
    OutsideNeverTakes(w0, run, n, w.store.token.value);
  }

  /** The four invariants the contract declares. */
  ghost predicate Declared(w: World)
    requires w.store.Whole() && w.store.Initialized()
  {
    var balance := Bal(w.ledger, w.store.token.value, ESCROW);
    && w.store.amount.value >= 0
    && (w.store.amount.value == 0 ==> w.store.Sealed())
    && (w.store.Sealed() ==> balance == 0)
    && (!w.store.Sealed() ==> balance == w.store.amount.value)
  }

  /** In every reachable state the declared invariants hold exactly when the contract started without
      such tokens, nobody sent it any from outside, and it never paid itself. */
  lemma DeclaredInvariantsExactly(w0: World, run: seq<Entry>, n: nat)
    requires Genesis(w0) && ValidRun(run) && n <= |run|
    requires At(w0, run, n).store.Initialized() && At(w0, run, n).store.Whole()
    ensures var w := At(w0, run, n);
            var t := w.store.token.value;
            Declared(w) <==> && Bal(w0.ledger, t, ESCROW) == 0
                             && (forall k | 0 <= k < n :: !Gift(w0, run, k, t))
                             && (w.store.recipient != Some(ESCROW) || Sum(w.events, ToRecipient) == 0)
  {
    var w := At(w0, run, n);
    RunSound(w0, run, n);
    ContractHoldsTheLockedAmount(w0, run, n);
    OutsideNeverTakes(w0, run, n, w.store.token.value);
  }

  /** One unit sent to a fresh escrow from outside breaks the declared balance invariant. */
  lemma DeclaredInvariantsCanFail() returns (w0: World, run: seq<Entry>)
    ensures Genesis(w0) && ValidRun(run) && |run| == 2
    ensures At(w0, run, 2).store.Initialized() && At(w0, run, 2).store.Whole()
    ensures !Declared(At(w0, run, 2))
  {
    w0 := World(EMPTY, map[(9, 1) := 100], []);
    run := [Entry(Env(10, {1}), Call.Initialize(1, 2, 3, 9, 50, 20)), Entry(Env(11, {1}), Outside(9, 1, ESCROW, 1))];
    assert At(w0, run, 0) == w0;
    var w1 := At(w0, run, 1);
    assert w1 == Step(w0, run[0].env, run[0].call);
    assert Bal(w1.ledger, 9, 1) == 50;
    var w2 := At(w0, run, 2);
    assert w2 == Step(w1, run[1].env, run[1].call);
    assert Bal(w2.ledger, 9, ESCROW) == 51;
  }

  // ---------------------------------------------------------------- supply

  /** No call creates or destroys tokens: any group holding the parties keeps its total. */
  lemma SupplyIsConserved(w: World, env: Env, call: Call, t: Address, hs: set<Address>)
    requires Sound(w) && ESCROW !in env.auths && ESCROW in hs
    requires call.Outside? ==> call.from in hs && call.to in hs
    requires call.Initialize? ==> call.depositor in hs
    requires w.store.Initialized() ==> w.store.depositor.value in hs && w.store.recipient.value in hs
    ensures Total(Step(w, env, call).ledger, t, hs) == Total(w.ledger, t, hs)
  {
    if Try(w, env, call).Success? {
      if call.Outside? {
        TransferKeepsTotal(w.ledger, call.tok, call.from, call.to, call.units, t, hs);
      } else {
        var e := CarriedEffect(w, env, call);
        var w' := Try(w, env, call).value;
        if !e.RotationProposed? && !e.RotationAccepted? {
          TransferKeepsTotal(w.ledger, w'.store.token.value, Moves(e).0, Moves(e).1, Moves(e).2, t, hs);
        }
      }
    }
  }

  /** Every party of the run belongs to the group. */
  ghost predicate Among(run: seq<Entry>, hs: set<Address>) {
    && ESCROW in hs
    && (forall k | 0 <= k < |run| && run[k].call.Outside? :: run[k].call.from in hs && run[k].call.to in hs)
    && (forall k | 0 <= k < |run| && run[k].call.Initialize? ::
          run[k].call.depositor in hs && run[k].call.recipient in hs)
  }

  lemma PartiesAmong(w: World, env: Env, call: Call)
    ensures var s, s' := w.store, Step(w, env, call).store;
            (s'.depositor, s'.recipient) == (s.depositor, s.recipient)
            || (call.Initialize? && s'.depositor == Some(call.depositor) && s'.recipient == Some(call.recipient))
  {
  }

  /** Over any run among a group that the contract belongs to, the group's total of every token stays what it was. */
  lemma {:induction false} SupplyStaysConstant(w0: World, run: seq<Entry>, n: nat, t: Address, hs: set<Address>)
    requires Genesis(w0) && ValidRun(run) && Among(run, hs) && n <= |run|
    ensures Total(At(w0, run, n).ledger, t, hs) == Total(w0.ledger, t, hs)
    ensures var s := At(w0, run, n).store;
            (s.depositor.Some? ==> s.depositor.value in hs) && (s.recipient.Some? ==> s.recipient.value in hs)
  {
    hide Step, Sound, Total;
    if n > 0 {
      SupplyStaysConstant(w0, run, n - 1, t, hs);
      RunSound(w0, run, n - 1);
      var w, env, call := At(w0, run, n - 1), run[n - 1].env, run[n - 1].call;
      SoundParties(w);
      SupplyIsConserved(w, env, call, t, hs);
      PartiesAmong(w, env, call);
    }
  }

  lemma SoundParties(w: World)
    requires Sound(w)
    ensures w.store.Whole()
  {
  }

  // ---------------------------------------------------------------- authority

  /** The call that published this event was allowed to make the payment it reports: to the stored recipient, with
      the stored arbiter's authority; or to the stored depositor, with the depositor's authority and either the
      expiry or the stored arbiter's authority. Other events pay nobody but the contract. */
  ghost predicate Authorised(s: Storage, env: Env, call: Call, e: Event) {
    && (ToRecipient(e) != 0 ==>
          && (call.Release? || call.ReleasePartial?)
          && s.Initialized() && s.Whole() && !s.Sealed() && ToRecipient(e) <= s.amount.value
          && s.arbiter.value in env.auths
          && Moves(e) == (ESCROW, s.recipient.value, ToRecipient(e)))
    && (ToDepositor(e) != 0 ==>
          && (call.Refund? || call.Cancel?)
          && s.Initialized() && s.Whole() && !s.Sealed() && ToDepositor(e) == s.amount.value
          && s.depositor.value in env.auths
          && (env.now >= s.expiry.value || s.arbiter.value in env.auths)
          && Moves(e) == (ESCROW, s.depositor.value, ToDepositor(e)))
    && (ToRecipient(e) == 0 && ToDepositor(e) == 0 ==> Moves(e).1 == ESCROW || Moves(e).2 == 0)
  }

  /** Which payments a carried call can publish, and who authorised them. */
  lemma PaymentsAreAuthorised(w: World, env: Env, call: Call, e: Event)
    requires SoundStore(w.store) && Try(w, env, call).Success? && !call.Outside?
    requires Effect(w, Try(w, env, call).value, e)
    ensures Authorised(w.store, env, call, e)
  {
    var w' := Try(w, env, call).value;
    assert w'.events[|w.events|] == e;
  }

  /** Call `k` was carried out and published event number `m`. */
  ghost predicate PublishedBy(w0: World, run: seq<Entry>, k: nat, m: nat)
    requires k < |run|
  {
    Carried(w0, run, k) && |At(w0, run, k).events| == m && |At(w0, run, k + 1).events| == m + 1
  }

  /** In every run each event on record, and so each payment, was published by a call that was allowed to make it,
      by the parties stored at that time. */
  lemma {:induction false} EveryPaymentIsAuthorised(w0: World, run: seq<Entry>, n: nat, m: nat) returns (k: nat)
    requires Genesis(w0) && ValidRun(run) && n <= |run| && m < |At(w0, run, n).events|
    ensures k < n && PublishedBy(w0, run, k, m)
    ensures Authorised(At(w0, run, k).store, run[k].env, run[k].call, At(w0, run, n).events[m])
  {
    hide Authorised, Sound, Effect, Try;
    var w, env, call := At(w0, run, n - 1), run[n - 1].env, run[n - 1].call;
    RunSound(w0, run, n - 1);
    StepPublishes(w, env, call);
    if m < |w.events| {
      k := EveryPaymentIsAuthorised(w0, run, n - 1, m);
    } else {
      k := n - 1;
    }
  }

  /** A call publishes nothing, or one event it was allowed to publish. */
  lemma StepPublishes(w: World, env: Env, call: Call)
    requires Sound(w) && ESCROW !in env.auths
    ensures var before, after := w.events, Step(w, env, call).events;
            || after == before
            || (&& |after| == |before| + 1 && after[..|before|] == before
                && Try(w, env, call).Success? && Authorised(w.store, env, call, after[|before|]))
  {
    hide Authorised, Try;
    if Try(w, env, call).Success? {
      if call.Outside? {
        OutsideEffect(w, env, call);
      } else {
        var e := CarriedEffect(w, env, call);
        PaymentsAreAuthorised(w, env, call, e);
      }
    }
  }

  /** What one call that takes money out of the contract needs, and where the money goes. */
  lemma PayingStep(w: World, env: Env, call: Call, t: Address)
    requires Sound(w) && ESCROW !in env.auths
    requires Bal(Step(w, env, call).ledger, t, ESCROW) < Bal(w.ledger, t, ESCROW)
    ensures var s, w' := w.store, Step(w, env, call);
            var out := Bal(w.ledger, t, ESCROW) - Bal(w'.ledger, t, ESCROW);
            && s.Initialized() && s.token == Some(t) && !s.Sealed() && out <= s.amount.value
            && (|| ((call.Release? || call.ReleasePartial?)
                    && s.arbiter.value in env.auths
                    && Bal(w'.ledger, t, s.recipient.value) == Bal(w.ledger, t, s.recipient.value) + out)
                || ((call.Refund? || call.Cancel?)
                    && s.depositor.value in env.auths
                    && (env.now >= s.expiry.value || s.arbiter.value in env.auths)
                    && Bal(w'.ledger, t, s.depositor.value) == Bal(w.ledger, t, s.depositor.value) + out))
  {
    hide Try, Bal, Transfer;
    if call.Outside? {
      OutsideEffect(w, env, call);
      TransferEffect(w.ledger, call.tok, call.from, call.to, call.units, t, ESCROW);
    } else {
      var e := CarriedEffect(w, env, call);
      var w' := Try(w, env, call).value;
      PaymentsAreAuthorised(w, env, call, e);
      EffectOnBalance(w, w', e, t, ESCROW);
      EffectOnBalance(w, w', e, t, w'.store.recipient.value);
      EffectOnBalance(w, w', e, t, w'.store.depositor.value);
    }
  }

  /** In every run, money leaves the contract only before sealing, never more than is locked, and only to the
      recipient with the then stored arbiter's authority, or to the depositor with the depositor's authority and
      either the expiry or the then stored arbiter's authority. The payee receives all of it. */
  lemma MoneyLeavesOnlyWithAuthority(w0: World, run: seq<Entry>, k: nat, t: Address)
    requires Genesis(w0) && ValidRun(run) && k < |run|
    requires Bal(At(w0, run, k + 1).ledger, t, ESCROW) < Bal(At(w0, run, k).ledger, t, ESCROW)
    ensures var w, w', env, call := At(w0, run, k), At(w0, run, k + 1), run[k].env, run[k].call;
            var s, out := w.store, Bal(w.ledger, t, ESCROW) - Bal(w'.ledger, t, ESCROW);
            && s.Initialized() && s.Whole() && s.token == Some(t) && !s.Sealed() && out <= s.amount.value
            && (|| ((call.Release? || call.ReleasePartial?)
                    && s.arbiter.value in env.auths
                    && Bal(w'.ledger, t, s.recipient.value) == Bal(w.ledger, t, s.recipient.value) + out)
                || ((call.Refund? || call.Cancel?)
                    && s.depositor.value in env.auths
                    && (env.now >= s.expiry.value || s.arbiter.value in env.auths)
                    && Bal(w'.ledger, t, s.depositor.value) == Bal(w.ledger, t, s.depositor.value) + out))
  {
    hide Bal, Try, Step;
    RunSound(w0, run, k);
    assert At(w0, run, k + 1) == Step(At(w0, run, k), run[k].env, run[k].call);
    PayingStep(At(w0, run, k), run[k].env, run[k].call, t);
  }

  lemma SealedStep(w: World, env: Env, call: Call)
    requires SoundStore(w.store) && ESCROW !in env.auths && w.store.Sealed()
    ensures var w' := Step(w, env, call);
            && w'.store.Sealed() && w'.store.amount == w.store.amount
            && Sum(w'.events, ToRecipient) == Sum(w.events, ToRecipient)
            && Sum(w'.events, ToDepositor) == Sum(w.events, ToDepositor)
            && (!call.Outside? ==> w'.ledger == w.ledger)
  {
    if Try(w, env, call).Success? && !call.Outside? {
      var e := Try(w, env, call).value.events[|w.events|];
      SumAppend(w.events, e, ToRecipient);
      SumAppend(w.events, e, ToDepositor);
    }
  }

  /** Once sealed, later calls of the contract move no money and change neither the amount nor the seal. */
  lemma {:induction false} SealedForever(w0: World, run: seq<Entry>, m: nat, n: nat)
    requires Genesis(w0) && ValidRun(run) && m <= n <= |run|
    requires At(w0, run, m).store.Sealed()
    ensures At(w0, run, n).store.Sealed() && At(w0, run, n).store.amount == At(w0, run, m).store.amount
    ensures Sum(At(w0, run, n).events, ToRecipient) == Sum(At(w0, run, m).events, ToRecipient)
    ensures Sum(At(w0, run, n).events, ToDepositor) == Sum(At(w0, run, m).events, ToDepositor)
    ensures forall k | m <= k < n && !run[k].call.Outside? :: At(w0, run, k + 1).ledger == At(w0, run, k).ledger
  {
    hide Step, Sum, SoundStore;
    if m < n {
      SealedForever(w0, run, m, n - 1);
      RunSound(w0, run, n - 1);
      SealedStep(At(w0, run, n - 1), run[n - 1].env, run[n - 1].call);
    }
  }
}
