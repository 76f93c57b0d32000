/** The escrow contract: instance storage, entry points and the meaning of one call.
    A panic rolls the whole call back, so a call either commits a new world or leaves it as it was. */
module Escrow {
  import opened Outcome
  import opened TokenLedger

  const U64_MAX: nat := 0xFFFF_FFFF_FFFF_FFFF
  type U64 = n: nat | n <= U64_MAX
  type I128 = x: int | -I128_MAX - 1 <= x <= I128_MAX

  /** Seconds between proposing an arbiter and accepting it. */
  const MIN_ROTATION_DELAY: nat := 86_400

  /** The contract's own address. */
  const ESCROW: Address := 0

  datatype Error =
    | AlreadyInitialized | AlreadyReleased | NotExpired | NotArbiter | NotDepositor
    | InvalidAmount | InvalidExpiry | NotInitialized | InvalidParties | RotationLocked | NoPendingRotation
    // panics without a contract error code
    | StateCorrupted | Unauthorized | TransferFailed | DeadlineOverflow

  datatype Reply = Done | Panicked(error: Error)

  /** Instance storage, one optional value per storage key. */
  datatype Storage = Storage(
    depositor: Option<Address>,
    recipient: Option<Address>,
    arbiter: Option<Address>,
    token: Option<Address>,
    amount: Option<I128>,
    expiry: Option<U64>,
    released: Option<bool>,
    initializedAt: Option<U64>,
    pendingArbiter: Option<Address>,
    pendingArbiterTime: Option<U64>)
  {
    predicate Initialized() { depositor.Some? }

    /** `initialize` writes eight keys together, the rotation calls write or remove two together. */
    predicate Whole() {
      && (if depositor.Some?
          then recipient.Some? && arbiter.Some? && token.Some? && amount.Some? && expiry.Some?
               && released.Some? && initializedAt.Some?
          else recipient.None? && arbiter.None? && token.None? && amount.None? && expiry.None?
               && released.None? && initializedAt.None? && pendingArbiter.None?)
      && (pendingArbiter.Some? <==> pendingArbiterTime.Some?)
    }

    predicate Sealed() { released == Some(true) }
  }

  const EMPTY := Storage(None, None, None, None, None, None, None, None, None, None)

  datatype Event =
    | Initialized(depositor: Address, recipient: Address, amount: int)
    | Released(recipient: Address, amount: int)
    | LastPartReleased(recipient: Address, amount: int)
    | PartialReleased(recipient: Address, amount: int, remaining: int)
    | Refunded(depositor: Address, amount: int)
    | Cancelled(depositor: Address, amount: int)
    | RotationProposed(depositor: Address, newArbiter: Address, at: nat)
    | RotationAccepted(newArbiter: Address, at: nat)

  datatype World = World(store: Storage, ledger: Ledger, events: seq<Event>)

  /** Ledger time and the addresses that authorised the call. */
  datatype Env = Env(now: U64, auths: set<Address>)

  datatype Call =
    | Initialize(depositor: Address, recipient: Address, arbiter: Address, token: Address, amount: I128, expiry: U64)
    | Release(arbiter: Address)
    | ReleasePartial(arbiter: Address, part: I128)
    | Refund(depositor: Address)
    | Cancel(depositor: Address, arbiter: Address)
    | Propose(depositor: Address, newArbiter: Address)
    | Accept
    // token traffic that does not go through the escrow
    | Outside(tok: Address, from: Address, to: Address, units: I128)

  type Attempt = Result<World, Error>

  /** Moves `amount` out of the escrow, or fails as a whole. */
  function PayOut(w: World, store: Storage, to: Address, amount: int, event: Event): Attempt
    requires store.token.Some?
  {
    match Transfer(w.ledger, store.token.value, ESCROW, to, amount)
    case None => Failure(TransferFailed)
    case Some(ledger) => Success(World(store, ledger, w.events + [event]))
  }

  function DoInitialize(w: World, env: Env, depositor: Address, recipient: Address, arbiter: Address,
                        token: Address, amount: I128, expiry: U64): Attempt
  {
    if w.store.Initialized() then Failure(AlreadyInitialized)
    else if depositor !in env.auths then Failure(Unauthorized)
    else if depositor == arbiter || depositor == recipient || arbiter == recipient then Failure(InvalidParties)
    else if amount <= 0 || amount > I128_MAX / 2 then Failure(InvalidAmount)
    else if expiry <= env.now then Failure(InvalidExpiry)
    else
      match Transfer(w.ledger, token, depositor, ESCROW, amount)
      case None => Failure(TransferFailed)
      case Some(ledger) =>
        Success(World(
                  Storage(Some(depositor), Some(recipient), Some(arbiter), Some(token), Some(amount), Some(expiry),
                          Some(false), Some(env.now), w.store.pendingArbiter, w.store.pendingArbiterTime),
                  ledger, w.events + [Event.Initialized(depositor, recipient, amount)]))
  }

  function DoRelease(w: World, env: Env, arbiter: Address): Attempt {
    var s := w.store;
    if s.arbiter.None? then Failure(StateCorrupted)
    else if s.arbiter.value !in env.auths then Failure(Unauthorized)
    else if arbiter != s.arbiter.value then Failure(NotArbiter)
    else if s.Sealed() then Failure(AlreadyReleased)
    else if s.token.None? || s.amount.None? || s.recipient.None? then Failure(StateCorrupted)
    else PayOut(w, s.(released := Some(true)), s.recipient.value, s.amount.value,
                Event.Released(s.recipient.value, s.amount.value))
  }

  function DoReleasePartial(w: World, env: Env, arbiter: Address, part: I128): Attempt {
    var s := w.store;
    if s.arbiter.None? then Failure(StateCorrupted)
    else if s.arbiter.value !in env.auths then Failure(Unauthorized)
    else if arbiter != s.arbiter.value then Failure(NotArbiter)
    else if s.Sealed() then Failure(AlreadyReleased)
    else if s.amount.None? then Failure(StateCorrupted)
    else if part <= 0 || part > s.amount.value then Failure(InvalidAmount)
    else if s.token.None? || s.recipient.None? then Failure(StateCorrupted)
    else
      var remaining: I128 := s.amount.value - part;
      if remaining == 0
      then PayOut(w, s.(amount := Some(remaining), released := Some(true)), s.recipient.value, part,
                  LastPartReleased(s.recipient.value, part))
      else PayOut(w, s.(amount := Some(remaining)), s.recipient.value, part,
                  PartialReleased(s.recipient.value, part, remaining))
  }

  function DoRefund(w: World, env: Env, depositor: Address): Attempt {
    var s := w.store;
    if s.depositor.None? then Failure(StateCorrupted)
    else if s.depositor.value !in env.auths then Failure(Unauthorized)
    else if depositor != s.depositor.value then Failure(NotDepositor)
    else if s.Sealed() then Failure(AlreadyReleased)
    else if s.expiry.None? then Failure(StateCorrupted)
    else if env.now < s.expiry.value then Failure(NotExpired)
    else if s.token.None? || s.amount.None? then Failure(StateCorrupted)
    else PayOut(w, s.(released := Some(true)), s.depositor.value, s.amount.value,
                Refunded(s.depositor.value, s.amount.value))
  }

  function DoCancel(w: World, env: Env, depositor: Address, arbiter: Address): Attempt {
    var s := w.store;
    if s.depositor.None? || s.arbiter.None? then Failure(StateCorrupted)
    else if s.depositor.value !in env.auths || s.arbiter.value !in env.auths then Failure(Unauthorized)
    else if depositor != s.depositor.value then Failure(NotDepositor)
    else if arbiter != s.arbiter.value then Failure(NotArbiter)
    else if s.Sealed() then Failure(AlreadyReleased)
    else if s.token.None? || s.amount.None? then Failure(StateCorrupted)
    else PayOut(w, s.(released := Some(true)), s.depositor.value, s.amount.value,
                Cancelled(s.depositor.value, s.amount.value))
  }

  function DoPropose(w: World, env: Env, depositor: Address, newArbiter: Address): Attempt {
    var s := w.store;
    if s.depositor.None? then Failure(StateCorrupted)
    else if s.depositor.value !in env.auths then Failure(Unauthorized)
    else if depositor != s.depositor.value then Failure(NotDepositor)
    else Success(w.(store := s.(pendingArbiter := Some(newArbiter), pendingArbiterTime := Some(env.now)),
                    events := w.events + [RotationProposed(depositor, newArbiter, env.now)]))
  }

  function DoAccept(w: World, env: Env): Attempt {
    var s := w.store;
    if s.pendingArbiter.None? then Failure(NoPendingRotation)
    else if s.pendingArbiterTime.None? then Failure(StateCorrupted)
    else if s.pendingArbiterTime.value + MIN_ROTATION_DELAY > U64_MAX then Failure(DeadlineOverflow)
    else if env.now < s.pendingArbiterTime.value + MIN_ROTATION_DELAY then Failure(RotationLocked)
    else Success(w.(store := s.(arbiter := s.pendingArbiter, pendingArbiter := None, pendingArbiterTime := None),
                    events := w.events + [RotationAccepted(s.pendingArbiter.value, env.now)]))
  }

  function DoOutside(w: World, env: Env, token: Address, from: Address, to: Address, units: I128): Attempt {
    if from !in env.auths then Failure(Unauthorized)
    else
      match Transfer(w.ledger, token, from, to, units)
      case None => Failure(TransferFailed)
      case Some(ledger) => Success(w.(ledger := ledger))
  }

  function Try(w: World, env: Env, call: Call): Attempt {
    match call
    case Initialize(d, r, a, t, amount, expiry) => DoInitialize(w, env, d, r, a, t, amount, expiry)
    case Release(a) => DoRelease(w, env, a)
    case ReleasePartial(a, part) => DoReleasePartial(w, env, a, part)
    case Refund(d) => DoRefund(w, env, d)
    case Cancel(d, a) => DoCancel(w, env, d, a)
    case Propose(d, n) => DoPropose(w, env, d, n)
    case Accept => DoAccept(w, env)
    case Outside(t, f, to, units) => DoOutside(w, env, t, f, to, units)
  }

  function Step(w: World, env: Env, call: Call): World {
    match Try(w, env, call)
    case Success(w') => w'
    case Failure(_) => w
  }

  function ReplyTo(a: Attempt): Reply {
    match a
    case Success(_) => Done
    case Failure(e) => Panicked(e)
  }

  /** What the stored state returned by `get_state` looks like. */
  datatype EscrowState = EscrowState(depositor: Address, recipient: Address, arbiter: Address, token: Address,
                                     amount: int, expiry: nat, released: bool, initializedAt: nat)

  /** The deployed contract. */
  class EscrowContract {
    var store: Storage
    var ledger: Ledger
    var events: seq<Event>

    ghost function Now(): World
      reads this
    {
      World(store, ledger, events)
    }

    constructor (ledger: Ledger)
      ensures Now() == World(EMPTY, ledger, [])
    {
      this.store, this.ledger, this.events := EMPTY, ledger, [];
    }

    /** One token transfer; nothing changes when it fails. */
    method TransferTokens(token: Address, from: Address, to: Address, amount: int) returns (ok: bool)
      modifies this`ledger
      ensures ok <==> Transfer(old(ledger), token, from, to, amount).Some?
      ensures ledger == if ok then Transfer(old(ledger), token, from, to, amount).value else old(ledger)
    {
      if amount < 0 || Bal(ledger, token, from) < amount {
        return false;
      }
      var debited := Set(ledger, token, from, Bal(ledger, token, from) - amount);
      if Bal(debited, token, to) + amount > I128_MAX {
        return false;
      }
      ledger := Set(debited, token, to, Bal(debited, token, to) + amount);
      return true;
    }

    method Initialize(env: Env, depositor: Address, recipient: Address, arbiter: Address,
                      token: Address, amount: I128, expiry: U64) returns (r: Reply)
      modifies this
      ensures r == ReplyTo(Try(old(Now()), env, Call.Initialize(depositor, recipient, arbiter, token, amount, expiry)))
      ensures Now() == Step(old(Now()), env, Call.Initialize(depositor, recipient, arbiter, token, amount, expiry))
    {
      if store.depositor.Some? { return Panicked(AlreadyInitialized); }
      if depositor !in env.auths { return Panicked(Unauthorized); }
      if depositor == arbiter { return Panicked(InvalidParties); }
      if depositor == recipient { return Panicked(InvalidParties); }
      if arbiter == recipient { return Panicked(InvalidParties); }
      if amount <= 0 { return Panicked(InvalidAmount); }
      if amount > I128_MAX / 2 { return Panicked(InvalidAmount); }
      if expiry <= env.now { return Panicked(InvalidExpiry); }
      var ok := TransferTokens(token, depositor, ESCROW, amount);
      if !ok { return Panicked(TransferFailed); }
      store := store.(depositor := Some(depositor));
      store := store.(recipient := Some(recipient));
      store := store.(arbiter := Some(arbiter));
      store := store.(token := Some(token));
      store := store.(amount := Some(amount));
      store := store.(expiry := Some(expiry));
      store := store.(released := Some(false));
      store := store.(initializedAt := Some(env.now));
      events := events + [Event.Initialized(depositor, recipient, amount)];
      return Done;
    }

    method Release(env: Env, arbiter: Address) returns (r: Reply)
      modifies this
      ensures r == ReplyTo(Try(old(Now()), env, Call.Release(arbiter)))
      ensures Now() == Step(old(Now()), env, Call.Release(arbiter))
    {
      if store.arbiter.None? { return Panicked(StateCorrupted); }
      if store.arbiter.value !in env.auths { return Panicked(Unauthorized); }
      if arbiter != store.arbiter.value { return Panicked(NotArbiter); }
      if store.released == Some(true) { return Panicked(AlreadyReleased); }
      if store.token.None? || store.amount.None? || store.recipient.None? { return Panicked(StateCorrupted); }
      var before := store;
      store := store.(released := Some(true));
      var ok := TransferTokens(store.token.value, ESCROW, store.recipient.value, store.amount.value);
      if !ok {
        store := before;
        return Panicked(TransferFailed);
      }
      events := events + [Event.Released(store.recipient.value, store.amount.value)];
      return Done;
    }

    method ReleasePartial(env: Env, arbiter: Address, part: I128) returns (r: Reply)
      modifies this
      ensures r == ReplyTo(Try(old(Now()), env, Call.ReleasePartial(arbiter, part)))
      ensures Now() == Step(old(Now()), env, Call.ReleasePartial(arbiter, part))
    {
      if store.arbiter.None? { return Panicked(StateCorrupted); }
      if store.arbiter.value !in env.auths { return Panicked(Unauthorized); }
      if arbiter != store.arbiter.value { return Panicked(NotArbiter); }
      if store.released == Some(true) { return Panicked(AlreadyReleased); }
      if store.amount.None? { return Panicked(StateCorrupted); }
      if part <= 0 || part > store.amount.value { return Panicked(InvalidAmount); }
      if store.token.None? || store.recipient.None? { return Panicked(StateCorrupted); }
      var before := store;
      var remaining: I128 := store.amount.value - part;
      store := store.(amount := Some(remaining));
      var ok := TransferTokens(store.token.value, ESCROW, store.recipient.value, part);
      if !ok {
        store := before;
        return Panicked(TransferFailed);
      }
      if remaining == 0 {
        store := store.(released := Some(true));
        events := events + [LastPartReleased(store.recipient.value, part)];
      } else {
        events := events + [PartialReleased(store.recipient.value, part, remaining)];
      }
      return Done;
    }

    method Refund(env: Env, depositor: Address) returns (r: Reply)
      modifies this
      ensures r == ReplyTo(Try(old(Now()), env, Call.Refund(depositor)))
      ensures Now() == Step(old(Now()), env, Call.Refund(depositor))
    {
      if store.depositor.None? { return Panicked(StateCorrupted); }
      if store.depositor.value !in env.auths { return Panicked(Unauthorized); }
      if depositor != store.depositor.value { return Panicked(NotDepositor); }
      if store.released == Some(true) { return Panicked(AlreadyReleased); }
      if store.expiry.None? { return Panicked(StateCorrupted); }
      if env.now < store.expiry.value { return Panicked(NotExpired); }
      if store.token.None? || store.amount.None? { return Panicked(StateCorrupted); }
      var before := store;
      store := store.(released := Some(true));
      var ok := TransferTokens(store.token.value, ESCROW, store.depositor.value, store.amount.value);
      if !ok {
        store := before;
        return Panicked(TransferFailed);
      }
      events := events + [Refunded(store.depositor.value, store.amount.value)];
      return Done;
    }

    method Cancel(env: Env, depositor: Address, arbiter: Address) returns (r: Reply)
      modifies this
      ensures r == ReplyTo(Try(old(Now()), env, Call.Cancel(depositor, arbiter)))
      ensures Now() == Step(old(Now()), env, Call.Cancel(depositor, arbiter))
    {
      if store.depositor.None? || store.arbiter.None? { return Panicked(StateCorrupted); }
      if store.depositor.value !in env.auths { return Panicked(Unauthorized); }
      if store.arbiter.value !in env.auths { return Panicked(Unauthorized); }
      if depositor != store.depositor.value { return Panicked(NotDepositor); }
      if arbiter != store.arbiter.value { return Panicked(NotArbiter); }
      if store.released == Some(true) { return Panicked(AlreadyReleased); }
      if store.token.None? || store.amount.None? { return Panicked(StateCorrupted); }
      var before := store;
      store := store.(released := Some(true));
      var ok := TransferTokens(store.token.value, ESCROW, store.depositor.value, store.amount.value);
      if !ok {
        store := before;
        return Panicked(TransferFailed);
      }
      events := events + [Cancelled(store.depositor.value, store.amount.value)];
      return Done;
    }

    method ProposeNewArbiter(env: Env, depositor: Address, newArbiter: Address) returns (r: Reply)
      modifies this
      ensures r == ReplyTo(Try(old(Now()), env, Propose(depositor, newArbiter)))
      ensures Now() == Step(old(Now()), env, Propose(depositor, newArbiter))
    {
      if store.depositor.None? { return Panicked(StateCorrupted); }
      if store.depositor.value !in env.auths { return Panicked(Unauthorized); }
      if depositor != store.depositor.value { return Panicked(NotDepositor); }
      store := store.(pendingArbiter := Some(newArbiter));
      store := store.(pendingArbiterTime := Some(env.now));
      events := events + [RotationProposed(depositor, newArbiter, env.now)];
      return Done;
    }

    method AcceptArbiterRotation(env: Env) returns (r: Reply)
      modifies this
      ensures r == ReplyTo(Try(old(Now()), env, Accept))
      ensures Now() == Step(old(Now()), env, Accept)
    {
      if store.pendingArbiter.None? { return Panicked(NoPendingRotation); }
      if store.pendingArbiterTime.None? { return Panicked(StateCorrupted); }
      var lockExpires := store.pendingArbiterTime.value + MIN_ROTATION_DELAY;
      if lockExpires > U64_MAX { return Panicked(DeadlineOverflow); }
      if env.now < lockExpires { return Panicked(RotationLocked); }
      var newArbiter := store.pendingArbiter.value;
      store := store.(arbiter := Some(newArbiter));
      store := store.(pendingArbiter := None);
      store := store.(pendingArbiterTime := None);
      events := events + [RotationAccepted(newArbiter, env.now)];
      return Done;
    }

    method GetState() returns (r: Result<EscrowState, Error>)
      ensures store.depositor.None? ==> r == Failure(NotInitialized)
      ensures store.depositor.Some? && store.Whole() ==> r.Success?
      ensures r.Success? ==>
                && store.depositor == Some(r.value.depositor) && store.recipient == Some(r.value.recipient)
                && store.arbiter == Some(r.value.arbiter) && store.token == Some(r.value.token)
                && store.amount == Some(r.value.amount) && store.expiry == Some(r.value.expiry)
                && store.initializedAt == Some(r.value.initializedAt)
                && (r.value.released <==> store.Sealed())
    {
      if store.depositor.None? { return Failure(NotInitialized); }
      if store.recipient.None? || store.arbiter.None? || store.token.None? || store.amount.None?
         || store.expiry.None? || store.initializedAt.None? {
        return Failure(StateCorrupted);
      }
      return Success(EscrowState(store.depositor.value, store.recipient.value, store.arbiter.value, store.token.value,
                                 store.amount.value, store.expiry.value, store.released == Some(true),
                                 store.initializedAt.value));
    }
  }
}
