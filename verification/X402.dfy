/** The x402 payment tool: a fixed-window rate gate and replay protection by used nonces. */
module X402 {
  import opened NonceStore

  const RATE_LIMIT_WINDOW_MS: nat := 60_000

  datatype Config = Config(maxPerMinute: nat, ttlMs: int)

  /** One call of `respond`: the challenge, whether the unseen parts succeed, and the clock readings in order. */
  datatype Input = Input(
    now: int,             // rate gate
    wellFormed: bool,     // schema, destination and origin checks pass
    nonce: string,
    expiresAt: int,
    checkedAt: int,       // expiry check and nonce lookup
    paymentWorks: bool,
    addedAt: int,         // pruning inside `add`
    recordedAt: int,      // the time stored with the nonce
    prunedAt: int)        // the opportunistic pruning afterwards

  datatype Reply = RateLimited | Malformed | Expired | NonceUsed | PaymentFailed | Paid

  datatype State = State(paymentCount: nat, windowStart: int, nonces: Nonces)

  function PassGate(c: Config, s: State, now: int): (State, bool) {
    var s' := if now - s.windowStart >= RATE_LIMIT_WINDOW_MS then s.(paymentCount := 0, windowStart := now) else s;
    if s'.paymentCount >= c.maxPerMinute then (s', false)
    else (s'.(paymentCount := s'.paymentCount + 1), true)
  }

  function Pay(c: Config, m: Nonces, i: Input): (Nonces, Reply) {
    if !i.wellFormed then (m, Malformed)
    else if i.expiresAt < i.checkedAt then (m, Expired)
    else
      var looked := Prune(m, i.checkedAt - c.ttlMs);
      if i.nonce in looked then (looked, NonceUsed)
      else if !i.paymentWorks then (looked, PaymentFailed)
      else
        var recorded := Add(Prune(looked, i.addedAt - c.ttlMs), i.nonce, i.recordedAt);
        (Prune(recorded, i.prunedAt - MAX_NONCE_TTL_MS), Paid)
  }

  function Respond(c: Config, s: State, i: Input): (State, Reply) {
    var (gated, admitted) := PassGate(c, s, i.now);
    if !admitted then (gated, RateLimited)
    else
      var (nonces, reply) := Pay(c, gated.nonces, i);
      (gated.(nonces := nonces), reply)
  }

  class X402PaymentTool {
    const config: Config
    const store: Store
    var paymentCount: nat
    var windowStart: int

    ghost function Now(): State
      reads this, store.Repr()
    {
      State(paymentCount, windowStart, store.Contents())
    }

    constructor (config: Config, store: Store, now: int)
      ensures this.config == config && this.store == store
      ensures Now() == State(0, now, store.Contents())
    {
      this.config, this.store, paymentCount, windowStart := config, store, 0, now;
    }

    method Answer(i: Input) returns (r: Reply)
      requires store.Valid() && store.Ttl() == config.ttlMs
      modifies this, store.Repr()
      ensures store.Valid() && (Now(), r) == Respond(config, old(Now()), i)
    {
      if i.now - windowStart >= RATE_LIMIT_WINDOW_MS {
        paymentCount := 0;
        windowStart := i.now;
      }
      if paymentCount >= config.maxPerMinute { return RateLimited; }
      paymentCount := paymentCount + 1;
      if !i.wellFormed { return Malformed; }
      if i.expiresAt < i.checkedAt { return Expired; }
      var used := store.Has(i.nonce, i.checkedAt);
      if used { return NonceUsed; }
      if !i.paymentWorks { return PaymentFailed; }
      store.Record(i.nonce, i.addedAt, i.recordedAt);
      store.PruneOlderThan(MAX_NONCE_TTL_MS, i.prunedAt);
      return Paid;
    }
  }

  // ---------------------------------------------------------------- runs

  function At(c: Config, s0: State, run: seq<Input>, n: nat): State
    requires n <= |run|
  {
    if n == 0 then s0 else Respond(c, At(c, s0, run, n - 1), run[n - 1]).0
  }

  function ReplyAt(c: Config, s0: State, run: seq<Input>, k: nat): Reply
    requires k < |run|
  {
    Respond(c, At(c, s0, run, k), run[k]).1
  }

  ghost predicate Ordered(i: Input) {
    i.now <= i.checkedAt <= i.addedAt <= i.recordedAt <= i.prunedAt
  }

  /** The clock is monotone, and one call ends before the next begins. */
  ghost predicate Timed(run: seq<Input>) {
    && (forall k | 0 <= k < |run| :: Ordered(run[k]))
    && (forall i, j | 0 <= i < j < |run| :: run[i].prunedAt <= run[j].now)
  }

  /** A tool that has just been built. */
  ghost predicate Fresh(s0: State, run: seq<Input>) {
    s0.paymentCount == 0 && forall k | 0 <= k < |run| :: s0.windowStart <= run[k].now
  }

  // ---------------------------------------------------------------- replay

  /** How long after its recording a nonce is certainly kept. */
  function Kept(c: Config): int {
    if c.ttlMs < MAX_NONCE_TTL_MS then c.ttlMs else MAX_NONCE_TTL_MS
  }

  lemma PaymentRecords(c: Config, s: State, i: Input)
    requires Ordered(i) && Respond(c, s, i).1 == Paid && c.ttlMs >= 0
    requires i.prunedAt <= i.recordedAt + Kept(c)
    ensures i.nonce in Respond(c, s, i).0.nonces && Respond(c, s, i).0.nonces[i.nonce] == i.recordedAt
  {
  }

  lemma StepKeepsNonce(c: Config, s: State, i: Input, nonce: string, recordedAt: int)
    requires Ordered(i) && c.ttlMs >= 0
    requires nonce in s.nonces && s.nonces[nonce] == recordedAt
    requires i.prunedAt <= recordedAt + Kept(c)
    ensures nonce in Respond(c, s, i).0.nonces && Respond(c, s, i).0.nonces[nonce] == recordedAt
  {
  }

  lemma {:induction false} NonceIsKept(c: Config, s0: State, run: seq<Input>, i: nat, n: nat)
    requires Timed(run) && i < n <= |run| && c.ttlMs >= 0
    requires ReplyAt(c, s0, run, i) == Paid
    requires forall k | i <= k < n :: run[k].prunedAt <= run[i].recordedAt + Kept(c)
    ensures run[i].nonce in At(c, s0, run, n).nonces
    ensures At(c, s0, run, n).nonces[run[i].nonce] == run[i].recordedAt
  {
    if n == i + 1 {
      PaymentRecords(c, At(c, s0, run, i), run[i]);
    } else {
      NonceIsKept(c, s0, run, i, n - 1);
      StepKeepsNonce(c, At(c, s0, run, n - 1), run[n - 1], run[i].nonce, run[i].recordedAt);
    }
  }

  /** A paid nonce is not paid again, as long as the challenge presented later expires no later than the
      recording plus the time nonces are kept: pruning can drop it only after that challenge has expired. */
  lemma NoNonceIsPaidTwice(c: Config, s0: State, run: seq<Input>, i: nat, j: nat)
    requires Timed(run) && i < j < |run| && c.ttlMs >= 0
    requires run[i].nonce == run[j].nonce && ReplyAt(c, s0, run, i) == Paid
    requires run[j].expiresAt <= run[i].recordedAt + Kept(c)
    ensures ReplyAt(c, s0, run, j) != Paid
  {
    if run[j].checkedAt <= run[j].expiresAt {
      NonceIsKept(c, s0, run, i, j);
      UsedNonceIsRefused(c, At(c, s0, run, j), run[j]);
    } else {
      ExpiredIsRefused(c, At(c, s0, run, j), run[j]);
    }
  }

  lemma ExpiredIsRefused(c: Config, s: State, i: Input)
    requires i.expiresAt < i.checkedAt
    ensures Respond(c, s, i).1 != Paid
  {
  }

  lemma UsedNonceIsRefused(c: Config, s: State, i: Input)
    requires i.nonce in s.nonces && i.checkedAt <= s.nonces[i.nonce] + c.ttlMs
    ensures Respond(c, s, i).1 != Paid
  {
  }

  lemma StepRecordsNothingElse(c: Config, s: State, i: Input, nonce: string)
    requires !(Respond(c, s, i).1 == Paid && i.nonce == nonce)
    ensures var m := Respond(c, s, i).0.nonces;
            nonce in m ==> nonce in s.nonces && m[nonce] == s.nonces[nonce]
  {
  }

  /** Call `i` paid a nonce that no other call before call `n` paid again. */
  ghost predicate LastPayment(c: Config, s0: State, run: seq<Input>, i: nat, n: nat)
    requires n <= |run|
  {
    && i < n
    && ReplyAt(c, s0, run, i) == Paid
    && (forall k | i < k < n :: !(ReplyAt(c, s0, run, k) == Paid && run[k].nonce == run[i].nonce))
  }

  /** No clean-up after a payment, from call `i` up to call `n`, swept away what call `i` recorded. */
  ghost predicate NotSwept(c: Config, s0: State, run: seq<Input>, i: nat, n: nat)
    requires i < n <= |run|
  {
    forall k | i <= k < n && ReplyAt(c, s0, run, k) == Paid ::
      run[k].prunedAt <= run[i].recordedAt + MAX_NONCE_TTL_MS
  }

  /** A paid nonce is on record with the time of its last payment. */
  ghost predicate OnRecord(c: Config, s0: State, run: seq<Input>, i: nat, n: nat)
    requires i < n <= |run|
  {
    var m := At(c, s0, run, n).nonces;
    run[i].nonce in m && m[run[i].nonce] == run[i].recordedAt
  }

  /** What one call does to a nonce on record that it does not pay, while the configured lifetime lasts. */
  lemma StepSweeps(c: Config, s: State, i: Input, nonce: string)
    requires Ordered(i) && c.ttlMs >= 0 && nonce in s.nonces
    requires !(Respond(c, s, i).1 == Paid && i.nonce == nonce)
    requires i.prunedAt <= s.nonces[nonce] + c.ttlMs
    ensures nonce in Respond(c, s, i).0.nonces
       <==> (Respond(c, s, i).1 == Paid ==> i.prunedAt <= s.nonces[nonce] + MAX_NONCE_TTL_MS)
  {
  }

  lemma PaymentSweeps(c: Config, s: State, i: Input)
    requires Ordered(i) && c.ttlMs >= 0 && Respond(c, s, i).1 == Paid
    ensures var m := Respond(c, s, i).0.nonces;
            && (i.nonce in m <==> i.prunedAt <= i.recordedAt + MAX_NONCE_TTL_MS)
            && (i.nonce in m ==> m[i.nonce] == i.recordedAt)
  {
  }

  /** While the configured lifetime lasts, the nonce last paid by call `i` is on record if and only if no
      clean-up swept it; what is stored about it is always the time of that payment. */
  lemma {:induction false} StoredIffNotSwept(c: Config, s0: State, run: seq<Input>, i: nat, n: nat)
    requires Timed(run) && n <= |run| && c.ttlMs >= 0 && LastPayment(c, s0, run, i, n)
    requires forall k | i < k < n :: run[k].prunedAt <= run[i].recordedAt + c.ttlMs
    ensures run[i].nonce in At(c, s0, run, n).nonces <==> NotSwept(c, s0, run, i, n)
    ensures run[i].nonce in At(c, s0, run, n).nonces ==> OnRecord(c, s0, run, i, n)
  {
    hide Respond;
    if n == i + 1 {
      PaymentSweeps(c, At(c, s0, run, i), run[i]);
    } else {
      StoredIffNotSwept(c, s0, run, i, n - 1);
      assert !(ReplyAt(c, s0, run, n - 1) == Paid && run[n - 1].nonce == run[i].nonce);
      StepRecordsNothingElse(c, At(c, s0, run, n - 1), run[n - 1], run[i].nonce);
      if run[i].nonce in At(c, s0, run, n - 1).nonces {
        StepSweeps(c, At(c, s0, run, n - 1), run[n - 1], run[i].nonce);
      }
    }
  }

  /** What is stored about a paid nonce, as long as it is stored, is when its last payment was recorded. */
  lemma {:induction false} RecordIsOfLastPayment(c: Config, s0: State, run: seq<Input>, i: nat, n: nat)
    requires Timed(run) && n <= |run| && c.ttlMs >= 0 && LastPayment(c, s0, run, i, n)
    requires run[i].nonce in At(c, s0, run, n).nonces
    ensures OnRecord(c, s0, run, i, n)
  {
    if n > i + 1 {
      assert !(ReplyAt(c, s0, run, n - 1) == Paid && run[n - 1].nonce == run[i].nonce);
      StepRecordsNothingElse(c, At(c, s0, run, n - 1), run[n - 1], run[i].nonce);
      RecordIsOfLastPayment(c, s0, run, i, n - 1);
    } else {
      PaymentSweeps(c, At(c, s0, run, i), run[i]);
    }
  }

  /** In every run, for every lifetime, an admitted, well-formed, unexpired challenge whose nonce was paid before
      is refused as used if and only if the lifetime since the last payment lasts and no clean-up after a payment
      swept that nonce. Otherwise a working payment is made again. */
  lemma {:induction false} ReplayRefusedExactly(c: Config, s0: State, run: seq<Input>, i: nat, j: nat)
    requires Timed(run) && j < |run| && c.ttlMs >= 0 && LastPayment(c, s0, run, i, j)
    requires run[j].nonce == run[i].nonce
    requires PassGate(c, At(c, s0, run, j), run[j].now).1
    requires run[j].wellFormed && run[j].checkedAt <= run[j].expiresAt
    ensures var refused := run[j].checkedAt <= run[i].recordedAt + c.ttlMs && NotSwept(c, s0, run, i, j);
            && (ReplyAt(c, s0, run, j) == NonceUsed <==> refused)
            && (ReplyAt(c, s0, run, j) == Paid <==> run[j].paymentWorks && !refused)
  {
    if run[j].checkedAt <= run[i].recordedAt + c.ttlMs {
      assert run[j].now <= run[j].checkedAt by { assert Ordered(run[j]); }
      StoredIffNotSwept(c, s0, run, i, j);
    } else if run[i].nonce in At(c, s0, run, j).nonces {
      RecordIsOfLastPayment(c, s0, run, i, j);
    }
  }

  /** Up to the shorter of the two lifetimes nothing is swept, so with a configured lifetime of at most the
      maximum the lifetime alone decides. */
  lemma {:induction false} KeptIsNotSwept(c: Config, s0: State, run: seq<Input>, i: nat, j: nat)
    requires Timed(run) && i < j < |run| && ReplyAt(c, s0, run, i) == Paid
    requires run[j].checkedAt <= run[i].recordedAt + Kept(c)
    ensures NotSwept(c, s0, run, i, j)
  {
    assert Ordered(run[j]);
  }

  /** An input for `ReplayRefusedExactly`: with the default lifetime of a day, a challenge that is valid for a
      week is paid a second time once the day is over. */
  lemma LongChallengeIsPaidTwice() returns (c: Config, s0: State, run: seq<Input>)
    ensures c.ttlMs == MAX_NONCE_TTL_MS == 86_400_000 && Timed(run) && Fresh(s0, run) && |run| == 2
    ensures run[0].nonce == run[1].nonce && run[0].expiresAt == run[1].expiresAt
    ensures ReplyAt(c, s0, run, 0) == Paid && ReplyAt(c, s0, run, 1) == Paid
  {
    var day := MAX_NONCE_TTL_MS;
    c, s0 := Config(10, day), State(0, 0, map[]);
    run := [Input(0, true, "n", 7 * day, 0, true, 0, 0, 0),
            Input(day + 1, true, "n", 7 * day, day + 1, true, day + 1, day + 1, day + 1)];
    assert At(c, s0, run, 0) == s0;
    assert At(c, s0, run, 1) == Respond(c, s0, run[0]).0;
    assert ReplyAt(c, s0, run, 0) == Paid;
    ReplayRefusedExactly(c, s0, run, 0, 1);
  }

  /** With a longer lifetime it is a clean-up after some other payment that lets the nonce be paid again. */
  lemma SweptNonceIsPaidTwice() returns (c: Config, s0: State, run: seq<Input>)
    ensures c.ttlMs > MAX_NONCE_TTL_MS && Timed(run) && Fresh(s0, run) && |run| == 3
    ensures run[0].nonce == run[2].nonce && run[2].checkedAt <= run[0].recordedAt + c.ttlMs
    ensures ReplyAt(c, s0, run, 0) == Paid && ReplyAt(c, s0, run, 2) == Paid
  {
    var day := MAX_NONCE_TTL_MS;
    c, s0 := Config(10, 7 * day), State(0, 0, map[]);
    run := [Input(0, true, "n", 7 * day, 0, true, 0, 0, 0),
            Input(day + 1, true, "m", 7 * day, day + 1, true, day + 1, day + 1, day + 1),
            Input(day + 2, true, "n", 7 * day, day + 2, true, day + 2, day + 2, day + 2)];
    assert At(c, s0, run, 0) == s0;
    assert At(c, s0, run, 1) == Respond(c, s0, run[0]).0;
    assert ReplyAt(c, s0, run, 0) == Paid;
    assert At(c, s0, run, 2) == Respond(c, At(c, s0, run, 1), run[1]).0;
    assert ReplyAt(c, s0, run, 1) == Paid;
    assert !NotSwept(c, s0, run, 0, 2);
    ReplayRefusedExactly(c, s0, run, 0, 2);
  }

  // ---------------------------------------------------------------- rate gate

  ghost predicate Admitted(c: Config, s0: State, run: seq<Input>, k: nat)
    requires k < |run|
  {
    ReplyAt(c, s0, run, k) != RateLimited
  }

  /** Calls admitted by the first `n`, made at or after `t`. */
  ghost function Since(c: Config, s0: State, run: seq<Input>, n: nat, t: int): nat
    requires n <= |run|
  {
    if n == 0 then 0
    else Since(c, s0, run, n - 1, t) + if Admitted(c, s0, run, n - 1) && run[n - 1].now >= t then 1 else 0
  }

  /** Calls admitted by the first `n`, made in the minute from `t`. */
  ghost function InMinute(c: Config, s0: State, run: seq<Input>, n: nat, t: int): nat
    requires n <= |run|
  {
    if n == 0 then 0
    else InMinute(c, s0, run, n - 1, t)
         + if Admitted(c, s0, run, n - 1) && t <= run[n - 1].now < t + RATE_LIMIT_WINDOW_MS then 1 else 0
  }

  lemma {:induction false} SinceShrinks(c: Config, s0: State, run: seq<Input>, n: nat, t: int, t': int)
    requires n <= |run| && t <= t'
    ensures InMinute(c, s0, run, n, t) <= Since(c, s0, run, n, t)
    ensures Since(c, s0, run, n, t') <= Since(c, s0, run, n, t)
  {
    if n > 0 { SinceShrinks(c, s0, run, n - 1, t, t'); }
  }

  /** What one call does to the window. */
  lemma {:induction false} GateStep(c: Config, s: State, i: Input)
    requires s.windowStart <= i.now
    ensures var (s', r) := Respond(c, s, i);
            && s'.windowStart <= i.now < s'.windowStart + RATE_LIMIT_WINDOW_MS
            && (s'.windowStart == s.windowStart
                || (s'.windowStart == i.now && i.now >= s.windowStart + RATE_LIMIT_WINDOW_MS))
            && s'.paymentCount == (if s'.windowStart == s.windowStart then s.paymentCount else 0)
                                  + (if r == RateLimited then 0 else 1)
            && (s.paymentCount <= c.maxPerMinute ==> s'.paymentCount <= c.maxPerMinute)
  {
  }

  /** The counter is the number of calls admitted in the current window, never more than the maximum; and the
      calls since any moment less than a window before its start are at most one more window's worth. */
  lemma {:induction false} WindowCounts(c: Config, s0: State, run: seq<Input>, n: nat, t: int)
    requires Timed(run) && Fresh(s0, run) && n <= |run|
    ensures var s := At(c, s0, run, n);
            && s.paymentCount == Since(c, s0, run, n, s.windowStart) <= c.maxPerMinute
            && (n > 0 ==> s.windowStart <= run[n - 1].now < s.windowStart + RATE_LIMIT_WINDOW_MS)
            && (n == 0 ==> s == s0)
            && (t > s.windowStart - RATE_LIMIT_WINDOW_MS ==> Since(c, s0, run, n, t) <= c.maxPerMinute + s.paymentCount)
  {
    if n > 0 {
      var s, i := At(c, s0, run, n - 1), run[n - 1];
      WindowCounts(c, s0, run, n - 1, t);
      assert s.windowStart <= i.now by {
        if n > 1 { assert run[n - 2].prunedAt <= i.now && Ordered(run[n - 2]); }
      }
      GateStep(c, s, i);
      hide Respond, Timed, Fresh;
      var s' := At(c, s0, run, n);
      if s'.windowStart != s.windowStart {
        if s.windowStart <= t { SinceShrinks(c, s0, run, n - 1, s.windowStart, t); }
        NoneSince(c, s0, run, n - 1, s'.windowStart);
      }
    }
  }

  /** In every run of a new tool a call is turned away by the gate if and only if nothing may pass at all, or the
      minute of the current window is not over and the maximum has been admitted in it. */
  lemma {:induction false} LimitedExactly(c: Config, s0: State, run: seq<Input>, n: nat)
    requires Timed(run) && Fresh(s0, run) && n < |run|
    ensures var s := At(c, s0, run, n);
            ReplyAt(c, s0, run, n) == RateLimited <==>
              || c.maxPerMinute == 0
              || (run[n].now < s.windowStart + 60_000 && Since(c, s0, run, n, s.windowStart) == c.maxPerMinute)
  {
    WindowCounts(c, s0, run, n, 0);
  }

  /** What an admitted call is answered, and what it does to the nonces: the first of its obstacles decides. A call
      that does not get as far as the nonce lookup leaves the nonces alone. */
  lemma AnsweredExactly(c: Config, s: State, i: Input)
    requires Respond(c, s, i).1 != RateLimited && c.ttlMs >= 0 && Ordered(i)
    ensures var (s', r) := Respond(c, s, i);
            var used := i.nonce in s.nonces && i.checkedAt <= s.nonces[i.nonce] + c.ttlMs;
            && (r == Malformed <==> !i.wellFormed)
            && (r == Expired <==> i.wellFormed && i.expiresAt < i.checkedAt)
            && (r == NonceUsed <==> i.wellFormed && i.checkedAt <= i.expiresAt && used)
            && (r == PaymentFailed <==> i.wellFormed && i.checkedAt <= i.expiresAt && !used && !i.paymentWorks)
            && (r == Paid <==> i.wellFormed && i.checkedAt <= i.expiresAt && !used && i.paymentWorks)
            && (r == Malformed || r == Expired ==> s'.nonces == s.nonces)
            && (forall m | m in s.nonces && (m != i.nonce || r != Paid) ::
                  || (m in s'.nonces && s'.nonces[m] == s.nonces[m])
                  || s.nonces[m] + c.ttlMs < i.addedAt
                  || s.nonces[m] + MAX_NONCE_TTL_MS < i.prunedAt)
            && (r == Paid ==> forall m | m in s'.nonces :: m in s.nonces || m == i.nonce)
            && (r != Paid ==> forall m | m in s'.nonces :: m in s.nonces)
  {
  }

  lemma LimitedCallsKeepNonces(c: Config, s: State, i: Input)
    requires Respond(c, s, i).1 == RateLimited
    ensures Respond(c, s, i).0.nonces == s.nonces
  {
  }

  lemma {:induction false} NoneSince(c: Config, s0: State, run: seq<Input>, n: nat, t: int)
    requires n <= |run|
    requires forall k | 0 <= k < n :: run[k].now < t
    ensures Since(c, s0, run, n, t) == 0
  {
    if n > 0 { NoneSince(c, s0, run, n - 1, t); }
  }

  /** Any minute, wherever it starts, contains at most twice the maximum of admitted calls. */
  lemma {:induction false} AtMostTwoWindowsPerMinute(c: Config, s0: State, run: seq<Input>, n: nat, t: int)
    requires Timed(run) && Fresh(s0, run) && n <= |run|
    ensures InMinute(c, s0, run, n, t) <= 2 * c.maxPerMinute
  {
    if n > 0 {
      AtMostTwoWindowsPerMinute(c, s0, run, n - 1, t);
      WindowCounts(c, s0, run, n, t);
      SinceShrinks(c, s0, run, n, t, t);
    }
  }
}
