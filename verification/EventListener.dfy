/** The polling contract event listener: cursor, reconnect counter, timer and stop. */
module EventListener {
  import opened Outcome

  /** An event of the chain. Its paging token is the number of events up to and including it. */
  datatype Event = Event(pagingToken: nat, ours: bool, topics: seq<string>)

  /** A `getEvents` response: the contract's events and possibly a cursor. */
  datatype Page = Page(events: seq<Event>, cursor: Option<nat>)

  /** The promise for the first ledger: not asked for yet, failed for good, or the position it starts at. */
  datatype StartLedger = NotAsked | Failed | From(position: nat)

  datatype Config = Config(eventTypes: seq<string>, maxReconnectAttempts: int)

  datatype State = State(cursor: Option<nat>, start: StartLedger, reconnectAttempts: nat, isStopped: bool,
                         timerPending: bool, inFlight: bool, polls: nat, delivered: seq<Event>)

  /** `listen` polls once right away. */
  const LISTENING := State(None, NotAsked, 0, false, false, true, 1, [])

  function Matches(c: Config, e: Event): bool {
    |c.eventTypes| == 0 || exists i :: 0 <= i < |e.topics| && e.topics[i] in c.eventTypes
  }

  function Matching(c: Config, events: seq<Event>): seq<Event> {
    if events == [] then []
    else
      var last := events[|events| - 1];
      Matching(c, events[..|events| - 1]) + if Matches(c, last) then [last] else []
  }

  datatype Op =
    | TimerFires
    | Stop
    /** The poll in flight gets its answers: the latest ledger if it asked for it, and the page; None is a failure. */
    | Answer(ledger: Option<nat>, page: Option<Page>)

  function Fail(c: Config, s: State): State {
    var attempts := s.reconnectAttempts + 1;
    if attempts >= c.maxReconnectAttempts
    then s.(reconnectAttempts := attempts, isStopped := true, timerPending := false)
    else s.(reconnectAttempts := attempts, timerPending := !s.isStopped)
  }

  function Receive(c: Config, s: State, page: Page): State {
    s.(reconnectAttempts := 0,
       delivered := s.delivered + Matching(c, page.events),
       cursor := if |page.events| > 0 then Some(page.events[|page.events| - 1].pagingToken)
                 else if page.cursor.Some? then page.cursor else s.cursor,
       timerPending := !s.isStopped)
  }

  function AskLedger(s: State, ledger: Option<nat>): State {
    if s.cursor.None? && s.start.NotAsked?
    then s.(start := if ledger.Some? then From(ledger.value) else Failed)
    else s
  }

  function Step(c: Config, s: State, op: Op): State {
    match op
    case TimerFires =>
      if !s.timerPending then s
      else if s.isStopped then s.(timerPending := false)
      else s.(timerPending := false, inFlight := true, polls := s.polls + 1)
    case Stop => s.(isStopped := true, timerPending := false)
    case Answer(ledger, page) =>
      if !s.inFlight then s
      else
        var asked := AskLedger(s.(inFlight := false), ledger);
        if (asked.cursor.None? && asked.start.Failed?) || page.None? then Fail(c, asked)
        else Receive(c, asked, page.value)
  }

  class Listener {
    const config: Config
    var cursor: Option<nat>
    var start: StartLedger
    var reconnectAttempts: nat
    var isStopped: bool
    var timerPending: bool
    ghost var inFlight: bool
    ghost var polls: nat
    var delivered: seq<Event>

    ghost function Now(): State
      reads this
    {
      State(cursor, start, reconnectAttempts, isStopped, timerPending, inFlight, polls, delivered)
    }

    constructor (config: Config)
      ensures this.config == config && Now() == LISTENING
    {
      this.config := config;
      cursor, start, reconnectAttempts, isStopped, timerPending := None, NotAsked, 0, false, false;
      inFlight, polls, delivered := true, 1, [];
    }

    method StopListening()
      modifies this
      ensures Now() == Step(config, old(Now()), Stop)
    {
      isStopped := true;
      if timerPending {
        timerPending := false;
      }
    }

    method TimerExpires()
      requires timerPending
      modifies this
      ensures Now() == Step(config, old(Now()), TimerFires)
    {
      timerPending := false;
      if isStopped { return; }
      inFlight, polls := true, polls + 1;
    }

    /** The rest of a poll, from the answers on. */
    method FinishPoll(ledger: Option<nat>, page: Option<Page>)
      requires inFlight
      modifies this
      ensures Now() == Step(config, old(Now()), Answer(ledger, page))
    {
      hide Matching;
      inFlight := false;
      if cursor.None? && start.NotAsked? {
        if ledger.Some? { start := From(ledger.value); } else { start := Failed; }
      }
      if (cursor.None? && start.Failed?) || page.None? {
        reconnectAttempts := reconnectAttempts + 1;
        if reconnectAttempts >= config.maxReconnectAttempts {
          isStopped := true;
          timerPending := false;
          return;
        }
        timerPending := !isStopped;
        return;
      }
      reconnectAttempts := 0;
      Deliver(page.value.events);
      if |page.value.events| > 0 {
        cursor := Some(page.value.events[|page.value.events| - 1].pagingToken);
      } else if page.value.cursor.Some? {
        cursor := page.value.cursor;
      }
      timerPending := !isStopped;
    }

    method Deliver(events: seq<Event>)
      modifies this`delivered
      ensures delivered == old(delivered) + Matching(config, events)
    {
      for k := 0 to |events|
        invariant delivered == old(delivered) + Matching(config, events[..k])
      {
        assert events[..k + 1][..k] == events[..k];
        if Matches(config, events[k]) {
          delivered := delivered + [events[k]];
        }
      }
      assert events[..|events|] == events;
    }
  }

  // ---------------------------------------------------------------- the chain and the server

  /** The chain's events in order, each with its own token. */
  ghost predicate Chain(log: seq<Event>) {
    forall i | 0 <= i < |log| :: log[i].pagingToken == i + 1
  }

  function Ours(events: seq<Event>): seq<Event> {
    if events == [] then []
    else Ours(events[..|events| - 1]) + if events[|events| - 1].ours then [events[|events| - 1]] else []
  }

  /** Where the next request reads from. */
  function Position(s: State): nat {
    if s.cursor.Some? then s.cursor.value else if s.start.From? then s.start.position else 0
  }

  /** An answer of a server that has `log`: the contract's events from the position up to some point, and for
      an empty page the cursor of that point. */
  ghost predicate Serves(log: seq<Event>, position: nat, page: Page, upTo: nat) {
    && position <= upTo <= |log|
    && page.events == Ours(log[position..upTo])
    && (page.events == [] && page.cursor.Some? ==> page.cursor.value == upTo)
  }

  ghost predicate Honest(log: seq<Event>, s: State, op: Op) {
    op.Answer? && s.inFlight ==>
      && (op.ledger.Some? ==> op.ledger.value <= |log|)
      && (op.page.Some? ==> exists upTo: nat :: Serves(log, Position(AskLedger(s, op.ledger)), op.page.value, upTo))
  }

  /** What happens: an operation, and the chain as it is then. */
  datatype Moment = Moment(log: seq<Event>, op: Op)

  function At(c: Config, run: seq<Moment>, n: nat): State
    requires n <= |run|
  {
    if n == 0 then LISTENING else Step(c, At(c, run, n - 1), run[n - 1].op)
  }

  ghost predicate HonestAt(c: Config, run: seq<Moment>, k: nat)
    requires k < |run|
  {
    Chain(run[k].log) && Honest(run[k].log, At(c, run, k), run[k].op)
  }

  /** The chain only grows, and the server answers from it. */
  ghost predicate Legal(c: Config, run: seq<Moment>) {
    && (forall k | 0 <= k < |run| :: HonestAt(c, run, k))
    && (forall i, j | 0 <= i <= j < |run| :: run[i].log <= run[j].log)
  }

  // ---------------------------------------------------------------- exactly once

  lemma OursAppend(events: seq<Event>, e: Event)
    ensures Ours(events + [e]) == Ours(events) + if e.ours then [e] else []
  {
    assert (events + [e])[..|events|] == events;
  }

  lemma {:induction false} OursConcat(a: seq<Event>, b: seq<Event>)
    ensures Ours(a + b) == Ours(a) + Ours(b)
  {
    if b == [] {
      assert a + b == a;
    } else {
      var front, last := b[..|b| - 1], b[|b| - 1];
      OursConcat(a, front);
      OursAppend(a + front, last);
      assert a + b == a + front + [last];
    }
  }

  lemma {:induction false} MatchingConcat(c: Config, a: seq<Event>, b: seq<Event>)
    ensures Matching(c, a + b) == Matching(c, a) + Matching(c, b)
  {
    if b == [] {
      assert a + b == a;
    } else {
      MatchingConcat(c, a, b[..|b| - 1]);
      assert (a + b)[..|a + b| - 1] == a + b[..|b| - 1];
    }
  }

  /** The last event of a page closes the stretch of the chain that the page covers. */
  lemma {:induction false} LastOfPage(log: seq<Event>, from: nat, upTo: nat)
    requires Chain(log) && from <= upTo <= |log|
    requires Ours(log[from..upTo]) != []
    ensures var events := Ours(log[from..upTo]);
            var token := events[|events| - 1].pagingToken;
            from < token <= upTo && Ours(log[from..token]) == events
  {
    var last := log[upTo - 1];
    assert log[from..upTo] == log[from..upTo - 1] + [last];
    OursAppend(log[from..upTo - 1], last);
    if !last.ours {
      LastOfPage(log, from, upTo - 1);
    }
  }

  /** Delivered so far: the matching events of the contract between the start and the position. */
  ghost predicate DeliveredUpTo(c: Config, log: seq<Event>, s: State) {
    && (s.cursor.Some? ==> s.start.From?)
    && (if s.start.From?
        then s.start.position <= Position(s) <= |log|
             && s.delivered == Matching(c, Ours(log[s.start.position..Position(s)]))
        else s.delivered == [])
  }

  lemma PageDelivers(c: Config, log: seq<Event>, s: State, page: Page, upTo: nat)
    requires Chain(log) && DeliveredUpTo(c, log, s) && s.start.From?
    requires Serves(log, Position(s), page, upTo)
    ensures DeliveredUpTo(c, log, Receive(c, s, page))
    ensures Position(s) <= Position(Receive(c, s, page)) <= upTo
    ensures page.events != [] ==> Position(s) < Position(Receive(c, s, page))
  {
    var first, p := s.start.position, Position(s);
    if page.events != [] { LastOfPage(log, p, upTo); }
    var q := Position(Receive(c, s, page));
    if page.events == [] && page.cursor.None? {
      assert q == p && log[p..q] == [];
    }
    assert Ours(log[p..q]) == page.events;
    SliceJoins(log, first, p, q);
    OursConcat(log[first..p], log[p..q]);
    MatchingConcat(c, Ours(log[first..p]), page.events);
  }

  lemma SliceJoins(log: seq<Event>, a: nat, b: nat, c: nat)
    requires a <= b <= c <= |log|
    ensures log[a..c] == log[a..b] + log[b..c]
  {
  }

  lemma ChainGrows(c: Config, log: seq<Event>, log': seq<Event>, s: State)
    requires DeliveredUpTo(c, log, s) && log <= log'
    ensures DeliveredUpTo(c, log', s)
  {
    if s.start.From? { assert log'[s.start.position..Position(s)] == log[s.start.position..Position(s)]; }
  }

  lemma AskDelivers(c: Config, log: seq<Event>, s: State, ledger: Option<nat>)
    requires DeliveredUpTo(c, log, s) && (ledger.Some? ==> ledger.value <= |log|)
    ensures DeliveredUpTo(c, log, AskLedger(s, ledger))
  {
    var asked := AskLedger(s, ledger);
    if asked.start.From? && asked.cursor.None? { assert log[Position(asked)..Position(asked)] == []; }
  }

  lemma StepDelivers(c: Config, log: seq<Event>, s: State, op: Op)
    requires Chain(log) && DeliveredUpTo(c, log, s) && Honest(log, s, op)
    ensures DeliveredUpTo(c, log, Step(c, s, op))
  {
    if op.Answer? && s.inFlight {
      var waiting := s.(inFlight := false);
      AskDelivers(c, log, waiting, op.ledger);
      hide Matching, Ours, Chain, Receive;
      var asked := AskLedger(waiting, op.ledger);
      if !(asked.cursor.None? && asked.start.Failed?) && op.page.Some? {
        hide Serves;
        var upTo: nat :| Serves(log, Position(AskLedger(s, op.ledger)), op.page.value, upTo);
        assert Position(AskLedger(s, op.ledger)) == Position(asked);
        PageDelivers(c, log, asked, op.page.value, upTo);
      }
    }
  }

  /** Whatever fails in between, the delivered events are exactly the contract's matching events from the
      start position to the cursor: none twice, none skipped, in chain order. */
  lemma {:induction false} DeliveredExactlyOnce(c: Config, run: seq<Moment>, n: nat)
    requires Legal(c, run) && 0 < n <= |run|
    ensures DeliveredUpTo(c, run[n - 1].log, At(c, run, n))
  {
    assert HonestAt(c, run, n - 1);
    if n > 1 {
      DeliveredExactlyOnce(c, run, n - 1);
      ChainGrows(c, run[n - 2].log, run[n - 1].log, At(c, run, n - 1));
    }
    StepDelivers(c, run[n - 1].log, At(c, run, n - 1), run[n - 1].op);
  }

  /** An event matches if and only if nothing is subscribed to in particular, or one of its topics is. */
  lemma MatchesExactly(c: Config, e: Event)
    ensures Matches(c, e) <==> c.eventTypes == [] || (set t | t in e.topics) * (set t | t in c.eventTypes) != {}
  {
    var common := (set t | t in e.topics) * (set t | t in c.eventTypes);
    if i :| 0 <= i < |e.topics| && e.topics[i] in c.eventTypes { assert e.topics[i] in common; }
    if common != {} {
      var t :| t in common;
      var i :| 0 <= i < |e.topics| && e.topics[i] == t;
      assert e.topics[i] in c.eventTypes;
    }
  }

  /** Of each event as many copies are kept as there are, if it matches, and none otherwise. */
  lemma {:induction false} KeptExactly(c: Config, events: seq<Event>, e: Event)
    ensures multiset(Matching(c, events))[e]
         == if c.eventTypes == [] || (set t | t in e.topics) * (set t | t in c.eventTypes) != {}
            then multiset(events)[e] else 0
  {
    MatchesExactly(c, e);
    if events != [] {
      hide Matches;
      KeptExactly(c, events[..|events| - 1], e);
      assert events == events[..|events| - 1] + [events[|events| - 1]];
    }
  }

  lemma FilteredAppend(c: Config, events: seq<Event>, e: Event)
    ensures Matching(c, Ours(events + [e])) == Matching(c, Ours(events)) + if e.ours && Matches(c, e) then [e] else []
  {
    hide Matches;
    OursAppend(events, e);
    MatchingAppend(c, Ours(events), e);
    assert !e.ours ==> Ours(events + [e]) == Ours(events);
  }

  lemma MatchingAppend(c: Config, events: seq<Event>, e: Event)
    ensures Matching(c, events + [e]) == Matching(c, events) + if Matches(c, e) then [e] else []
  {
    assert (events + [e])[..|events|] == events;
  }

  lemma {:induction false} FilteredCount(c: Config, events: seq<Event>, e: Event)
    ensures multiset(Matching(c, Ours(events)))[e] == if e.ours && Matches(c, e) then multiset(events)[e] else 0
  {
    if events != [] {
      var front, last := events[..|events| - 1], events[|events| - 1];
      FilteredCount(c, front, e);
      assert events == front + [last];
      FilteredAppend(c, front, last);
      hide Matches, Matching, Ours;
    }
  }

  lemma {:induction false} OnceOnChain(log: seq<Event>, a: nat, b: nat, q: nat)
    requires Chain(log) && a <= b <= |log| && q < |log|
    ensures multiset(log[a..b])[log[q]] == if a <= q < b then 1 else 0
  {
    if a < b {
      OnceOnChain(log, a, b - 1, q);
      assert log[a..b] == log[a..b - 1] + [log[b - 1]];
    }
  }

  ghost predicate InChainOrder(events: seq<Event>) {
    forall i, j | 0 <= i < j < |events| :: events[i].pagingToken < events[j].pagingToken
  }

  lemma {:induction false} FilteredInOrder(c: Config, log: seq<Event>, a: nat, b: nat)
    requires Chain(log) && a <= b <= |log|
    ensures var kept := Matching(c, Ours(log[a..b]));
            InChainOrder(kept) && forall i | 0 <= i < |kept| :: kept[i].pagingToken <= b && kept[i] in log
  {
    if a < b {
      FilteredInOrder(c, log, a, b - 1);
      assert log[a..b] == log[a..b - 1] + [log[b - 1]];
      FilteredAppend(c, log[a..b - 1], log[b - 1]);
      hide Matches, Matching, Ours;
      assert log[b - 1].pagingToken == b;
    }
  }

  /** Event number `q` of the chain was delivered once if it lies between the start and the position, is the
      contract's and has a topic subscribed to (or none is asked for), and otherwise not at all; deliveries are in
      chain order. */
  lemma {:induction false} DeliveredExactly(c: Config, run: seq<Moment>, n: nat, q: nat)
    requires Legal(c, run) && 0 < n <= |run| && q < |run[n - 1].log|
    ensures var s, e := At(c, run, n), run[n - 1].log[q];
            var wanted := c.eventTypes == [] || (set t | t in e.topics) * (set t | t in c.eventTypes) != {};
            && multiset(s.delivered)[e]
               == (if s.start.From? && s.start.position <= q < Position(s) && e.ours && wanted then 1 else 0)
            && InChainOrder(s.delivered) && forall x <- s.delivered :: x in run[n - 1].log
  {
    var s, log := At(c, run, n), run[n - 1].log;
    DeliveredExactlyOnce(c, run, n);
    assert HonestAt(c, run, n - 1);
    hide Matches, Matching, Ours, Chain, At, Legal;
    MatchesExactly(c, log[q]);
    if s.start.From? {
      FilteredCount(c, log[s.start.position..Position(s)], log[q]);
      OnceOnChain(log, s.start.position, Position(s), q);
      FilteredInOrder(c, log, s.start.position, Position(s));
    }
  }

  /** The ledger answered to the first poll that got its answers, if there was one; inside, None for a failure. */
  function FirstLedger(c: Config, run: seq<Moment>, n: nat): Option<Option<nat>>
    requires n <= |run|
  {
    if n == 0 then None
    else if FirstLedger(c, run, n - 1).Some? then FirstLedger(c, run, n - 1)
    else if run[n - 1].op.Answer? && At(c, run, n - 1).inFlight then Some(run[n - 1].op.ledger)
    else None
  }

  /** The start is asked for once: it is the ledger answered to the first poll, and a failure to get it is final. */
  lemma {:induction false} StartIsFirstLedger(c: Config, run: seq<Moment>, n: nat)
    requires n <= |run|
    ensures At(c, run, n).start == (match FirstLedger(c, run, n)
                                    case None => NotAsked
                                    case Some(None) => Failed
                                    case Some(Some(position)) => From(position))
    ensures At(c, run, n).cursor.Some? ==> At(c, run, n).start.From?
  {
    hide Matching;
    if n > 0 { StartIsFirstLedger(c, run, n - 1); }
  }

  /** Where the next poll continues: after the last event of a page, at the cursor of an empty page, and where it was
      after a failure. A page ends the failures in a row; a failure delivers nothing. */
  lemma {:induction false} CursorExactly(c: Config, run: seq<Moment>, k: nat)
    requires k < |run| && run[k].op.Answer? && At(c, run, k).inFlight
    ensures var s, s', page := At(c, run, k), At(c, run, k + 1), run[k].op.page;
            var failed := page.None? || FirstLedger(c, run, k + 1) == Some(None);
            && (failed ==> s'.cursor == s.cursor && s'.delivered == s.delivered
                           && s'.reconnectAttempts == s.reconnectAttempts + 1)
            && (!failed ==> s'.reconnectAttempts == 0 && (s'.timerPending <==> !s.isStopped))
            && (!failed && page.value.events != [] ==>
                  s'.cursor == Some(page.value.events[|page.value.events| - 1].pagingToken))
            && (!failed && page.value.events == [] && page.value.cursor.Some? ==> s'.cursor == page.value.cursor)
            && (!failed && page.value.events == [] && page.value.cursor.None? ==> s'.cursor == s.cursor)
  {
    hide Matching;
    StartIsFirstLedger(c, run, k);
    StartIsFirstLedger(c, run, k + 1);
  }

  // ---------------------------------------------------------------- polling discipline

  function Most(c: Config): int {
    if c.maxReconnectAttempts < 1 then 1 else c.maxReconnectAttempts
  }

  /** Never both a poll in flight and a timer pending; a live listener has exactly one of them, a stopped
      one has no timer; and consecutive failures stay below the maximum until the one that stops it. */
  ghost predicate Disciplined(c: Config, s: State) {
    && !(s.inFlight && s.timerPending)
    && (s.isStopped ==> !s.timerPending)
    && (!s.isStopped ==> s.inFlight || s.timerPending)
    && s.reconnectAttempts <= Most(c)
    && (s.inFlight || !s.isStopped ==> s.reconnectAttempts < Most(c))
  }

  lemma {:induction false} AlwaysDisciplined(c: Config, run: seq<Moment>, n: nat)
    requires n <= |run|
    ensures Disciplined(c, At(c, run, n))
  {
    if n > 0 { AlwaysDisciplined(c, run, n - 1); }
  }

  /** After a stop, by the caller or after too many failures, no poll ever starts again. */
  lemma {:induction false} StoppedForGood(c: Config, run: seq<Moment>, m: nat, n: nat)
    requires m <= n <= |run| && At(c, run, m).isStopped
    ensures At(c, run, n).isStopped && At(c, run, n).polls == At(c, run, m).polls
  {
    if m < n {
      StoppedForGood(c, run, m, n - 1);
      AlwaysDisciplined(c, run, n - 1);
    }
  }

  /** Failures in a row so far: failed answers since the last page received. */
  function FailuresInARow(c: Config, run: seq<Moment>, n: nat): nat
    requires n <= |run|
  {
    if n == 0 then 0
    else
      var s, op := At(c, run, n - 1), run[n - 1].op;
      if !op.Answer? || !s.inFlight then FailuresInARow(c, run, n - 1)
      else
        var noStart := s.cursor.None? && AskLedger(s, op.ledger).start.Failed?;
        if noStart || op.page.None? then FailuresInARow(c, run, n - 1) + 1 else 0
  }

  /** The listener gives up by itself exactly when the failures in a row reach the maximum. */
  lemma {:induction false} StopsExactlyAtMaximum(c: Config, run: seq<Moment>, n: nat)
    requires n <= |run|
    ensures At(c, run, n).reconnectAttempts == FailuresInARow(c, run, n) <= Most(c)
    ensures At(c, run, n).isStopped <==>
              FailuresInARow(c, run, n) == Most(c) || exists k | 0 <= k < n :: run[k].op.Stop?
  {
    hide Matching, Matches;
    AlwaysDisciplined(c, run, n);
    if n > 0 {
      StopsExactlyAtMaximum(c, run, n - 1);
      AlwaysDisciplined(c, run, n - 1);
      assert (exists k | 0 <= k < n :: run[k].op.Stop?)
        <==> (exists k | 0 <= k < n - 1 :: run[k].op.Stop?) || run[n - 1].op.Stop?;
    }
  }
}
