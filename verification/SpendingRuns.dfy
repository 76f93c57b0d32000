/** What the spending window guarantees over whole runs, restarts and database failures included. */
module SpendingRuns {
  import opened Outcome
  import opened Sequences
  import opened Spending

  datatype Config = Config(windowMs: nat, limit: int)

  /** The clock never goes back. */
  ghost predicate Timed(run: seq<Input>) {
    && (forall i | 0 <= i < |run| :: run[i].now <= run[i].later)
    && (forall i, j | 0 <= i < j < |run| :: run[i].later <= run[j].now)
  }

  /** The tracker after `n` calls, starting from an empty table. */
  ghost function At(c: Config, run: seq<Input>, n: nat): Tracker
    requires n <= |run|
  {
    if n == 0 then Tracker([], []) else Do(At(c, run, n - 1), c.windowMs, c.limit, run[n - 1]).0
  }

  ghost function ReplyAt(c: Config, run: seq<Input>, k: nat): Reply
    requires k < |run|
  {
    Do(At(c, run, k), c.windowMs, c.limit, run[k]).1
  }

  /** If call `k` is a restart, it reads an answer the table could give. */
  ghost predicate LegalAt(c: Config, run: seq<Input>, k: nat)
    requires k < |run|
  {
    run[k].op.Restart? ==> Answers(At(c, run, k).rows, run[k].now - c.windowMs, run[k].op.answer)
  }

  ghost predicate LegalUpTo(c: Config, run: seq<Input>, n: nat)
    requires n <= |run|
  {
    Timed(run) && forall k | 0 <= k < n :: LegalAt(c, run, k)
  }

  ghost predicate Legal(c: Config, run: seq<Input>) {
    LegalUpTo(c, run, |run|)
  }

  /** Every payment ever recorded since the last `clear`, accepted or refused, restarts and failures ignored. */
  function History(run: seq<Input>, n: nat): seq<Rec>
    requires n <= |run|
  {
    if n == 0 then []
    else
      var h, i := History(run, n - 1), run[n - 1];
      match i.op
      case Record(Some(amount)) => h + [Rec(amount, i.now)]
      case Clear => []
      case _ => h
  }

  /** What can be known: the payments this process counts, and those that are written down. */
  datatype Memory = Memory(live: seq<Rec>, stored: seq<Rec>)

  function Added(m: Memory, r: Rec, up: bool): Memory {
    Memory(m.live + [r], if up then m.stored + [r] else m.stored)
  }

  /** A failing database misses writes and clears, and a restart knows what is written down, if it can be read. */
  function Remember(m: Memory, i: Input): Memory {
    match i.op
    case Record(Some(amount)) => Added(m, Rec(amount, i.now), i.up)
    case Clear => Memory([], if i.up then [] else m.stored)
    case Restart(_) => Memory(if i.up then m.stored else [], m.stored)
    case _ => m
  }

  function Retained(run: seq<Input>, n: nat): Memory
    requires n <= |run|
  {
    if n == 0 then Memory([], []) else Remember(Retained(run, n - 1), run[n - 1])
  }

  ghost predicate UpBefore(run: seq<Input>, n: nat)
    requires n <= |run|
  {
    forall i | 0 <= i < n :: run[i].up
  }

  /** The database worked up to the last restart among the first `n` calls, that restart included. */
  ghost predicate Kept(run: seq<Input>, n: nat)
    requires n <= |run|
  {
    forall i, j | 0 <= i <= j < n && run[j].op.Restart? :: run[i].up
  }

  /** Then nothing is forgotten, and as long as it works everything is written down. */
  lemma {:induction false} KeptIsRetained(run: seq<Input>, n: nat)
    requires n <= |run|
    ensures Kept(run, n) ==> Retained(run, n).live == History(run, n)
    ensures UpBefore(run, n) ==> Retained(run, n) == Memory(History(run, n), History(run, n))
  {
    if n > 0 { KeptIsRetained(run, n - 1); }
  }

  // ---------------------------------------------------------------- windows and counts

  ghost function Count(rs: seq<Rec>, x: Rec): nat {
    multiset(rs)[x]
  }

  /** The same records, as a multiset, from time `from` on. */
  ghost predicate Agree(a: seq<Rec>, b: seq<Rec>, from: int) {
    forall x: Rec | x.timestamp >= from :: Count(a, x) == Count(b, x)
  }

  lemma {:induction false} WindowCount(rs: seq<Rec>, cutoff: int, x: Rec)
    ensures Count(Window(rs, cutoff), x) == if x.timestamp >= cutoff then Count(rs, x) else 0
  {
    if rs != [] {
      WindowCount(rs[..|rs| - 1], cutoff, x);
      assert rs == rs[..|rs| - 1] + [rs[|rs| - 1]];
    }
  }

  lemma {:induction false} WindowOfSorted(rs: seq<Rec>, cutoff: int)
    requires Sorted(rs)
    ensures Sorted(Window(rs, cutoff))
    ensures forall x <- Window(rs, cutoff) :: x in rs && x.timestamp >= cutoff
  {
    if rs != [] {
      WindowOfSorted(rs[..|rs| - 1], cutoff);
    }
  }

  lemma {:induction false} WindowDropsHead(rs: seq<Rec>, cutoff: int)
    requires rs != []
    ensures Window(rs, cutoff) == (if rs[0].timestamp >= cutoff then [rs[0]] else []) + Window(rs[1..], cutoff)
  {
    if |rs| > 1 {
      WindowDropsHead(rs[..|rs| - 1], cutoff);
      assert rs[1..][..|rs| - 2] == rs[..|rs| - 1][1..];
    }
  }

  lemma {:induction false} WindowOfFresh(rs: seq<Rec>, cutoff: int)
    requires forall k | 0 <= k < |rs| :: rs[k].timestamp >= cutoff
    ensures Window(rs, cutoff) == rs
  {
    if rs != [] {
      var front, last := rs[..|rs| - 1], rs[|rs| - 1];
      WindowOfFresh(front, cutoff);
      assert rs == front + [last];
    }
  }

  /** On records in time order, taking expired ones off the front is filtering by time. */
  lemma {:induction false} EvictionIsFiltering(rs: seq<Rec>, cutoff: int)
    requires Sorted(rs)
    ensures DropOld(rs, cutoff) == Window(rs, cutoff)
  {
    if rs != [] {
      if rs[0].timestamp < cutoff {
        EvictionIsFiltering(rs[1..], cutoff);
        WindowDropsHead(rs, cutoff);
      } else {
        WindowOfFresh(rs, cutoff);
      }
    }
  }

  lemma {:induction false} TotalTakeOut(rs: seq<Rec>, k: nat)
    requires k < |rs|
    ensures Total(rs) == rs[k].amount + Total(Without(rs, k))
  {
    var n := |rs| - 1;
    if k < n {
      TotalTakeOut(rs[..n], k);
      assert Without(rs, k)[..n - 1] == Without(rs[..n], k);
    } else {
      assert Without(rs, k) == rs[..n];
    }
  }

  /** The sum does not depend on the order of the records. */
  lemma {:induction false} TotalOfMultiset(a: seq<Rec>, b: seq<Rec>)
    requires multiset(a) == multiset(b)
    ensures Total(a) == Total(b)
    decreases |a|
  {
    if a == [] {
      assert |multiset(b)| == 0;
    } else {
      var n := |a| - 1;
      MultisetTakeOut(a, n);
      assert a[n] in multiset(b);
      var k :| 0 <= k < |b| && b[k] == a[n];
      MultisetTakeOut(b, k);
      TotalOfMultiset(Without(a, n), Without(b, k));
      TotalTakeOut(a, n);
      TotalTakeOut(b, k);
    }
  }

  lemma WindowAppend(rs: seq<Rec>, r: Rec, cutoff: int)
    ensures Window(rs + [r], cutoff) == Window(rs, cutoff) + if r.timestamp >= cutoff then [r] else []
  {
    assert (rs + [r])[..|rs|] == rs;
  }

  lemma TotalAppend(rs: seq<Rec>, r: Rec)
    ensures Total(rs + [r]) == Total(rs) + r.amount
  {
    assert (rs + [r])[..|rs|] == rs;
  }

  lemma PruneKeeps(t: Tracker, cutoff: int, up: bool, clock: int)
    requires Sorted(t.records) && Until(t.records, clock) && Until(t.rows, clock)
    ensures var t' := Prune(t, cutoff, up);
            && Sorted(t'.records) && Until(t'.records, clock) && Until(t'.rows, clock)
            && t'.records == Window(t.records, cutoff)
            && (forall x <- t'.records :: x.timestamp >= cutoff)
            && Agree(t'.records, t.records, cutoff) && Agree(t'.rows, t.rows, cutoff)
  {
    EvictionIsFiltering(t.records, cutoff);
    WindowOfSorted(t.records, cutoff);
    forall x: Rec
      ensures Count(Window(t.records, cutoff), x) == if x.timestamp >= cutoff then Count(t.records, x) else 0
      ensures Count(Window(t.rows, cutoff), x) == if x.timestamp >= cutoff then Count(t.rows, x) else 0
    {
      WindowCount(t.records, cutoff, x);
      WindowCount(t.rows, cutoff, x);
    }
    forall x <- Window(t.rows, cutoff) ensures x.timestamp <= clock {
      assert Count(Window(t.rows, cutoff), x) > 0;
      assert Count(t.rows, x) > 0;
    }
  }

  // ---------------------------------------------------------------- the window is the recent history

  ghost function ClockAt(run: seq<Input>, n: nat): int
    requires n <= |run|
  {
    if n > 0 then run[n - 1].later else if run != [] then run[0].now else 0
  }

  /** Memory and table are in step with what can be known, from one window before the clock on. */
  ghost predicate Tracks(t: Tracker, m: Memory, windowMs: int, clock: int) {
    && Sorted(t.records) && Until(t.records, clock) && Until(t.rows, clock)
    && Agree(t.records, m.live, clock - windowMs)
    && Agree(t.rows, m.stored, clock - windowMs)
  }

  lemma PruneTracks(t: Tracker, m: Memory, windowMs: int, clock: int, later: int, up: bool)
    requires Tracks(t, m, windowMs, clock) && clock <= later
    ensures Tracks(Prune(t, later - windowMs, up), m, windowMs, later)
    ensures multiset(Prune(t, later - windowMs, up).records) == multiset(Window(m.live, later - windowMs))
  {
    hide Prune, Sorted;
    PruneKeeps(t, later - windowMs, up, clock);
    var t' := Prune(t, later - windowMs, up);
    UntilLater(t'.records, clock, later);
    UntilLater(t'.rows, clock, later);
    SameWindow(t.records, m.live, clock - windowMs, later - windowMs);
  }

  lemma SameWindow(a: seq<Rec>, b: seq<Rec>, from: int, cutoff: int)
    requires Agree(a, b, from) && from <= cutoff
    ensures multiset(Window(a, cutoff)) == multiset(Window(b, cutoff))
  {
    forall x: Rec ensures multiset(Window(a, cutoff))[x] == multiset(Window(b, cutoff))[x] {
      WindowCount(a, cutoff, x);
      WindowCount(b, cutoff, x);
      if x.timestamp >= cutoff { assert Count(a, x) == Count(b, x); }
    }
  }

  lemma AgreeAppend(a: seq<Rec>, b: seq<Rec>, from: int, r: Rec)
    requires Agree(a, b, from)
    ensures Agree(a + [r], b + [r], from)
  {
    forall x: Rec | x.timestamp >= from ensures Count(a + [r], x) == Count(b + [r], x) {
      assert Count(a, x) == Count(b, x);
    }
  }

  lemma PushTracks(t: Tracker, m: Memory, windowMs: int, clock: int, r: Rec, up: bool)
    requires Tracks(t, m, windowMs, clock) && r.timestamp == clock
    ensures Tracks(Push(t, r, up), Added(m, r, up), windowMs, clock)
  {
    hide Agree, Sorted;
    SortedAppend(t.records, r);
    AgreeAppend(t.records, m.live, clock - windowMs, r);
    AgreeAppend(t.rows, m.stored, clock - windowMs, r);
  }

  /** The reply of an ideal limiter to call `i`, when `history` includes that call. */
  function Ideal(c: Config, history: seq<Rec>, i: Input): Reply {
    var total := Total(Window(history, i.later - c.windowMs));
    match i.op
    case Record(Some(_)) => if total > c.limit then Refused(total) else Accepted
    case Record(None) => Ignored
    case ReadTotal => Sum(total)
    case _ => Silent
  }

  lemma PayTracks(t: Tracker, m: Memory, windowMs: int, clock: int, r: Rec, later: int, up: bool)
    requires Tracks(t, m, windowMs, clock) && clock <= r.timestamp <= later
    ensures Tracks(Pay(t, windowMs, r, later, up), Added(m, r, up), windowMs, later)
    ensures Total(Pay(t, windowMs, r, later, up).records) == Total(Window(m.live + [r], later - windowMs))
  {
    hide Tracks, Total, Window;
    PruneTracks(t, m, windowMs, clock, r.timestamp, up);
    var t1 := Prune(t, r.timestamp - windowMs, up);
    PushTracks(t1, m, windowMs, r.timestamp, r, up);
    PruneTracks(Push(t1, r, up), Added(m, r, up), windowMs, r.timestamp, later, up);
    TotalOfMultiset(Pay(t, windowMs, r, later, up).records, Window(m.live + [r], later - windowMs));
  }

  lemma ReadTracks(t: Tracker, m: Memory, windowMs: int, clock: int, later: int, up: bool)
    requires Tracks(t, m, windowMs, clock) && clock <= later
    ensures Tracks(Prune(t, later - windowMs, up), m, windowMs, later)
    ensures Total(Prune(t, later - windowMs, up).records) == Total(Window(m.live, later - windowMs))
  {
    hide Tracks, Total, Window;
    PruneTracks(t, m, windowMs, clock, later, up);
    TotalOfMultiset(Prune(t, later - windowMs, up).records, Window(m.live, later - windowMs));
  }

  /** Call `i` keeps the tracker in step, and is answered as an ideal limiter with that memory would. */
  ghost predicate Faithful(t: Tracker, m: Memory, c: Config, i: Input) {
    var (t', r) := Do(t, c.windowMs, c.limit, i);
    Tracks(t', Remember(m, i), c.windowMs, i.later) && r == Ideal(c, Remember(m, i).live, i)
  }

  ghost predicate Ready(t: Tracker, m: Memory, c: Config, clock: int, i: Input) {
    Tracks(t, m, c.windowMs, clock) && clock <= i.now <= i.later
  }

  lemma TracksLater(t: Tracker, m: Memory, windowMs: int, clock: int, later: int)
    requires Tracks(t, m, windowMs, clock) && clock <= later
    ensures Tracks(t, m, windowMs, later)
  {
    hide Sorted;
  }

  lemma TracksNothing(t: Tracker, m: Memory, windowMs: int, clock: int)
    requires Tracks(t, m, windowMs, clock)
    ensures Tracks(Tracker([], t.rows), Memory([], m.stored), windowMs, clock)
    ensures Tracks(Tracker([], []), Memory([], []), windowMs, clock)
  {
  }

  lemma RecordFaithful(t: Tracker, m: Memory, c: Config, clock: int, i: Input)
    requires Ready(t, m, c, clock, i) && i.op.Record?
    ensures Faithful(t, m, c, i)
  {
    hide Tracks, Total, Window, Pay;
    if i.op.amount.Some? {
      var r := Rec(i.op.amount.value, i.now);
      PayTracks(t, m, c.windowMs, clock, r, i.later, i.up);
      assert Remember(m, i) == Added(m, r, i.up);
      assert Do(t, c.windowMs, c.limit, i).0 == Pay(t, c.windowMs, r, i.later, i.up);
    } else {
      TracksLater(t, m, c.windowMs, clock, i.later);
      assert Do(t, c.windowMs, c.limit, i).0 == t && Remember(m, i) == m;
    }
  }

  lemma ReadFaithful(t: Tracker, m: Memory, c: Config, clock: int, i: Input)
    requires Ready(t, m, c, clock, i) && (i.op.ReadTotal? || i.op.Clear?)
    ensures Faithful(t, m, c, i)
  {
    hide Total, Window, Prune, Tracks;
    ReadTracks(t, m, c.windowMs, clock, i.later, i.up);
    TracksLater(t, m, c.windowMs, clock, i.later);
    TracksNothing(t, m, c.windowMs, i.later);
  }

  lemma RestartFaithful(t: Tracker, m: Memory, c: Config, clock: int, i: Input)
    requires Ready(t, m, c, clock, i)
    requires i.op.Restart? && Answers(t.rows, i.now - c.windowMs, i.op.answer)
    ensures Faithful(t, m, c, i)
  {
    hide Total, Window, Prune, Answers, Tracks;
    if i.up {
      RestartTracks(t, m, c.windowMs, clock, i.now, i.op.answer);
      PruneTracks(Tracker(i.op.answer, t.rows), Memory(m.stored, m.stored), c.windowMs, i.now, i.later, i.up);
      TracksLater(Tracker(i.op.answer, t.rows), Memory(m.stored, m.stored), c.windowMs, i.now, i.later);
    } else {
      TracksLater(t, m, c.windowMs, clock, i.later);
      TracksNothing(t, m, c.windowMs, i.later);
    }
  }

  lemma StepFaithful(t: Tracker, m: Memory, c: Config, clock: int, i: Input)
    requires Ready(t, m, c, clock, i)
    requires i.op.Restart? ==> Answers(t.rows, i.now - c.windowMs, i.op.answer)
    ensures Faithful(t, m, c, i)
  {
    hide Faithful, Ready, Answers;
    if i.op.Record? {
      RecordFaithful(t, m, c, clock, i);
    } else if i.op.Restart? {
      RestartFaithful(t, m, c, clock, i);
    } else {
      ReadFaithful(t, m, c, clock, i);
    }
  }

  /** What a new process reads back is what is written down in the window. */
  lemma RestartTracks(t: Tracker, m: Memory, windowMs: int, clock: int, now: int, answer: seq<Rec>)
    requires Tracks(t, m, windowMs, clock) && clock <= now
    requires Answers(t.rows, now - windowMs, answer)
    ensures Tracks(Tracker(answer, t.rows), Memory(m.stored, m.stored), windowMs, now)
  {
    forall x: Rec ensures Count(answer, x) == if x.timestamp >= now - windowMs then Count(t.rows, x) else 0 {
      WindowCount(t.rows, now - windowMs, x);
    }
    forall x <- answer ensures x.timestamp <= now {
      assert Count(answer, x) > 0;
      assert Count(t.rows, x) > 0;
    }
  }

  lemma NothingTracksNothing(windowMs: int, clock: int)
    ensures Tracks(Tracker([], []), Memory([], []), windowMs, clock)
  {
  }

  lemma {:induction false} AlwaysTracks(c: Config, run: seq<Input>, n: nat)
    requires n <= |run| && LegalUpTo(c, run, n)
    ensures Tracks(At(c, run, n), Retained(run, n), c.windowMs, ClockAt(run, n))
  {
    if n == 0 {
      NothingTracksNothing(c.windowMs, ClockAt(run, 0));
    } else {
      hide Tracks, Answers, Do;
      AlwaysTracks(c, run, n - 1);
      var t, m, i, clock := At(c, run, n - 1), Retained(run, n - 1), run[n - 1], ClockAt(run, n - 1);
      assert LegalAt(c, run, n - 1);
      assert Ready(t, m, c, clock, i);
      StepFaithful(t, m, c, clock, i);
      assert Faithful(t, m, c, i);
      assert At(c, run, n) == Do(t, c.windowMs, c.limit, i).0 && Retained(run, n) == Remember(m, i);
    }
  }

  /** After every call of every run, memory and table hold, from one window before the clock on, exactly what can
      be known. That is the whole history, in memory if the database worked up to the last restart, and in the
      table as long as it worked. */
  lemma WindowIsRecentHistory(c: Config, run: seq<Input>, n: nat)
    requires n <= |run| && LegalUpTo(c, run, n)
    ensures var t, m, from := At(c, run, n), Retained(run, n), ClockAt(run, n) - c.windowMs;
            && Sorted(t.records)
            && Agree(t.records, m.live, from) && Agree(t.rows, m.stored, from)
            && (Kept(run, n) ==> Agree(t.records, History(run, n), from))
            && (UpBefore(run, n) ==> Agree(t.rows, History(run, n), from))
  {
    AlwaysTracks(c, run, n);
    KeptIsRetained(run, n);
  }

  /** As long as the database works and nothing restarts, the table is the mirror of memory, record by record. */
  lemma {:induction false} MirrorIsExact(c: Config, run: seq<Input>, n: nat)
    requires n <= |run| && LegalUpTo(c, run, n) && UpBefore(run, n)
    requires forall i | 0 <= i < n :: !run[i].op.Restart?
    ensures At(c, run, n).rows == At(c, run, n).records
  {
    if n > 0 {
      MirrorIsExact(c, run, n - 1);
      AlwaysTracks(c, run, n - 1);
      ClockBefore(c, run, n - 1);
      hide Do, LegalUpTo, Sorted, Until, Agree;
      MirrorStep(At(c, run, n - 1), c, ClockAt(run, n - 1), run[n - 1]);
    }
  }

  lemma MirrorStep(t: Tracker, c: Config, clock: int, i: Input)
    requires Sorted(t.records) && Until(t.records, clock) && clock <= i.now && t.rows == t.records
    requires i.up && !i.op.Restart?
    ensures Do(t, c.windowMs, c.limit, i).0.rows == Do(t, c.windowMs, c.limit, i).0.records
  {
    hide Prune, Total, Sorted, Until;
    if i.op.Record? && i.op.amount.Some? {
      var r, t1 := Rec(i.op.amount.value, i.now), Prune(t, i.now - c.windowMs, true);
      PruneMirrors(t, clock, i.now - c.windowMs);
      UntilLater(t1.records, clock, i.now);
      SortedAppend(t1.records, r);
      StaysUntil(t1.records, r, i.later);
      PruneMirrors(Push(t1, r, true), i.now, i.later - c.windowMs);
    } else {
      PruneMirrors(t, clock, i.later - c.windowMs);
    }
  }

  lemma StaysUntil(rs: seq<Rec>, r: Rec, t: int)
    requires Until(rs, r.timestamp)
    ensures Until(rs + [r], r.timestamp)
  {
  }

  lemma PruneMirrors(t: Tracker, clock: int, cutoff: int)
    requires Sorted(t.records) && Until(t.records, clock) && t.rows == t.records
    ensures var t' := Prune(t, cutoff, true);
            t'.rows == t'.records && Sorted(t'.records) && Until(t'.records, clock)
  {
    PruneKeeps(t, cutoff, true, clock);
  }

  /** Every reply of every run, whatever fails, is the one of an ideal limiter over what can be known. */
  lemma {:induction false} RepliesFollowMemory(c: Config, run: seq<Input>, k: nat)
    requires Legal(c, run) && k < |run|
    ensures ReplyAt(c, run, k) == Ideal(c, Retained(run, k + 1).live, run[k])
  {
    AlwaysTracks(c, run, k);
    assert LegalAt(c, run, k);
    StepFaithful(At(c, run, k), Retained(run, k), c, ClockAt(run, k), run[k]);
  }

  /** A payment is accepted if and only if it brings the window to at most the limit; a refusal and a read tell the
      sum of the window; what is no number is ignored. */
  lemma {:induction false} AcceptedExactly(c: Config, run: seq<Input>, k: nat)
    requires Legal(c, run) && k < |run|
    ensures var total := Total(Window(Retained(run, k + 1).live, run[k].later - c.windowMs));
            && (run[k].op.Record? && run[k].op.amount.Some? ==>
                  && (ReplyAt(c, run, k) == Accepted <==> total <= c.limit)
                  && (ReplyAt(c, run, k) == Refused(total) <==> total > c.limit))
            && (run[k].op.Record? && run[k].op.amount.None? ==> ReplyAt(c, run, k) == Ignored)
            && (run[k].op.ReadTotal? ==> ReplyAt(c, run, k) == Sum(total))
  {
    hide Total, Window, Retained, ReplyAt, Legal;
    RepliesFollowMemory(c, run, k);
  }

  /** As long as the database worked up to the last restart, every reply is the one of an ideal limiter that
      remembers the whole history and never restarts. */
  lemma {:induction false} RepliesAreIdeal(c: Config, run: seq<Input>, k: nat)
    requires Legal(c, run) && k < |run| && Kept(run, k + 1)
    ensures ReplyAt(c, run, k) == Ideal(c, History(run, k + 1), run[k])
  {
    RepliesFollowMemory(c, run, k);
    KeptIsRetained(run, k + 1);
  }

  /** What was forgotten, as far as the reply to call `k` is concerned. It is negative when a failed `clear` lets
      cleared payments come back. */
  function Forgotten(c: Config, run: seq<Input>, k: nat): int
    requires k < |run|
  {
    var cutoff := run[k].later - c.windowMs;
    Total(Window(History(run, k + 1), cutoff)) - Total(Window(Retained(run, k + 1).live, cutoff))
  }

  /** In every run, whatever fails: a total is right if and only if nothing in the window is forgotten; a payment
      is answered right if and only if nothing is, or it fits both with and without what is. */
  lemma {:induction false} IdealExactly(c: Config, run: seq<Input>, k: nat)
    requires Legal(c, run) && k < |run|
    ensures var right := ReplyAt(c, run, k) == Ideal(c, History(run, k + 1), run[k]);
            var seen := Total(Window(Retained(run, k + 1).live, run[k].later - c.windowMs));
            && (run[k].op.ReadTotal? ==> (right <==> Forgotten(c, run, k) == 0))
            && (run[k].op.Record? && run[k].op.amount.Some? ==>
                  (right <==> || Forgotten(c, run, k) == 0
                              || (seen <= c.limit && seen + Forgotten(c, run, k) <= c.limit)))
  {
    hide Total, Window, Retained, History, ReplyAt, Legal;
    RepliesFollowMemory(c, run, k);
  }

  ghost function Inserted(run: seq<Input>, p: nat, restart: Input): (restarted: seq<Input>)
    requires p <= |run|
    ensures |restarted| == |run| + 1
  {
    run[..p] + [restart] + run[p..]
  }

  lemma InsertedAt(run: seq<Input>, p: nat, restart: Input, k: nat)
    requires p <= |run|
    ensures Inserted(run, p, restart)[p] == restart
    ensures k < p ==> Inserted(run, p, restart)[k] == run[k]
    ensures p <= k < |run| ==> Inserted(run, p, restart)[k + 1] == run[k]
  {
  }

  /** A table answer fits every table that agrees on the window. */
  lemma AnswersAgree(a: seq<Rec>, b: seq<Rec>, history: seq<Rec>, from: int, cutoff: int, answer: seq<Rec>)
    requires Agree(a, history, from) && Agree(b, history, from) && from <= cutoff
    requires Answers(a, cutoff, answer)
    ensures Answers(b, cutoff, answer)
  {
    SameWindow(a, history, from, cutoff);
    SameWindow(b, history, from, cutoff);
  }

  lemma {:induction false} AtOfPrefix(c: Config, a: seq<Input>, b: seq<Input>, n: nat)
    requires n <= |a| && n <= |b| && forall k | 0 <= k < n :: a[k] == b[k]
    ensures At(c, a, n) == At(c, b, n)
  {
    hide Do;
    if n > 0 { AtOfPrefix(c, a, b, n - 1); }
  }

  /** Everything this process counts is written down as well. */
  predicate Written(run: seq<Input>, p: nat)
    requires p <= |run|
  {
    Retained(run, p).live == Retained(run, p).stored
  }

  /** So it is as long as the database works. */
  lemma UpIsWritten(run: seq<Input>, p: nat)
    requires p <= |run| && UpBefore(run, p)
    ensures Written(run, p)
  {
    KeptIsRetained(run, p);
  }

  /** The restart comes when everything is written down, and can read it. */
  ghost predicate CleanRestart(run: seq<Input>, p: nat, restart: Input) {
    p <= |run| && restart.op.Restart? && restart.up && Written(run, p) && Timed(Inserted(run, p, restart))
  }

  lemma TablesAgree(c: Config, run: seq<Input>, p: nat, restart: Input, k: nat)
    requires CleanRestart(run, p, restart) && p <= k <= |run|
    requires LegalUpTo(c, run, k) && LegalUpTo(c, Inserted(run, p, restart), k + 1)
    ensures var restarted := Inserted(run, p, restart);
            var from := ClockAt(restarted, k + 1) - c.windowMs;
            && Agree(At(c, run, k).rows, Retained(run, k).stored, from)
            && Agree(At(c, restarted, k + 1).rows, Retained(run, k).stored, from)
  {
    hide Inserted, Timed, Written, LegalUpTo, Do, Sorted, Until;
    MemoryIgnoresRestart(run, p, restart, k);
    AlwaysTracks(c, Inserted(run, p, restart), k + 1);
    if k > 0 {
      ClockNotEarlier(run, p, restart, k);
      AlwaysTracks(c, run, k);
    }
  }

  lemma ClockNotEarlier(run: seq<Input>, p: nat, restart: Input, k: nat)
    requires p <= k <= |run| && 0 < k && Timed(Inserted(run, p, restart))
    ensures ClockAt(run, k) <= ClockAt(Inserted(run, p, restart), k + 1)
  {
    hide Inserted;
    InsertedAt(run, p, restart, k - 1);
  }

  lemma LegalBeforeRestart(c: Config, run: seq<Input>, p: nat, restart: Input, k: nat)
    requires k < p <= |run| && LegalAt(c, run, k)
    ensures LegalAt(c, Inserted(run, p, restart), k)
  {
    hide Inserted, Answers, At;
    forall i | 0 <= i <= k ensures Inserted(run, p, restart)[i] == run[i] { InsertedAt(run, p, restart, i); }
    AtOfPrefix(c, run, Inserted(run, p, restart), k);
  }

  lemma ClockBefore(c: Config, run: seq<Input>, n: nat)
    requires n < |run| && LegalUpTo(c, run, n)
    ensures ClockAt(run, n) <= run[n].now
  {
    hide LegalAt;
  }

  /** A restart that was legal stays legal: the table after the inserted restart can give the same answer. */
  lemma LegalAfterRestart(c: Config, run: seq<Input>, p: nat, restart: Input, k: nat)
    requires CleanRestart(run, p, restart) && p <= k < |run|
    requires LegalUpTo(c, run, k) && LegalUpTo(c, Inserted(run, p, restart), k + 1)
    requires LegalAt(c, run, k)
    ensures LegalAt(c, Inserted(run, p, restart), k + 1)
  {
    hide Inserted, Answers, At, Timed, LegalUpTo, Agree, Retained, ClockAt, Written;
    var restarted, i := Inserted(run, p, restart), run[k];
    InsertedAt(run, p, restart, k);
    if i.op.Restart? {
      ClockBefore(c, restarted, k + 1);
      TablesAgree(c, run, p, restart, k);
      var from := ClockAt(restarted, k + 1) - c.windowMs;
      AnswersAgree(At(c, run, k).rows, At(c, restarted, k + 1).rows, Retained(run, k).stored, from,
                   i.now - c.windowMs, i.op.answer);
    }
  }

  lemma {:induction false} StaysLegal(c: Config, run: seq<Input>, p: nat, restart: Input, n: nat)
    requires CleanRestart(run, p, restart) && p < n <= |run| + 1
    requires Legal(c, run) && LegalAt(c, Inserted(run, p, restart), p)
    ensures LegalUpTo(c, Inserted(run, p, restart), n)
  {
    hide Inserted, LegalAt, Timed, Written;
    if n == p + 1 {
      forall k | 0 <= k < p ensures LegalAt(c, Inserted(run, p, restart), k) {
        LegalBeforeRestart(c, run, p, restart, k);
      }
    } else {
      StaysLegal(c, run, p, restart, n - 1);
      LegalAfterRestart(c, run, p, restart, n - 2);
    }
  }

  /** Stopping and rebuilding the tracker at any point of any run at which everything is written down: the rest of
      the run, later restarts and failures included, stays possible, and no reply changes. */
  lemma {:induction false} RestartIsInvisible(c: Config, run: seq<Input>, p: nat, restart: Input)
    requires CleanRestart(run, p, restart)
    requires Legal(c, run) && LegalAt(c, Inserted(run, p, restart), p)
    ensures Legal(c, Inserted(run, p, restart))
    ensures forall k | 0 <= k < p :: ReplyAt(c, Inserted(run, p, restart), k) == ReplyAt(c, run, k)
    ensures forall k | p <= k < |run| :: ReplyAt(c, Inserted(run, p, restart), k + 1) == ReplyAt(c, run, k)
  {
    var restarted := Inserted(run, p, restart);
    StaysLegal(c, run, p, restart, |run| + 1);
    hide Inserted, Do, At, Legal, LegalAt, Ideal, Timed, Retained;
    forall k | 0 <= k < p ensures ReplyAt(c, restarted, k) == ReplyAt(c, run, k) {
      forall i | 0 <= i <= k ensures restarted[i] == run[i] { InsertedAt(run, p, restart, i); }
      AtOfPrefix(c, run, restarted, k);
    }
    forall k | p <= k < |run| ensures ReplyAt(c, restarted, k + 1) == ReplyAt(c, run, k) {
      SameReply(c, run, p, restart, k);
    }
  }

  lemma SameReply(c: Config, run: seq<Input>, p: nat, restart: Input, k: nat)
    requires CleanRestart(run, p, restart) && p <= k < |run|
    requires Legal(c, run) && Legal(c, Inserted(run, p, restart))
    ensures ReplyAt(c, Inserted(run, p, restart), k + 1) == ReplyAt(c, run, k)
  {
    hide Inserted, ReplyAt, Legal, Timed, Written, Ideal, Retained;
    InsertedAt(run, p, restart, k);
    MemoryIgnoresRestart(run, p, restart, k + 1);
    RepliesFollowMemory(c, run, k);
    RepliesFollowMemory(c, Inserted(run, p, restart), k + 1);
  }

  lemma {:induction false} MemoryIgnoresRestart(run: seq<Input>, p: nat, restart: Input, n: nat)
    requires CleanRestart(run, p, restart) && p <= n <= |run|
    ensures Retained(Inserted(run, p, restart), n + 1) == Retained(run, n)
  {
    hide Inserted, Timed;
    if n == p {
      forall i | 0 <= i < p ensures Inserted(run, p, restart)[i] == run[i] { InsertedAt(run, p, restart, i); }
      MemoryOfPrefix(run, Inserted(run, p, restart), p);
      InsertedAt(run, p, restart, p);
    } else {
      MemoryIgnoresRestart(run, p, restart, n - 1);
      InsertedAt(run, p, restart, n - 1);
    }
  }

  lemma {:induction false} MemoryOfPrefix(a: seq<Input>, b: seq<Input>, n: nat)
    requires n <= |a| && n <= |b| && forall k | 0 <= k < n :: a[k] == b[k]
    ensures Retained(a, n) == Retained(b, n)
  {
    hide Remember;
    if n > 0 { MemoryOfPrefix(a, b, n - 1); }
  }

  // ---------------------------------------------------------------- the spending bound

  /** No amount is negative. */
  ghost predicate Paying(run: seq<Input>) {
    forall i | 0 <= i < |run| && run[i].op.Record? && run[i].op.amount.Some? :: run[i].op.amount.value >= 0
  }

  /** Call `k` recorded a payment and returned normally, entirely between `from` and `to`. */
  ghost predicate AcceptedIn(c: Config, run: seq<Input>, k: nat, from: int, to: int)
    requires k < |run|
  {
    && run[k].op.Record? && run[k].op.amount.Some?
    && ReplyAt(c, run, k) == Accepted
    && from <= run[k].now && run[k].later <= to
  }

  /** What the first `n` calls accepted between `from` and `to`, since the last `clear` among them. */
  ghost function Spent(c: Config, run: seq<Input>, n: nat, from: int, to: int): int
    requires n <= |run|
  {
    if n == 0 || run[n - 1].op.Clear? then 0
    else Spent(c, run, n - 1, from, to)
         + if AcceptedIn(c, run, n - 1, from, to) then run[n - 1].op.amount.value else 0
  }

  lemma {:induction false} SpentIsInWindow(c: Config, run: seq<Input>, n: nat, from: int, to: int, cutoff: int)
    requires n <= |run| && Paying(run) && cutoff <= from
    ensures 0 <= Spent(c, run, n, from, to) <= Total(Window(History(run, n), cutoff))
  {
    if n > 0 && !run[n - 1].op.Clear? {
      SpentIsInWindow(c, run, n - 1, from, to, cutoff);
      var h, i := History(run, n - 1), run[n - 1];
      if i.op.Record? && i.op.amount.Some? {
        var r := Rec(i.op.amount.value, i.now);
        assert History(run, n) == h + [r];
        WindowAppend(h, r, cutoff);
        TotalAppend(Window(h, cutoff), r);
        assert Window(h, cutoff) + [] == Window(h, cutoff);
      } else {
        assert History(run, n) == h;
      }
    }
  }

  /** With a limit of 5, a payment of 4 that is not written down, a restart, and the same payment again. */
  ghost predicate LostWrite(c: Config, run: seq<Input>) {
    && c == Config(100, 5)
    && |run| == 3
    && run[0] == Input(0, 0, false, Op.Record(Some(4)))
    && run[1] == Input(1, 1, true, Restart([]))
    && run[2] == Input(2, 2, true, Op.Record(Some(4)))
  }

  lemma LostWriteMemory(c: Config, run: seq<Input>)
    requires LostWrite(c, run)
    ensures Retained(run, 1) == Memory([Rec(4, 0)], [])
    ensures Retained(run, 3).live == [Rec(4, 2)] && History(run, 3) == [Rec(4, 0), Rec(4, 2)]
  {
    assert Retained(run, 1) == Remember(Memory([], []), run[0]);
    assert Retained(run, 2) == Remember(Retained(run, 1), run[1]);
    assert Retained(run, 3) == Remember(Retained(run, 2), run[2]);
    assert History(run, 1) == [Rec(4, 0)];
    assert History(run, 2) == [Rec(4, 0)];
  }

  lemma UnwrittenPayment(t: Tracker, windowMs: int, r: Rec, later: int)
    requires t.rows == []
    ensures Pay(t, windowMs, r, later, false).rows == []
  {
  }

  lemma LostWriteIsLegal(c: Config, run: seq<Input>)
    requires LostWrite(c, run)
    ensures Legal(c, run) && Paying(run)
  {
    hide Pay, Total, Prune;
    assert At(c, run, 0) == Tracker([], []);
    UnwrittenPayment(At(c, run, 0), c.windowMs, Rec(4, 0), 0);
    assert At(c, run, 1).rows == [];
    assert LegalAt(c, run, 0) && LegalAt(c, run, 1) && LegalAt(c, run, 2);
  }

  lemma SumOfOne(r: Rec, cutoff: int)
    requires r.timestamp >= cutoff
    ensures Total(Window([r], cutoff)) == r.amount
  {
    WindowOfFresh([r], cutoff);
  }

  lemma SumOfTwo(r: Rec, q: Rec, cutoff: int)
    requires r.timestamp >= cutoff && q.timestamp >= cutoff
    ensures Total(Window([r, q], cutoff)) == r.amount + q.amount
  {
    WindowOfFresh([r, q], cutoff);
    assert [r, q] == [r] + [q];
    TotalAppend([r], q);
  }

  lemma LostWriteReplies(c: Config, run: seq<Input>)
    requires LostWrite(c, run) && Legal(c, run)
    ensures ReplyAt(c, run, 0) == Accepted && ReplyAt(c, run, 2) == Accepted
    ensures Ideal(c, History(run, 3), run[2]) == Refused(8)
  {
    hide Total, Window, Retained, History, ReplyAt, Legal;
    LostWriteMemory(c, run);
    SumOfOne(Rec(4, 0), -100);
    SumOfOne(Rec(4, 2), -98);
    SumOfTwo(Rec(4, 0), Rec(4, 2), -98);
    RepliesFollowMemory(c, run, 0);
    RepliesFollowMemory(c, run, 2);
  }

  /** An input: a write that fails is forgotten at the next restart, and the limit is overspent. */
  lemma LostWriteIsForgotten(c: Config, run: seq<Input>)
    requires LostWrite(c, run)
    ensures Legal(c, run) && Paying(run) && !Kept(run, 3)
    ensures ReplyAt(c, run, 0) == Accepted && ReplyAt(c, run, 2) == Accepted
    ensures Ideal(c, History(run, 3), run[2]) == Refused(8)
    ensures Spent(c, run, 3, 0, c.windowMs) == 8 > c.limit
  {
    hide ReplyAt, Legal, Paying, Ideal, History;
    LostWriteIsLegal(c, run);
    LostWriteReplies(c, run);
    assert run[1].op.Restart? && !run[0].up;
    assert Spent(c, run, 1, 0, 100) == 4;
    assert Spent(c, run, 2, 0, 100) == 4;
  }

  /** Call `k` recorded a payment and returned normally. */
  ghost predicate AcceptedAt(c: Config, run: seq<Input>, k: nat)
    requires k < |run|
  {
    run[k].op.Record? && run[k].op.amount.Some? && ReplyAt(c, run, k) == Accepted
  }

  /** No payment was accepted with more than `forgotten` missing from its window. */
  ghost predicate LossesWithin(c: Config, run: seq<Input>, n: nat, forgotten: int)
    requires n <= |run|
  {
    forall k | 0 <= k < n && AcceptedAt(c, run, k) :: Forgotten(c, run, k) <= forgotten
  }

  lemma KeptLosesNothing(c: Config, run: seq<Input>, n: nat)
    requires n <= |run| && Kept(run, n)
    ensures LossesWithin(c, run, n, 0)
  {
    hide Total, Window, History, Retained, AcceptedAt;
    forall k | 0 <= k < n ensures Forgotten(c, run, k) == 0 {
      KeptIsRetained(run, k + 1);
    }
  }

  lemma {:induction false} AcceptedFits(c: Config, run: seq<Input>, k: nat)
    requires Legal(c, run) && k < |run| && AcceptedAt(c, run, k)
    ensures Total(Window(History(run, k + 1), run[k].later - c.windowMs)) <= c.limit + Forgotten(c, run, k)
  {
    hide Total, Window, History, Retained, Legal, ReplyAt;
    RepliesFollowMemory(c, run, k);
  }

  function AtLeastZero(x: int): int {
    if x < 0 then 0 else x
  }

  lemma {:induction false} WindowBound(c: Config, run: seq<Input>, n: nat, from: int, forgotten: int)
    requires Legal(c, run) && Paying(run) && n <= |run| && LossesWithin(c, run, n, forgotten)
    ensures Spent(c, run, n, from, from + c.windowMs) <= AtLeastZero(c.limit + forgotten)
  {
    hide ReplyAt, History, Window, Total, Legal, Paying, Forgotten;
    if n > 0 {
      WindowBound(c, run, n - 1, from, forgotten);
      if AcceptedIn(c, run, n - 1, from, from + c.windowMs) {
        assert AcceptedAt(c, run, n - 1);
        AcceptedFits(c, run, n - 1);
        SpentIsInWindow(c, run, n, from, from + c.windowMs, run[n - 1].later - c.windowMs);
      }
    }
  }

  /** The payments accepted since the last `clear` in any interval of one window length sum to at most the limit,
      even though refused amounts stay recorded, if the database worked up to the last restart. Whatever fails,
      they sum to at most the limit plus the most that was forgotten when one of them was accepted. */
  lemma SpendingBound(c: Config, run: seq<Input>, n: nat, from: int, forgotten: int)
    requires Legal(c, run) && Paying(run) && n <= |run|
    ensures Kept(run, n) ==> Spent(c, run, n, from, from + c.windowMs) <= AtLeastZero(c.limit)
    ensures LossesWithin(c, run, n, forgotten) ==>
              Spent(c, run, n, from, from + c.windowMs) <= AtLeastZero(c.limit + forgotten)
  {
    hide Legal, Paying, Spent, LossesWithin, Kept, AtLeastZero;
    if Kept(run, n) {
      KeptLosesNothing(c, run, n);
      WindowBound(c, run, n, from, 0);
    }
    if LossesWithin(c, run, n, forgotten) { WindowBound(c, run, n, from, forgotten); }
  }

  /** As `Spent`, of the calls whose two clock readings differ. */
  ghost function Stretched(c: Config, run: seq<Input>, n: nat, from: int, to: int): int
    requires n <= |run|
  {
    if n == 0 || run[n - 1].op.Clear? then 0
    else Stretched(c, run, n - 1, from, to)
         + if AcceptedIn(c, run, n - 1, from, to) && run[n - 1].now < run[n - 1].later
           then run[n - 1].op.amount.value else 0
  }

  /** Only a stretched call can lie across the moment that splits an interval. */
  lemma {:induction false} SpentSplits(c: Config, run: seq<Input>, n: nat, from: int, mid: int, to: int)
    requires n <= |run| && Paying(run) && Timed(run) && from <= mid <= to
    ensures Spent(c, run, n, from, to) - Stretched(c, run, n, from, to)
         <= Spent(c, run, n, from, mid) - Stretched(c, run, n, from, mid)
            + Spent(c, run, n, mid, to) - Stretched(c, run, n, mid, to)
  {
    if n > 0 { SpentSplits(c, run, n - 1, from, mid, to); }
  }

  lemma {:induction false} StretchedIsNotNegative(c: Config, run: seq<Input>, n: nat, from: int, to: int)
    requires n <= |run| && Paying(run)
    ensures 0 <= Stretched(c, run, n, from, to) <= Spent(c, run, n, from, to)
    ensures (forall k | 0 <= k < n :: run[k].now >= run[k].later) ==> Stretched(c, run, n, from, to) == 0
  {
    if n > 0 { StretchedIsNotNegative(c, run, n - 1, from, to); }
  }

  lemma {:induction false} SpentGrows(c: Config, run: seq<Input>, n: nat, from: int, to: int, to': int)
    requires n <= |run| && Paying(run) && to <= to'
    ensures Spent(c, run, n, from, to) <= Spent(c, run, n, from, to')
  {
    if n > 0 { SpentGrows(c, run, n - 1, from, to, to'); }
  }

  lemma QuotientIs(d: nat, w: nat, q: nat, r: nat)
    requires r < w && d == q * w + r
    ensures d / w == q
  {
    var p := d / w;
    assert d == w * p + d % w;
    if p > q { Wider(p - q, w); } else if p < q { Wider(q - p, w); }
    assert (p - q) * w == p * w - q * w;
  }

  lemma Wider(k: int, w: int)
    requires k >= 1 && w >= 0
    ensures k * w >= w
  {
  }

  lemma OneMoreWindow(duration: nat, windowMs: nat)
    requires 0 < windowMs <= duration
    ensures duration / windowMs == (duration - windowMs) / windowMs + 1
  {
    var q, r := (duration - windowMs) / windowMs, (duration - windowMs) % windowMs;
    assert duration == (q + 1) * windowMs + r;
    QuotientIs(duration, windowMs, q + 1, r);
  }

  lemma AddUp(spent: int, first: int, rest: int, windows: nat, limit: int)
    requires spent <= first + rest && first <= limit && rest <= (windows + 1) * limit
    ensures spent <= (windows + 1 + 1) * limit
  {
  }

  lemma {:induction false} UnstretchedBound(c: Config, run: seq<Input>, n: nat, from: int, duration: nat,
                                            forgotten: int)
    requires Legal(c, run) && Paying(run) && n <= |run| && LossesWithin(c, run, n, forgotten)
    requires c.windowMs > 0
    ensures Spent(c, run, n, from, from + duration) - Stretched(c, run, n, from, from + duration)
         <= (duration / c.windowMs + 1) * AtLeastZero(c.limit + forgotten)
    decreases duration
  {
    hide Spent, Stretched, Legal, Paying, LossesWithin, AtLeastZero;
    var w, most := c.windowMs, AtLeastZero(c.limit + forgotten);
    assert Timed(run) by { LegalIsTimed(c, run); }
    WindowBound(c, run, n, from, forgotten);
    StretchedIsNotNegative(c, run, n, from, from + w);
    StretchedIsNotNegative(c, run, n, from, from + duration);
    if duration < w {
      SpentGrows(c, run, n, from, from + duration, from + w);
      QuotientIs(duration, w, 0, duration);
      assert (duration / w + 1) * most == most;
    } else {
      var rest := duration - w;
      UnstretchedBound(c, run, n, from + w, rest, forgotten);
      assert from + w + rest == from + duration;
      SpentSplits(c, run, n, from, from + w, from + duration);
      OneMoreWindow(duration, w);
      AddUp(Spent(c, run, n, from, from + duration) - Stretched(c, run, n, from, from + duration),
            Spent(c, run, n, from, from + w) - Stretched(c, run, n, from, from + w),
            Spent(c, run, n, from + w, from + duration) - Stretched(c, run, n, from + w, from + duration),
            rest / w, most);
    }
  }

  lemma LegalIsTimed(c: Config, run: seq<Input>)
    requires Legal(c, run)
    ensures Timed(run)
  {
  }

  /** Over any duration the accepted payments are bounded by the number of windows it touches, up to what was
      accepted by calls during which the clock moved; so they are when it never moves during a call. As for one
      window, nothing is forgotten if the database worked up to the last restart. */
  lemma SpendingBoundOverDuration(c: Config, run: seq<Input>, n: nat, from: int, duration: nat, forgotten: int)
    requires Legal(c, run) && Paying(run) && n <= |run| && c.windowMs > 0
    requires LossesWithin(c, run, n, forgotten) || (Kept(run, n) && forgotten == 0)
    ensures Spent(c, run, n, from, from + duration)
         <= (duration / c.windowMs + 1) * AtLeastZero(c.limit + forgotten)
            + Stretched(c, run, n, from, from + duration)
    ensures (forall k | 0 <= k < n :: run[k].now == run[k].later) ==>
              Spent(c, run, n, from, from + duration)
              <= (duration / c.windowMs + 1) * AtLeastZero(c.limit + forgotten)
  {
    hide Legal, Paying, Spent, LossesWithin, Kept, AtLeastZero;
    if Kept(run, n) && forgotten == 0 { KeptLosesNothing(c, run, n); }
    UnstretchedBound(c, run, n, from, duration, forgotten);
    StretchedIsNotNegative(c, run, n, from, from + duration);
  }

  /** The sum that decides about a payment: at least the payment inside the window, nothing outside. */
  lemma TotalWithPayment(h: seq<Rec>, r: Rec, cutoff: int)
    requires Until(h, r.timestamp) && Total(Window(h, cutoff)) >= 0
    ensures r.timestamp >= cutoff ==> Total(Window(h + [r], cutoff)) >= r.amount
    ensures r.timestamp < cutoff ==> Total(Window(h + [r], cutoff)) == 0
  {
    hide Window;
    if r.timestamp >= cutoff {
      WindowAppend(h, r, cutoff);
      TotalAppend(Window(h, cutoff), r);
    } else {
      NoneInWindow(h + [r], cutoff);
    }
  }

  ghost predicate NonNegative(rs: seq<Rec>) {
    forall k | 0 <= k < |rs| :: rs[k].amount >= 0
  }

  /** A single payment above the limit is accepted, in every run and whatever fails, if and only if the clock moves
      by more than a window between the two readings of its call: it is then outside the window over which it is
      summed. */
  lemma OversizedAcceptedExactly(c: Config, run: seq<Input>, k: nat)
    requires Legal(c, run) && Paying(run) && k < |run| && c.limit >= 0
    requires run[k].op.Record? && run[k].op.amount.Some? && run[k].op.amount.value > c.limit
    ensures ReplyAt(c, run, k) == Accepted <==> run[k].later > run[k].now + c.windowMs
  {
    assert MemoryIsSane(Retained(run, k), run[k].now) by { RetainedIsSane(run, k, run[k].now); }
    hide Legal, Paying, ReplyAt, Window, Total, Until, NonNegative;
    var r, cutoff := Rec(run[k].op.amount.value, run[k].now), run[k].later - c.windowMs;
    RepliesFollowMemory(c, run, k);
    WindowNotNegative(Retained(run, k).live, cutoff);
    TotalWithPayment(Retained(run, k).live, r, cutoff);
  }

  ghost predicate MemoryIsSane(m: Memory, t: int) {
    Until(m.live, t) && Until(m.stored, t) && NonNegative(m.live) && NonNegative(m.stored)
  }

  lemma {:induction false} RetainedIsSane(run: seq<Input>, n: nat, t: int)
    requires n <= |run| && Paying(run) && forall k | 0 <= k < n :: run[k].now <= t
    ensures MemoryIsSane(Retained(run, n), t)
  {
    if n > 0 { RetainedIsSane(run, n - 1, t); }
  }

  lemma {:induction false} WindowNotNegative(rs: seq<Rec>, cutoff: int)
    requires NonNegative(rs)
    ensures Total(Window(rs, cutoff)) >= 0
  {
    if rs != [] {
      var front, last := rs[..|rs| - 1], rs[|rs| - 1];
      WindowNotNegative(front, cutoff);
      TotalAppend(Window(front, cutoff), last);
      assert Window(front, cutoff) + [] == Window(front, cutoff);
    }
  }

  /** An input: a call that takes longer than the window gets a payment above the limit accepted. */
  lemma StretchedPaymentIsAccepted() returns (c: Config, run: seq<Input>)
    ensures Legal(c, run) && Paying(run) && |run| == 1
    ensures run[0].op == Op.Record(Some(6)) && c.limit == 5 && ReplyAt(c, run, 0) == Accepted
  {
    c, run := Config(100, 5), [Input(0, 101, true, Op.Record(Some(6)))];
    assert LegalAt(c, run, 0);
    OversizedAcceptedExactly(c, run, 0);
  }

  lemma {:induction false} NoneInWindow(rs: seq<Rec>, cutoff: int)
    requires forall x <- rs :: x.timestamp < cutoff
    ensures Window(rs, cutoff) == []
  {
    if rs != [] { NoneInWindow(rs[..|rs| - 1], cutoff); }
  }
}
