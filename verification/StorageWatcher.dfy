/** The contract storage watcher: a cache of the watched keys and one `change` event per difference. */
module StorageWatcher {
  import opened Outcome

  type Key = string
  type Val = string
  type Cache = map<Key, Val>

  datatype Change = Change(key: Key, oldValue: Option<Val>, newValue: Option<Val>)

  function Get(m: Cache, k: Key): Option<Val> {
    if k in m then Some(m[k]) else None
  }

  function Put(m: Cache, k: Key, v: Option<Val>): Cache {
    match v
    case Some(value) => m[k := value]
    case None => m - {k}
  }

  /** The state an observer reaches by applying the events in order. */
  function Replay(base: Cache, events: seq<Change>): Cache {
    if events == [] then base
    else
      var e := events[|events| - 1];
      Put(Replay(base, events[..|events| - 1]), e.key, e.newValue)
  }

  /** The entries of a response; of several with one key the last counts. */
  function Snapshot(entries: seq<(Key, Val)>): Cache {
    if entries == [] then map[]
    else Snapshot(entries[..|entries| - 1])[entries[|entries| - 1].0 := entries[|entries| - 1].1]
  }

  /** A key has a value in the snapshot if and only if some entry says so and no later entry has that key. */
  lemma {:induction false} SnapshotHolds(entries: seq<(Key, Val)>, k: Key, v: Val)
    ensures Get(Snapshot(entries), k) == Some(v)
       <==> exists i :: 0 <= i < |entries| && entries[i] == (k, v) && forall j | i < j < |entries| :: entries[j].0 != k
  {
    if entries != [] {
      var front, last := entries[..|entries| - 1], entries[|entries| - 1];
      SnapshotHolds(front, k, v);
      if last.0 == k {
        assert entries[|entries| - 1] == last;
      } else {
        forall i | 0 <= i < |front| ensures entries[i] == front[i] {}
        if i :| 0 <= i < |front| && front[i] == (k, v) && forall j | i < j < |front| :: front[j].0 != k {
          assert entries[i] == (k, v) && forall j | i < j < |entries| :: entries[j].0 != k;
        }
      }
    }
  }

  /** On the keys in `done`, the events are exactly the differences: one per differing key, in any order,
      with the value before and the value after. */
  ghost predicate DiffOn(before: Cache, after: Cache, events: seq<Change>, done: set<Key>) {
    && (forall i, j | 0 <= i < j < |events| :: events[i].key != events[j].key)
    && (forall i | 0 <= i < |events| ::
          && events[i].key in done
          && events[i] == Change(events[i].key, Get(before, events[i].key), Get(after, events[i].key))
          && events[i].oldValue != events[i].newValue)
    && (forall k <- done | Get(before, k) != Get(after, k) :: Reported(events, k))
  }

  ghost predicate Reported(events: seq<Change>, k: Key) {
    exists i :: 0 <= i < |events| && events[i].key == k
  }

  ghost predicate IsDiff(before: Cache, after: Cache, events: seq<Change>) {
    DiffOn(before, after, events, before.Keys + after.Keys)
  }

  lemma SameGets(a: Cache, b: Cache)
    requires forall k :: Get(a, k) == Get(b, k)
    ensures a == b
  {
    assert forall k :: k in a <==> Get(a, k).Some?;
    assert forall k :: k in b <==> Get(b, k).Some?;
    assert forall k | k in a :: Get(a, k) == Some(a[k]) && Get(b, k) == Some(b[k]);
  }

  lemma ReplayAppend(base: Cache, events: seq<Change>, e: Change)
    ensures Replay(base, events + [e]) == Put(Replay(base, events), e.key, e.newValue)
  {
    assert (events + [e])[..|events|] == events;
  }

  lemma {:induction false} ReplayConcat(base: Cache, a: seq<Change>, b: seq<Change>)
    ensures Replay(base, a + b) == Replay(Replay(base, a), b)
  {
    if b == [] {
      assert a + b == a;
    } else {
      assert (a + b)[..|a + b| - 1] == a + b[..|b| - 1];
      ReplayConcat(base, a, b[..|b| - 1]);
    }
  }

  lemma {:induction false} ReplayAt(base: Cache, events: seq<Change>, k: Key)
    requires forall i, j | 0 <= i < j < |events| :: events[i].key != events[j].key
    ensures !Reported(events, k) ==> Get(Replay(base, events), k) == Get(base, k)
    ensures forall i | 0 <= i < |events| && events[i].key == k :: Get(Replay(base, events), k) == events[i].newValue
  {
    if events != [] {
      ReplayAt(base, events[..|events| - 1], k);
      if Reported(events[..|events| - 1], k) {
        var i :| 0 <= i < |events| - 1 && events[..|events| - 1][i].key == k;
        assert events[i].key == k;
      }
      assert events[|events| - 1].key == k ==> Reported(events, k);
    }
  }

  /** A diff, whatever its order, replays the state before into the state after. */
  lemma DiffReplays(before: Cache, after: Cache, events: seq<Change>)
    requires IsDiff(before, after, events)
    ensures Replay(before, events) == after
  {
    forall k ensures Get(Replay(before, events), k) == Get(after, k) {
      ReplayAt(before, events, k);
      if Reported(events, k) {
        var i :| 0 <= i < |events| && events[i].key == k;
        assert events[i].newValue == Get(after, k);
      } else if k in before.Keys + after.Keys {
        assert Get(before, k) == Get(after, k);
      }
    }
    SameGets(Replay(before, events), after);
  }

  /** No event at all means nothing changed, and the other way round. */
  lemma SilentIffSame(before: Cache, after: Cache, events: seq<Change>)
    requires IsDiff(before, after, events)
    ensures events == [] <==> before == after
  {
    DiffReplays(before, after, events);
    if events != [] { assert events[0].oldValue != events[0].newValue; }
  }

  /** Successive states and, between each and the next, the events of one poll. */
  ghost predicate Polls(states: seq<Cache>, batches: seq<seq<Change>>) {
    && |states| == |batches| + 1
    && (forall i | 0 <= i < |batches| :: IsDiff(states[i], states[i + 1], batches[i]))
  }

  function Flatten(batches: seq<seq<Change>>): seq<Change> {
    if batches == [] then [] else Flatten(batches[..|batches| - 1]) + batches[|batches| - 1]
  }

  /** The events of a whole run of polls replay the baseline into the last snapshot. */
  lemma {:induction false} RunReplays(states: seq<Cache>, batches: seq<seq<Change>>)
    requires Polls(states, batches)
    ensures Replay(states[0], Flatten(batches)) == states[|states| - 1]
    decreases |batches|
  {
    if batches != [] {
      var n := |batches| - 1;
      RunReplays(states[..n + 1], batches[..n]);
      ReplayConcat(states[0], Flatten(batches[..n]), batches[n]);
      assert IsDiff(states[n], states[n + 1], batches[n]);
      DiffReplays(states[n], states[n + 1], batches[n]);
    }
  }

  // ---------------------------------------------------------------- one comparison, key by key

  /** `mid` has already the new values on `done` and still the old ones elsewhere, and the events so far
      are the differences on `done`. */
  ghost predicate Progress(before: Cache, after: Cache, mid: Cache, events: seq<Change>, done: set<Key>) {
    && (forall k :: Get(mid, k) == if k in done then Get(after, k) else Get(before, k))
    && DiffOn(before, after, events, done)
  }

  lemma ProgressStarts(before: Cache, after: Cache)
    ensures Progress(before, after, before, [], {})
  {
  }

  lemma ProgressReports(before: Cache, after: Cache, mid: Cache, events: seq<Change>, done: set<Key>, key: Key)
    requires Progress(before, after, mid, events, done)
    requires Get(mid, key) != Get(after, key)
    ensures Progress(before, after, Put(mid, key, Get(after, key)),
                     events + [Change(key, Get(mid, key), Get(after, key))], done + {key})
  {
    var e := Change(key, Get(mid, key), Get(after, key));
    forall k <- done + {key} | Get(before, k) != Get(after, k) ensures Reported(events + [e], k) {
      if k == key {
        assert (events + [e])[|events|].key == k;
      } else {
        var i :| 0 <= i < |events| && events[i].key == k;
        assert (events + [e])[i].key == k;
      }
    }
  }

  lemma ProgressPasses(before: Cache, after: Cache, mid: Cache, events: seq<Change>, done: set<Key>, key: Key)
    requires Progress(before, after, mid, events, done)
    requires Get(mid, key) == Get(after, key)
    ensures Progress(before, after, mid, events, done + {key})
  {
    if key !in done { assert Get(before, key) == Get(after, key); }
  }

  lemma InStep(before: Cache, after: Cache, mid: Cache, events: seq<Change>, done: set<Key>, key: Key)
    requires Progress(before, after, mid, events, done)
    requires after.Keys <= done && (key in after || key !in mid)
    ensures Get(mid, key) == Get(after, key)
  {
  }

  lemma GetHere(m: Cache, after: Cache, key: Key)
    requires key in m && key !in after
    ensures Get(m, key) != None && Get(after, key) == None
  {
  }

  lemma ProgressEnds(before: Cache, after: Cache, mid: Cache, events: seq<Change>, done: set<Key>)
    requires Progress(before, after, mid, events, done)
    requires forall k | k in mid || k in after :: k in done
    ensures mid == after && IsDiff(before, after, events)
  {
    forall k ensures Get(mid, k) == Get(after, k) {
      if k !in done { assert k !in mid && k !in after; }
    }
    SameGets(mid, after);
    forall i | 0 <= i < |events| ensures events[i].key in before.Keys + after.Keys {
      assert events[i].oldValue != events[i].newValue;
    }
  }

  /** Event by event: the cache is the base with the events so far applied, and the event told the truth
      about the value it replaced. */
  ghost predicate Truthful(base: Cache, events: seq<Change>, cacheAt: seq<Cache>) {
    && |cacheAt| == |events|
    && (forall i | 0 <= i < |events| :: TruthfulAt(base, events, cacheAt[i], i))
  }

  ghost predicate TruthfulAt(base: Cache, events: seq<Change>, cache: Cache, i: nat)
    requires i < |events|
  {
    && cache == Replay(base, events[..i + 1])
    && events[i].oldValue == Get(Replay(base, events[..i]), events[i].key)
    && events[i].oldValue != events[i].newValue
  }

  lemma FreshlyTruthful(base: Cache, events: seq<Change>, cacheAt: seq<Cache>, oldBase: Cache)
    requires Truthful(oldBase, events, cacheAt) && events == []
    ensures Replay(base, events) == base && Truthful(base, events, cacheAt)
  {
  }

  lemma TruthfulAppend(base: Cache, events: seq<Change>, cacheAt: seq<Cache>, key: Key, v: Option<Val>)
    requires Truthful(base, events, cacheAt)
    requires Get(Replay(base, events), key) != v
    ensures var cache := Replay(base, events);
            var events' := events + [Change(key, Get(cache, key), v)];
            Replay(base, events') == Put(cache, key, v) && Truthful(base, events', cacheAt + [Put(cache, key, v)])
  {
    var cache := Replay(base, events);
    var e := Change(key, Get(cache, key), v);
    var events' := events + [e];
    ReplayAppend(base, events, e);
    assert events'[..|events'|] == events' && events'[..|events|] == events;
    forall i | 0 <= i < |events'| ensures TruthfulAt(base, events', (cacheAt + [Put(cache, key, v)])[i], i) {
      if i < |events| {
        assert events'[..i + 1] == events[..i + 1] && events'[..i] == events[..i];
        assert TruthfulAt(base, events, cacheAt[i], i);
      }
    }
  }

  /** How one poll goes: the response, None for a failed request; how many events a listener bears before it
      throws, None if it never does; whether errors have a listener; whether the watcher is stopped meanwhile. */
  datatype Answer = Answer(response: Option<seq<(Key, Val)>>, patience: Option<nat>, errorListener: bool, stopped: bool)

  /** The poll failed or a listener threw, and nobody listens to errors. */
  predicate Dies(a: Answer, threw: bool) {
    (a.response.None? || threw) && !a.errorListener
  }

  ghost predicate Quiet(answers: seq<Answer>) {
    forall i | 0 <= i < |answers| :: answers[i].patience.None?
  }

  function SnapshotOf(a: Answer): Option<Cache> {
    match a.response
    case Some(entries) => Some(Snapshot(entries))
    case None => None
  }

  function FirstSnapshot(answers: seq<Answer>): Option<Cache> {
    if answers == [] then None
    else
      var earlier := FirstSnapshot(answers[..|answers| - 1]);
      if earlier.Some? then earlier else SnapshotOf(answers[|answers| - 1])
  }

  function LastSnapshot(answers: seq<Answer>): Option<Cache> {
    if answers == [] then None
    else if answers[|answers| - 1].response.Some? then SnapshotOf(answers[|answers| - 1])
    else LastSnapshot(answers[..|answers| - 1])
  }

  class ContractStorageWatcher {
    const maxPolls: Option<nat>
    var stateCache: Cache
    var pollCount: nat
    var isStopped: bool
    var isInitialized: bool
    var timerPending: bool
    ghost var baseline: Cache
    ghost var events: seq<Change>
    /** The cache as it was at each emitted event. */
    ghost var cacheAt: seq<Cache>

    /** At every event so far, and now, the cache is the baseline with the events so far applied. */
    ghost predicate Valid()
      reads this
    {
      && (!isInitialized ==> stateCache == map[] && events == [] && baseline == map[])
      && stateCache == Replay(baseline, events)
      && Truthful(baseline, events, cacheAt)
      && (isStopped ==> !timerPending)
    }

    constructor (initialState: Option<Cache>, maxPolls: Option<nat>)
      ensures Valid() && events == [] && pollCount == 0 && !isStopped && timerPending
      ensures this.maxPolls == maxPolls
      ensures isInitialized <==> initialState.Some?
      ensures initialState.Some? ==> baseline == stateCache == initialState.value
    {
      this.maxPolls := maxPolls;
      stateCache := if initialState.Some? then initialState.value else map[];
      baseline := if initialState.Some? then initialState.value else map[];
      isInitialized := initialState.Some?;
      pollCount, isStopped, timerPending := 0, false, true;
      events, cacheAt := [], [];
    }

    method Stop()
      requires Valid()
      modifies this`isStopped, this`timerPending
      ensures Valid() && isStopped && !timerPending
    {
      isStopped := true;
      timerPending := false;
    }

    /** Writes the new value of one key to the cache, then emits the event. */
    method WriteAndEmit(key: Key, newValue: Option<Val>)
      requires Valid() && isInitialized && Get(stateCache, key) != newValue
      modifies this`stateCache, this`events, this`cacheAt
      ensures Valid()
      ensures stateCache == Put(old(stateCache), key, newValue)
      ensures events == old(events) + [Change(key, Get(old(stateCache), key), newValue)]
    {
      hide Replay, Truthful;
      TruthfulAppend(baseline, events, cacheAt, key, newValue);
      ghost var e := Change(key, Get(stateCache, key), newValue);
      stateCache := if newValue.Some? then stateCache[key := newValue.value] else stateCache - {key};
      events := events + [e];
      cacheAt := cacheAt + [stateCache];
    }

    /** The first loop: changed and new keys, in any order. A listener may throw after `patience` events. */
    method EmitChanged(current: Cache, patience: Option<nat>, ghost before: Cache)
      returns (emitted: nat, threw: bool, ghost batch: seq<Change>)
      requires Valid() && isInitialized && before == stateCache
      modifies this`stateCache, this`events, this`cacheAt
      ensures Valid() && events == old(events) + batch
      ensures !threw ==> Progress(before, current, stateCache, batch, current.Keys)
      ensures patience.None? ==> !threw
    {
      hide Progress, Valid, Get, Put;
      ghost var done: set<Key> := {};
      batch, emitted := [], 0;
      ProgressStarts(before, current);
      var todo := current.Keys;
      while todo != {}
        invariant Valid() && isInitialized && events == old(events) + batch
        invariant done == current.Keys - todo && todo <= current.Keys
        invariant Progress(before, current, stateCache, batch, done)
        decreases |todo|
      {
        var key :| key in todo;
        if Get(stateCache, key) != Get(current, key) {
          ProgressReports(before, current, stateCache, batch, done, key);
          batch := batch + [Change(key, Get(stateCache, key), Get(current, key))];
          WriteAndEmit(key, Get(current, key));
          emitted := emitted + 1;
          if patience.Some? && emitted > patience.value { return emitted, true, batch; }
        } else {
          ProgressPasses(before, current, stateCache, batch, done, key);
        }
        todo := todo - {key};
        done := done + {key};
      }
      assert done == current.Keys;
      return emitted, false, batch;
    }

    /** The second loop: keys that are in the cache but not in the response, in any order. */
    method EmitDeleted(current: Cache, patience: Option<nat>, soFar: nat, ghost before: Cache,
                       ghost changed: seq<Change>)
      returns (threw: bool, ghost batch: seq<Change>)
      requires Valid() && isInitialized && Progress(before, current, stateCache, changed, current.Keys)
      modifies this`stateCache, this`events, this`cacheAt
      ensures Valid() && events == old(events) + batch
      ensures !threw ==> stateCache == current && IsDiff(before, current, changed + batch)
      ensures patience.None? ==> !threw
    {
      hide Progress, Valid, IsDiff, Get;
      batch, threw := [], false;
      var emitted := soFar;
      var todo := stateCache.Keys;
      ghost var all := todo;
      ghost var done := current.Keys;
      assert changed + batch == changed;
      while todo != {}
        invariant Valid() && isInitialized && events == old(events) + batch
        invariant current.Keys <= done && todo <= all && all - todo <= done
        invariant stateCache.Keys <= all
        invariant Progress(before, current, stateCache, changed + batch, done)
        decreases |todo|
      {
        var key :| key in todo;
        if key !in current && key in stateCache {
          GetHere(stateCache, current, key);
          ProgressReports(before, current, stateCache, changed + batch, done, key);
          ghost var e := Change(key, Get(stateCache, key), Get(current, key));
          assert changed + batch + [e] == changed + (batch + [e]);
          batch := batch + [e];
          WriteAndEmit(key, None);
          emitted := emitted + 1;
          if patience.Some? && emitted > patience.value { return true, batch; }
        } else {
          InStep(before, current, stateCache, changed + batch, done, key);
          ProgressPasses(before, current, stateCache, changed + batch, done, key);
        }
        todo := todo - {key};
        done := done + {key};
      }
      ProgressEnds(before, current, stateCache, changed + batch, done);
    }

    method Compare(current: Cache, patience: Option<nat>) returns (threw: bool)
      requires Valid() && isInitialized
      modifies this`stateCache, this`events, this`cacheAt
      ensures Valid() && old(events) <= events
      ensures !threw ==> stateCache == current && IsDiff(old(stateCache), current, events[|old(events)|..])
      ensures patience.None? ==> !threw
    {
      hide Progress, Valid, IsDiff;
      ghost var before := stateCache;
      var emitted, broke, changed := EmitChanged(current, patience, before);
      if broke { return true; }
      ghost var deleted;
      threw, deleted := EmitDeleted(current, patience, emitted, before, changed);
      assert events[|old(events)|..] == changed + deleted;
    }

    /** The response as a map, built entry by entry. */
    method ReadEntries(entries: seq<(Key, Val)>) returns (current: Cache)
      ensures current == Snapshot(entries)
    {
      current := map[];
      for i := 0 to |entries|
        invariant current == Snapshot(entries[..i])
      {
        assert entries[..i + 1][..i] == entries[..i];
        current := current[entries[i].0 := entries[i].1];
      }
      assert entries[..|entries|] == entries;
    }

    /** The synchronous beginning of a poll; then the request is on its way. */
    method BeginPoll() returns (asked: bool)
      requires Valid()
      modifies this`pollCount, this`timerPending
      ensures Valid()
      ensures asked <==> !isStopped
      ensures pollCount == old(pollCount) + if asked then 1 else 0
      ensures timerPending == (old(timerPending) && !asked)
    {
      if isStopped { return false; }
      timerPending := false;
      pollCount := pollCount + 1;
      return true;
    }

    /** The rest of a poll, from the response on; None is a failed request. The watcher may have been stopped
        meanwhile. Without an error listener, reporting an error ends the watching there and then. */
    method FinishPoll(response: Option<seq<(Key, Val)>>, patience: Option<nat>, errorListener: bool)
      returns (threw: bool)
      requires Valid() && !timerPending
      modifies this
      ensures Valid() && pollCount == old(pollCount)
      // a failed request changes neither cache nor events
      ensures response.None? ==> stateCache == old(stateCache) && events == old(events)
      ensures response.None? ==> isInitialized == old(isInitialized) && baseline == old(baseline)
      // the first response is the baseline
      ensures response.Some? && !old(isInitialized) ==>
                isInitialized && baseline == stateCache == Snapshot(response.value) && events == []
      // afterwards the events are the exact differences, unless a listener threw
      ensures old(isInitialized) ==> isInitialized && baseline == old(baseline) && old(events) <= events
      ensures response.Some? && old(isInitialized) && !threw ==>
                && stateCache == Snapshot(response.value)
                && IsDiff(old(stateCache), Snapshot(response.value), events[|old(events)|..])
      ensures patience.None? ==> !threw
      // polling goes on until the maximum or a stop, and only then
      ensures var dies := (response.None? || threw) && !errorListener;
              && (isStopped <==> old(isStopped) || (!dies && maxPolls.Some? && pollCount >= maxPolls.value))
              && (timerPending <==> !isStopped && !dies)
    {
      hide Snapshot, IsDiff, Truthful, Replay;
      threw := false;
      if response.Some? {
        var current := ReadEntries(response.value);
        if !isInitialized {
          stateCache := stateCache + current;
          isInitialized := true;
          baseline := stateCache;
          assert stateCache == current;
          FreshlyTruthful(current, events, cacheAt, old(baseline));
        } else {
          threw := Compare(current, patience);
        }
      }
      if (response.None? || threw) && !errorListener { return; }
      if maxPolls.Some? && pollCount >= maxPolls.value {
        Stop();
        return;
      }
      if !isStopped {
        timerPending := true;
      }
    }

    lemma ValidReplays()
      requires Valid()
      ensures stateCache == Replay(baseline, events) && (isStopped ==> !timerPending)
    {
    }

    /** The timer's loop: as long as it is pending, it expires and one more poll is answered. Whatever fails,
        throws or stops in between, the events emitted replay the baseline into the cache. The baseline is the
        initial state or the first response, and with listeners that do not throw the cache is the last response.
        `threw` says whether a listener threw in the last poll. */
    method Watch(answers: seq<Answer>) returns (k: nat, threw: bool)
      requires Valid()
      modifies this
      ensures Valid() && k <= |answers| && (k < |answers| ==> !timerPending)
      ensures stateCache == Replay(baseline, events)
      ensures old(isInitialized) ==> baseline == old(baseline) && old(events) <= events
      ensures !old(isInitialized) && FirstSnapshot(answers[..k]).Some? ==>
                baseline == FirstSnapshot(answers[..k]).value
      ensures Quiet(answers[..k]) ==>
                stateCache == (if LastSnapshot(answers[..k]).Some? then LastSnapshot(answers[..k]).value
                               else old(stateCache))
      ensures pollCount == old(pollCount) + k
      // it ends early only if stopped, at the maximum, or on an error nobody listens to
      ensures k < |answers| ==> isStopped || !old(timerPending) || (k > 0 && Dies(answers[k - 1], threw))
      ensures k == 0 || answers[k - 1].patience.None? ==> !threw
    {
      hide Valid, Replay, IsDiff, Snapshot;
      ValidReplays();
      k, threw := 0, false;
      while k < |answers| && timerPending
        invariant k <= |answers| && Valid() && stateCache == Replay(baseline, events)
        invariant pollCount == old(pollCount) + k
        invariant old(isInitialized) ==> isInitialized && baseline == old(baseline) && old(events) <= events
        invariant !old(isInitialized) ==> (isInitialized <==> FirstSnapshot(answers[..k]).Some?)
        invariant !old(isInitialized) && isInitialized ==> baseline == FirstSnapshot(answers[..k]).value
        invariant Quiet(answers[..k]) ==>
                    stateCache == (if LastSnapshot(answers[..k]).Some? then LastSnapshot(answers[..k]).value
                                   else old(stateCache))
        invariant !timerPending ==> isStopped || !old(timerPending) || (k > 0 && Dies(answers[k - 1], threw))
        invariant k == 0 || answers[k - 1].patience.None? ==> !threw
      {
        assert answers[..k + 1][..k] == answers[..k];
        ValidReplays();
        var asked := BeginPoll();
        if answers[k].stopped { Stop(); }
        threw := FinishPoll(answers[k].response, answers[k].patience, answers[k].errorListener);
        ValidReplays();
        k := k + 1;
      }
    }
  }
}
