/** The account cache of the RPC client: entries with their own expiry, loads that wait for the network
    in between, invalidation, and submissions that empty it. */
module AccountCache {
  import opened Outcome

  type PublicKey = string
  type Account = nat     // one record as fetched

  datatype Cached = Cached(account: Account, expiresAt: int)
  type Cache = map<PublicKey, Cached>

  /** The pieces of the calls between which others may run. A load that misses begins a fetch and finishes
      later, with an account or not at all. */
  datatype Op =
    | BeginLoad(key: PublicKey, forceRefresh: bool)
    | FinishLoad(key: PublicKey, account: Account)
    | FailLoad(key: PublicKey)
    | Invalidate(which: Option<PublicKey>)   // None: the whole cache
    | EndSubmit

  datatype Entry = Entry(now: int, op: Op)

  /** What a load that has begun does: serve a cached record, or go and fetch. */
  function Lookup(ttl: int, m: Cache, now: int, key: PublicKey, forceRefresh: bool): (Cache, Option<Account>) {
    if forceRefresh then (m - {key}, None)
    else if ttl > 0 && key in m then
      if m[key].expiresAt > now then (m, Some(m[key].account)) else (m - {key}, None)
    else (m, None)
  }

  function Step(ttl: int, m: Cache, e: Entry): Cache {
    match e.op
    case BeginLoad(key, force) => Lookup(ttl, m, e.now, key, force).0
    case FinishLoad(key, account) => if ttl > 0 then m[key := Cached(account, e.now + ttl)] else m
    case FailLoad(_) => m
    case Invalidate(None) => map[]
    case Invalidate(Some(key)) => m - {key}
    case EndSubmit => map[]
  }

  class AccountCacheOf {
    const ttl: int
    var accountCache: Cache

    constructor (ttl: int)
      ensures this.ttl == ttl && accountCache == map[]
    {
      this.ttl, accountCache := ttl, map[];
    }

    method InvalidateAccountCache(key: Option<PublicKey>, now: int)
      modifies this
      ensures accountCache == Step(ttl, old(accountCache), Entry(now, Invalidate(key)))
    {
      if key.None? {
        accountCache := map[];
        return;
      }
      accountCache := accountCache - {key.value};
    }

    /** `loadAccount` up to the request: Some is served from the cache, None goes to the network. */
    method LoadFromCache(key: PublicKey, forceRefresh: bool, now: int) returns (hit: Option<Account>)
      modifies this
      ensures (accountCache, hit) == Lookup(ttl, old(accountCache), now, key, forceRefresh)
    {
      if forceRefresh {
        accountCache := accountCache - {key};
      } else if ttl > 0 {
        if key in accountCache && accountCache[key].expiresAt > now {
          return Some(accountCache[key].account);
        }
        if key in accountCache {
          accountCache := accountCache - {key};
        }
      }
      return None;
    }

    /** `loadAccount` after the request succeeded. */
    method StoreLoaded(key: PublicKey, account: Account, now: int) returns (r: Account)
      modifies this
      ensures r == account
      ensures accountCache == Step(ttl, old(accountCache), Entry(now, FinishLoad(key, account)))
    {
      if ttl > 0 {
        accountCache := accountCache[key := Cached(account, now + ttl)];
      }
      return account;
    }

    /** The `finally` of `submitTransaction`. */
    method FinishSubmit(now: int)
      modifies this
      ensures accountCache == Step(ttl, old(accountCache), Entry(now, EndSubmit))
      ensures accountCache == map[]
    {
      InvalidateAccountCache(None, now);
    }
  }

  // ---------------------------------------------------------------- every interleaving

  function At(ttl: int, run: seq<Entry>, n: nat): Cache
    requires n <= |run|
  {
    if n == 0 then map[] else Step(ttl, At(ttl, run, n - 1), run[n - 1])
  }

  ghost predicate Timed(run: seq<Entry>) {
    forall i, j | 0 <= i <= j < |run| :: run[i].now <= run[j].now
  }

  /** The operation drops whatever is stored under the key. */
  predicate Drops(op: Op, key: PublicKey) {
    match op
    case BeginLoad(k, force) => k == key && force
    case Invalidate(k) => k == None || k == Some(key)
    case EndSubmit => true
    case _ => false
  }

  /** Call `i` stored `account` under the key, and nothing stored or dropped anything there since. */
  ghost predicate LastStored(run: seq<Entry>, i: nat, n: nat, key: PublicKey, account: Account)
    requires n <= |run|
  {
    && i < n
    && run[i].op == FinishLoad(key, account)
    && forall k | i < k < n :: !Drops(run[k].op, key) && !(run[k].op.FinishLoad? && run[k].op.key == key)
  }

  /** A cached entry is the record last stored under its key, with the expiry it was stored with. */
  lemma {:induction false} EntryIsLastStored(ttl: int, run: seq<Entry>, n: nat, key: PublicKey) returns (i: nat)
    requires n <= |run| && key in At(ttl, run, n)
    ensures LastStored(run, i, n, key, At(ttl, run, n)[key].account)
    ensures At(ttl, run, n)[key].expiresAt == run[i].now + ttl && ttl > 0
  {
    if run[n - 1].op.FinishLoad? && run[n - 1].op.key == key && ttl > 0 {
      i := n - 1;
    } else {
      i := EntryIsLastStored(ttl, run, n - 1, key);
    }
  }

  /** The other way round: a record last stored less than the lifetime ago is still cached. */
  lemma {:induction false} FreshRecordIsCached(ttl: int, run: seq<Entry>, i: nat, n: nat, key: PublicKey,
                                             account: Account, now: int)
    requires ttl > 0 && Timed(run) && n <= |run| && LastStored(run, i, n, key, account)
    requires forall k | 0 <= k < n :: run[k].now <= now
    requires run[i].now + ttl > now
    ensures key in At(ttl, run, n) && At(ttl, run, n)[key] == Cached(account, run[i].now + ttl)
  {
    if n > i + 1 {
      FreshRecordIsCached(ttl, run, i, n - 1, key, account, now);
      assert !Drops(run[n - 1].op, key);
    }
  }

  /** In every interleaving of loads, invalidations and submissions, an unforced load is served from the cache
      exactly when a record was stored under the key less than the lifetime ago and nothing stored or dropped
      there since; it is served that very record. */
  lemma {:induction false} HitExactly(ttl: int, run: seq<Entry>, n: nat, key: PublicKey, now: int, account: Account)
    requires Timed(run) && n <= |run|
    requires forall k | 0 <= k < n :: run[k].now <= now
    ensures Lookup(ttl, At(ttl, run, n), now, key, false).1 == Some(account)
       <==> ttl > 0 && exists i: nat :: LastStored(run, i, n, key, account) && now < run[i].now + ttl
  {
    if Lookup(ttl, At(ttl, run, n), now, key, false).1 == Some(account) {
      var i := EntryIsLastStored(ttl, run, n, key);
    }
    if ttl > 0 && exists i: nat :: LastStored(run, i, n, key, account) && now < run[i].now + ttl {
      var i: nat :| LastStored(run, i, n, key, account) && now < run[i].now + ttl;
      FreshRecordIsCached(ttl, run, i, n, key, account, now);
    }
  }

  /** A forced refresh is never served from the cache, and no later load is served a record that was stored
      before it. */
  lemma {:induction false} ForcedRefreshIsFresh(ttl: int, run: seq<Entry>, f: nat, n: nat, key: PublicKey, now: int)
    requires Timed(run) && f < n <= |run|
    requires run[f].op == Op.BeginLoad(key, true)
    requires forall k | 0 <= k < n :: run[k].now <= now
    ensures Lookup(ttl, At(ttl, run, f), run[f].now, key, true).1 == None
    ensures var hit := Lookup(ttl, At(ttl, run, n), now, key, false).1;
            hit.Some? ==> exists i: nat :: f < i < n && run[i].op == FinishLoad(key, hit.value)
  {
    var hit := Lookup(ttl, At(ttl, run, n), now, key, false).1;
    if hit.Some? {
      var i := EntryIsLastStored(ttl, run, n, key);
      assert Drops(run[f].op, key);
    }
  }

  /** A load that finds nothing fresh leaves no entry under its key, so if its fetch fails, no later load is
      served a record from before, whatever else happens, until someone stores a new one. */
  lemma {:induction false} FailedRefreshLeavesNothing(ttl: int, run: seq<Entry>, b: nat, n: nat, key: PublicKey)
    requires b < n <= |run| && ttl > 0
    requires run[b].op.BeginLoad? && run[b].op.key == key
    requires Lookup(ttl, At(ttl, run, b), run[b].now, key, run[b].op.forceRefresh).1 == None
    requires forall k | b < k < n :: !(run[k].op.FinishLoad? && run[k].op.key == key)
    ensures key !in At(ttl, run, n)
  {
    if n > b + 1 { FailedRefreshLeavesNothing(ttl, run, b, n - 1, key); }
  }
}
