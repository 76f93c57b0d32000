/** Used nonces with the time they were recorded: one specification, two stores. */
module NonceStore {

  /** A store is a map from nonce to the time it was first recorded. */
  type Nonces = map<string, int>

  const MAX_NONCE_TTL_MS: nat := 24 * 60 * 60 * 1_000

  /** Forgets what was recorded before `cutoff`. */
  function Prune(m: Nonces, cutoff: int): Nonces {
    map n | n in m && m[n] >= cutoff :: m[n]
  }

  /** Records a nonce; an earlier record stays as it is. */
  function Add(m: Nonces, nonce: string, now: int): Nonces {
    if nonce in m then m else m[nonce := now]
  }

  class InMemoryNonceStore {
    const ttlMs: int
    var nonces: Nonces

    constructor (ttlMs: int)
      ensures this.ttlMs == ttlMs && nonces == map[]
    {
      this.ttlMs, nonces := ttlMs, map[];
    }

    method PruneOlderThan(ttl: int, now: int)
      modifies this
      ensures nonces == Prune(old(nonces), now - ttl)
    {
      var cutoff := now - ttl;
      var todo := nonces.Keys;
      while todo != {}
        invariant todo <= nonces.Keys <= old(nonces).Keys
        invariant forall n <- nonces :: nonces[n] == old(nonces)[n]
        invariant forall n <- old(nonces) :: n !in todo ==> (n in nonces <==> old(nonces)[n] >= cutoff)
        decreases |todo|
      {
        var nonce :| nonce in todo;
        if nonces[nonce] < cutoff {
          nonces := nonces - {nonce};
        }
        todo := todo - {nonce};
      }
    }

    method Has(nonce: string, now: int) returns (used: bool)
      modifies this
      ensures nonces == Prune(old(nonces), now - ttlMs)
      ensures used <==> nonce in old(nonces) && old(nonces)[nonce] >= now - ttlMs
    {
      PruneOlderThan(ttlMs, now);
      return nonce in nonces;
    }

    /** `now` is when pruning reads the clock, `later` when the record does. */
    method Record(nonce: string, now: int, later: int)
      modifies this
      ensures nonces == Add(Prune(old(nonces), now - ttlMs), nonce, later)
    {
      PruneOlderThan(ttlMs, now);
      if nonce !in nonces {
        nonces := nonces[nonce := later];
      }
    }
  }

  // ---------------------------------------------------------------- the table-backed store

  datatype Row = Row(nonce: string, usedAt: int)

  /** `nonce` is the primary key. */
  ghost predicate UniqueNonces(rows: seq<Row>) {
    forall i, j | 0 <= i < j < |rows| :: rows[i].nonce != rows[j].nonce
  }

  function AsMap(rows: seq<Row>): Nonces {
    if rows == [] then map[] else AsMap(rows[..|rows| - 1])[rows[|rows| - 1].nonce := rows[|rows| - 1].usedAt]
  }

  /** `DELETE ... WHERE used_at_ms < cutoff`. */
  function DeleteBefore(rows: seq<Row>, cutoff: int): seq<Row> {
    if rows == [] then []
    else DeleteBefore(rows[..|rows| - 1], cutoff)
         + if rows[|rows| - 1].usedAt >= cutoff then [rows[|rows| - 1]] else []
  }

  lemma {:induction false} AsMapAt(rows: seq<Row>, nonce: string)
    requires UniqueNonces(rows)
    ensures nonce in AsMap(rows) <==> exists i :: 0 <= i < |rows| && rows[i].nonce == nonce
    ensures forall i | 0 <= i < |rows| && rows[i].nonce == nonce :: AsMap(rows)[nonce] == rows[i].usedAt
  {
    if rows != [] {
      var front := rows[..|rows| - 1];
      AsMapAt(front, nonce);
      if nonce in AsMap(front) {
        var i :| 0 <= i < |front| && front[i].nonce == nonce;
        assert rows[i].nonce == nonce;
      }
      if nonce == rows[|rows| - 1].nonce { assert rows[|rows| - 1].nonce == nonce; }
    }
  }

  lemma {:induction false} DeleteKeeps(rows: seq<Row>, cutoff: int)
    requires UniqueNonces(rows)
    ensures UniqueNonces(DeleteBefore(rows, cutoff))
    ensures forall x :: x in DeleteBefore(rows, cutoff) <==> x in rows && x.usedAt >= cutoff
  {
    if rows != [] {
      var front, last := rows[..|rows| - 1], rows[|rows| - 1];
      DeleteKeeps(front, cutoff);
      assert rows == front + [last];
      forall i | 0 <= i < |DeleteBefore(front, cutoff)| ensures DeleteBefore(front, cutoff)[i].nonce != last.nonce {
        assert DeleteBefore(front, cutoff)[i] in front;
      }
    }
  }

  lemma PrunePut(m: Nonces, nonce: string, usedAt: int, cutoff: int)
    requires nonce !in m
    ensures Prune(m[nonce := usedAt], cutoff)
         == if usedAt >= cutoff then Prune(m, cutoff)[nonce := usedAt] else Prune(m, cutoff)
  {
  }

  /** Deleting old rows is pruning the map. */
  lemma {:induction false} DeleteIsPrune(rows: seq<Row>, cutoff: int)
    requires UniqueNonces(rows)
    ensures AsMap(DeleteBefore(rows, cutoff)) == Prune(AsMap(rows), cutoff)
    ensures UniqueNonces(DeleteBefore(rows, cutoff))
  {
    DeleteKeeps(rows, cutoff);
    if rows != [] {
      hide Prune;
      var front, last := rows[..|rows| - 1], rows[|rows| - 1];
      DeleteIsPrune(front, cutoff);
      AsMapAt(front, last.nonce);
      PrunePut(AsMap(front), last.nonce, last.usedAt, cutoff);
      var kept := DeleteBefore(front, cutoff);
      if last.usedAt < cutoff {
        assert DeleteBefore(rows, cutoff) == kept;
      } else {
        assert (kept + [last])[..|kept|] == kept;
      }
    } else {
      assert Prune(map[], cutoff) == map[];
    }
  }

  /** `INSERT OR IGNORE`. */
  function InsertOrIgnore(rows: seq<Row>, nonce: string, now: int): seq<Row> {
    if exists i :: 0 <= i < |rows| && rows[i].nonce == nonce then rows else rows + [Row(nonce, now)]
  }

  lemma {:induction false} InsertIsAdd(rows: seq<Row>, nonce: string, now: int)
    requires UniqueNonces(rows)
    ensures UniqueNonces(InsertOrIgnore(rows, nonce, now))
    ensures AsMap(InsertOrIgnore(rows, nonce, now)) == Add(AsMap(rows), nonce, now)
    ensures nonce in AsMap(rows) ==> InsertOrIgnore(rows, nonce, now) == rows
  {
    AsMapAt(rows, nonce);
    assert (rows + [Row(nonce, now)])[..|rows|] == rows;
  }

  class SqliteNonceStore {
    const ttlMs: int
    var rows: seq<Row>

    constructor (ttlMs: int)
      ensures this.ttlMs == ttlMs && rows == []
    {
      this.ttlMs, rows := ttlMs, [];
    }

    /** The row with this primary key. */
    method Select(nonce: string) returns (found: bool)
      requires UniqueNonces(rows)
      ensures found <==> nonce in AsMap(rows)
    {
      AsMapAt(rows, nonce);
      found := exists i :: 0 <= i < |rows| && rows[i].nonce == nonce;
    }

    method PruneOlderThan(ttl: int, now: int)
      requires UniqueNonces(rows)
      modifies this
      ensures UniqueNonces(rows) && AsMap(rows) == Prune(AsMap(old(rows)), now - ttl)
    {
      DeleteIsPrune(rows, now - ttl);
      rows := DeleteBefore(rows, now - ttl);
    }

    method Has(nonce: string, now: int) returns (used: bool)
      requires UniqueNonces(rows)
      modifies this
      ensures UniqueNonces(rows) && AsMap(rows) == Prune(AsMap(old(rows)), now - ttlMs)
      ensures used <==> nonce in AsMap(old(rows)) && AsMap(old(rows))[nonce] >= now - ttlMs
    {
      PruneOlderThan(ttlMs, now);
      used := Select(nonce);
    }

    method Record(nonce: string, now: int, later: int)
      requires UniqueNonces(rows)
      modifies this
      ensures UniqueNonces(rows)
      ensures AsMap(rows) == Add(Prune(AsMap(old(rows)), now - ttlMs), nonce, later)
    {
      PruneOlderThan(ttlMs, now);
      InsertIsAdd(rows, nonce, later);
      var found := Select(nonce);
      if !found {
        rows := rows + [Row(nonce, later)];
      }
    }
  }

  // ---------------------------------------------------------------- either store

  /** What a user of the nonce store is given: the table by default, or the map. */
  datatype Store = Table(table: SqliteNonceStore) | InMemory(memory: InMemoryNonceStore)
  {
    ghost function Repr(): set<object> {
      match this
      case Table(t) => {t}
      case InMemory(m) => {m}
    }

    ghost predicate Valid()
      reads Repr()
    {
      Table? ==> UniqueNonces(table.rows)
    }

    ghost function Contents(): Nonces
      reads Repr()
    {
      match this
      case Table(t) => AsMap(t.rows)
      case InMemory(m) => m.nonces
    }

    ghost function Ttl(): int {
      match this
      case Table(t) => t.ttlMs
      case InMemory(m) => m.ttlMs
    }

    method PruneOlderThan(ttl: int, now: int)
      requires Valid()
      modifies Repr()
      ensures Valid() && Contents() == Prune(old(Contents()), now - ttl)
    {
      match this
      case Table(t) => t.PruneOlderThan(ttl, now);
      case InMemory(m) => m.PruneOlderThan(ttl, now);
    }

    method Has(nonce: string, now: int) returns (used: bool)
      requires Valid()
      modifies Repr()
      ensures Valid() && Contents() == Prune(old(Contents()), now - Ttl())
      ensures used <==> nonce in Contents()
    {
      match this
      case Table(t) => used := t.Has(nonce, now);
      case InMemory(m) => used := m.Has(nonce, now);
    }

    method Record(nonce: string, now: int, later: int)
      requires Valid()
      modifies Repr()
      ensures Valid() && Contents() == Add(Prune(old(Contents()), now - Ttl()), nonce, later)
    {
      match this
      case Table(t) => t.Record(nonce, now, later);
      case InMemory(m) => m.Record(nonce, now, later);
    }
  }
}
