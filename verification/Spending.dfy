/** The rolling spending window: records in memory, the table that mirrors them, and one call's meaning.
    Amounts are integers (stroops), times are milliseconds. A call reads the clock twice:
    once when it starts (`now`) and once when it sums the window (`later`). */
module Spending {
  import opened Outcome

  datatype Rec = Rec(amount: int, timestamp: int)

  ghost predicate Sorted(rs: seq<Rec>) {
    forall i, j | 0 <= i <= j < |rs| :: rs[i].timestamp <= rs[j].timestamp
  }

  function Total(rs: seq<Rec>): int {
    if rs == [] then 0 else Total(rs[..|rs| - 1]) + rs[|rs| - 1].amount
  }

  /** The records at or after `cutoff`: `WHERE timestamp >= ?`. */
  function Window(rs: seq<Rec>, cutoff: int): seq<Rec> {
    if rs == [] then []
    else
      var last := rs[|rs| - 1];
      Window(rs[..|rs| - 1], cutoff) + if last.timestamp >= cutoff then [last] else []
  }

  /** What is left after taking expired records off the front. */
  function DropOld(rs: seq<Rec>, cutoff: int): seq<Rec> {
    if rs != [] && rs[0].timestamp < cutoff then DropOld(rs[1..], cutoff) else rs
  }

  /** A possible answer to `SELECT ... WHERE timestamp >= cutoff ORDER BY timestamp ASC`. */
  ghost predicate Answers(rows: seq<Rec>, cutoff: int, answer: seq<Rec>) {
    multiset(answer) == multiset(Window(rows, cutoff)) && Sorted(answer)
  }

  function InsertByTime(rs: seq<Rec>, r: Rec): seq<Rec> {
    if rs != [] && rs[|rs| - 1].timestamp > r.timestamp
    then InsertByTime(rs[..|rs| - 1], r) + [rs[|rs| - 1]]
    else rs + [r]
  }

  lemma SortedAppend(rs: seq<Rec>, r: Rec)
    requires Sorted(rs) && Until(rs, r.timestamp)
    ensures Sorted(rs + [r])
  {
  }

  ghost predicate Until(rs: seq<Rec>, t: int) {
    forall k | 0 <= k < |rs| :: rs[k].timestamp <= t
  }

  lemma SortedFront(rs: seq<Rec>)
    requires Sorted(rs) && rs != []
    ensures Sorted(rs[..|rs| - 1]) && Until(rs[..|rs| - 1], rs[|rs| - 1].timestamp) && Until(rs, rs[|rs| - 1].timestamp)
  {
  }

  lemma {:induction false} InsertedUntil(rs: seq<Rec>, r: Rec, t: int)
    requires Until(rs, t) && r.timestamp <= t
    ensures Until(InsertByTime(rs, r), t)
  {
    if rs != [] && rs[|rs| - 1].timestamp > r.timestamp {
      InsertedUntil(rs[..|rs| - 1], r, t);
    }
  }

  lemma {:induction false} InsertedByTime(rs: seq<Rec>, r: Rec)
    requires Sorted(rs)
    ensures Sorted(InsertByTime(rs, r)) && multiset(InsertByTime(rs, r)) == multiset(rs) + multiset{r}
  {
    if rs == [] {
      SortedAppend(rs, r);
    } else {
      hide Sorted, Until;
      var front, last := rs[..|rs| - 1], rs[|rs| - 1];
      SortedFront(rs);
      if last.timestamp > r.timestamp {
        InsertedByTime(front, r);
        InsertedUntil(front, r, last.timestamp);
        SortedAppend(InsertByTime(front, r), last);
        assert rs == front + [last];
      } else {
        UntilLater(rs, last.timestamp, r.timestamp);
        SortedAppend(rs, r);
      }
    }
  }

  lemma UntilLater(rs: seq<Rec>, t: int, later: int)
    requires Until(rs, t) && t <= later
    ensures Until(rs, later)
  {
  }

  /** `ORDER BY timestamp ASC`, rows of equal time in table order. */
  function ByTime(rs: seq<Rec>): seq<Rec> {
    if rs == [] then [] else InsertByTime(ByTime(rs[..|rs| - 1]), rs[|rs| - 1])
  }

  lemma {:induction false} OrderedByTime(rs: seq<Rec>)
    ensures Sorted(ByTime(rs)) && multiset(ByTime(rs)) == multiset(rs)
  {
    if rs != [] {
      assert rs == rs[..|rs| - 1] + [rs[|rs| - 1]];
      OrderedByTime(rs[..|rs| - 1]);
      InsertedByTime(ByTime(rs[..|rs| - 1]), rs[|rs| - 1]);
    }
  }

  /** A tracker over its table. */
  datatype Tracker = Tracker(records: seq<Rec>, rows: seq<Rec>)

  datatype Op =
    | Record(amount: Option<int>)      // None: not a number
    | ReadTotal
    | Clear
    | Restart(answer: seq<Rec>)        // a new tracker on the same table, which answered so

  /** One call: its two clock readings and whether the database worked. */
  datatype Input = Input(now: int, later: int, up: bool, op: Op)

  datatype Reply = Accepted | Refused(total: int) | Ignored | Sum(total: int) | Silent

  function Prune(t: Tracker, cutoff: int, up: bool): Tracker {
    var kept := DropOld(t.records, cutoff);
    Tracker(kept, if kept != t.records && up then Window(t.rows, cutoff) else t.rows)
  }

  function Push(t: Tracker, r: Rec, up: bool): Tracker {
    Tracker(t.records + [r], if up then t.rows + [r] else t.rows)
  }

  /** Prune, append, and prune again for the sum. */
  function Pay(t: Tracker, windowMs: int, r: Rec, later: int, io: bool): Tracker {
    Prune(Push(Prune(t, r.timestamp - windowMs, io), r, io), later - windowMs, io)
  }

  function Do(t: Tracker, windowMs: int, limit: int, i: Input): (Tracker, Reply) {
    match i.op
    case Record(None) => (t, Ignored)
    case Record(Some(amount)) =>
      var paid := Pay(t, windowMs, Rec(amount, i.now), i.later, i.up);
      (paid, if Total(paid.records) > limit then Refused(Total(paid.records)) else Accepted)
    case ReadTotal =>
      var t1 := Prune(t, i.later - windowMs, i.up);
      (t1, Sum(Total(t1.records)))
    case Clear => (Tracker([], if i.up then [] else t.rows), Silent)
    case Restart(answer) =>
      var t1 := Tracker(if i.up then answer else [], t.rows);
      (if t1.records == [] then t1 else Prune(t1, i.later - windowMs, i.up), Silent)
  }

  /** The table `spending_records`. */
  class SpendingTable {
    var rows: seq<Rec>

    constructor ()
      ensures rows == []
    {
      rows := [];
    }

    method Save(r: Rec)
      modifies this
      ensures rows == old(rows) + [r]
    {
      rows := rows + [r];
    }

    /** Rows at or after `since`, oldest first. */
    method Load(since: int) returns (answer: seq<Rec>)
      ensures Answers(rows, since, answer)
    {
      answer := ByTime(Window(rows, since));
      OrderedByTime(Window(rows, since));
    }

    method DeleteBefore(cutoff: int)
      modifies this
      ensures rows == Window(old(rows), cutoff)
    {
      rows := Window(rows, cutoff);
    }

    method DeleteAll()
      modifies this
      ensures rows == []
    {
      rows := [];
    }
  }

  class SpendingTracker {
    const windowMs: int
    const limit: int
    const table: SpendingTable
    var records: seq<Rec>

    ghost function Model(): Tracker
      reads this, table
    {
      Tracker(records, table.rows)
    }

    /** Starts a process: reads back what an earlier one left in the table. */
    constructor (windowMs: int, limit: int, table: SpendingTable, now: int, later: int, up: bool)
      modifies table
      ensures this.windowMs == windowMs && this.limit == limit && this.table == table
      ensures exists answer ::
                && Answers(old(table.rows), now - windowMs, answer)
                && Model() == Do(Tracker([], old(table.rows)), windowMs, limit,
                                 Input(now, later, up, Restart(answer))).0
    {
      this.windowMs, this.limit, this.table := windowMs, limit, table;
      records := [];
      new;
      var answer := table.Load(now - windowMs);
      if up {
        records := answer;
      }
      if |records| > 0 {
        PruneOld(later, up);
      }
      assert Model() == Do(Tracker([], old(table.rows)), windowMs, limit, Input(now, later, up, Restart(answer))).0;
    }

    method PruneOld(now: int, up: bool)
      modifies this, table
      ensures Model() == Prune(old(Model()), now - windowMs, up)
      ensures records == old(records) || !up ==> table.rows == old(table.rows)
      ensures records != old(records) && up ==> table.rows == Window(old(table.rows), now - windowMs)
    {
      var cutoff := now - windowMs;
      var evicted := false;
      while |records| > 0
        invariant DropOld(records, cutoff) == DropOld(old(records), cutoff)
        invariant |records| <= |old(records)|
        invariant evicted <==> |records| < |old(records)|
        invariant !evicted ==> records == old(records)
        invariant table.rows == old(table.rows)
        decreases |records|
      {
        if records[0].timestamp < cutoff {
          records := records[1..];
          evicted := true;
        } else {
          break;
        }
      }
      if evicted && up {
        table.DeleteBefore(cutoff);
      }
    }

    method ReadTotal(now: int, up: bool) returns (total: int)
      modifies this, table
      ensures (Model(), Sum(total)) == Do(old(Model()), windowMs, limit, Input(now, now, up, Op.ReadTotal))
    {
      PruneOld(now, up);
      total := Reduce();
    }

    method Reduce() returns (total: int)
      ensures total == Total(records)
    {
      total := 0;
      for k := 0 to |records|
        invariant total == Total(records[..k])
      {
        assert records[..k + 1][..k] == records[..k];
        total := total + records[k].amount;
      }
      assert records[..|records|] == records;
    }

    method Record(amount: Option<int>, now: int, later: int, up: bool) returns (r: Reply)
      modifies this, table
      ensures (Model(), r) == Do(old(Model()), windowMs, limit, Input(now, later, up, Op.Record(amount)))
    {
      hide DropOld, Window, Total, Prune;
      if amount.None? {
        return Ignored;
      }
      PruneOld(now, up);
      ghost var pruned := Model();
      records := records + [Rec(amount.value, now)];
      if up {
        table.Save(Rec(amount.value, now));
      }
      assert Model() == Push(pruned, Rec(amount.value, now), up);
      var total := ReadTotal(later, up);
      if total > limit {
        return Refused(total);
      }
      return Accepted;
    }

    method Clear(now: int, up: bool)
      modifies this, table
      ensures (Model(), Silent) == Do(old(Model()), windowMs, limit, Input(now, now, up, Op.Clear))
    {
      records := [];
      if up {
        table.DeleteAll();
      }
    }
  }
}
