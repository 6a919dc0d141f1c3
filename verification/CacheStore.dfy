/**
 The liveness cache on disk: a committed table plus a buffer of writes not yet committed.

 redb is the finite map its committed state holds; a crash keeps that map and nothing else.  Every change
 of the store is one recorded step.
 */
module CacheStore {
  import opened Wrappers
  import opened Histories
  import opened Orders
  import opened Liveness

  type Table = map<string, CacheEntry>

  function Find(t: Table, d: string): Option<CacheEntry> {
    if d in t then Some(t[d]) else None
  }

  function RowKey(row: (string, CacheEntry)): seq<int> {
    Codes(row.0)
  }

  /** `rows` lists every row of `t` once, in key order. */
  ghost predicate Lists(rows: seq<(string, CacheEntry)>, t: Table) {
    && StrictlySortedBy(RowKey, rows)
    && forall row :: row in rows <==> row.0 in t && t[row.0] == row.1
  }

  method SortedRows(t: Table) returns (rows: seq<(string, CacheEntry)>)
    ensures Lists(rows, t)
  {
    forall x, y | x in t.Items && y in t.Items && RowKey(x) == RowKey(y) ensures x == y {
      CodesInjective(x.0, y.0);
    }
    rows := ListByKey(RowKey, t.Items);
  }

  /** The committed table, which is what a crash leaves, and the buffer, which is what it loses. */
  datatype Snapshot = Snapshot(db: Table, pending: Table)

  /** `after` is `before` with one entry written. */
  predicate WritesOne(before: Table, after: Table, k: string) {
    k in after && after == before[k := after[k]]
  }

  /** One write to the buffer, one commit of all of it, or its loss. */
  ghost predicate OneStep(s: Snapshot, t: Snapshot) {
    || (t.db == s.db && exists k :: WritesOne(s.pending, t.pending, k))
    || t == Snapshot(s.db + s.pending, map[])
    || t == Snapshot(s.db, map[])
  }

  /** The rows of the buffer, sorted, inserted one after the other. */
  method Transaction(db: Table, buffered: Table) returns (table: Table)
    ensures table == db + buffered
  {
    var items := SortedRows(buffered);
    table := db;
    for i := 0 to |items|
      invariant table == Inserted(db, items[..i])
    {
      assert items[..i + 1][..i] == items[..i];
      table := table[items[i].0 := items[i].1];
    }
    assert items[..|items|] == items;
    InsertedAll(db, items, buffered);
  }

  /** The buffer was committed or lost. */
  lemma Emptied(history: seq<Snapshot>, db: Table)
    requires history != [] && StepByStep(OneStep, history)
    requires var s := history[|history| - 1]; db == s.db + s.pending || db == s.db
    ensures StepByStep(OneStep, history + [Snapshot(db, map[])])
  {
    assert OneStep(history[|history| - 1], Snapshot(db, map[]));
    OneMoreStep(OneStep, history, Snapshot(db, map[]));
  }

  lemma NothingOver(t: Table)
    ensures t + map[] == t
  {}

  class CacheStore {
    var db: Table
    var pending: Table
    var errorCount: nat
    ghost var history: seq<Snapshot>

    /** What readers see: the committed table overlaid by the buffer. */
    function View(): Table
      reads this`db, this`pending
    {
      db + pending
    }

    /** The record ends in the present, and each state of it is one step from the one before. */
    ghost predicate Valid()
      reads this`db, this`pending, this`history
    {
      && history != [] && history[|history| - 1] == Snapshot(db, pending)
      && StepByStep(OneStep, history)
    }

    constructor (committed: Table)
      ensures db == committed && pending == map[] && View() == committed && errorCount == 0
      ensures Valid() && history == [Snapshot(committed, map[])]
    {
      db := committed;
      pending := map[];
      errorCount := 0;
      history := [Snapshot(committed, map[])];
    }

    /** `readable` says whether the database can be read; a failure is counted, and answers like a miss. */
    method Get(domain: string, readable: bool) returns (r: Option<CacheEntry>)
      modifies this`errorCount
      ensures readable || domain in pending ==> r == Find(View(), domain) && errorCount == old(errorCount)
      ensures !readable && domain !in pending ==> r == None && errorCount == old(errorCount) + 1
    {
      if domain in pending {
        return Some(pending[domain]);
      }
      if !readable {
        errorCount := errorCount + 1;
        return None;
      }
      if domain in db {
        return Some(db[domain]);
      }
      return None;
    }

    method Set(domain: string, entry: CacheEntry)
      requires Valid()
      modifies this`pending, this`history
      ensures Valid() && history == old(history) + [Snapshot(db, pending)]
      ensures View() == old(View())[domain := entry]
      ensures pending == old(pending)[domain := entry]
    {
      assert WritesOne(pending, pending[domain := entry], domain);
      pending := pending[domain := entry];
      OneMoreStep(OneStep, history, Snapshot(db, pending));
      history := history + [Snapshot(db, pending)];
    }

    /**
     One write transaction over the whole buffer.  The buffer is drained before the transaction
     starts, so a failed commit loses it.
     */
    method Flush(commits: bool) returns (ok: bool)
      requires Valid()
      modifies this`db, this`pending, this`history
      ensures Valid() && pending == map[]
      ensures history == if old(pending) == map[] then old(history) else old(history) + [Snapshot(db, pending)]
      ensures ok <==> commits || old(pending) == map[]
      ensures ok ==> View() == old(View()) && db == old(View())
      ensures !ok ==> db == old(db) && View() == old(db)
    {
      if pending == map[] {
        assert View() == db;
        return true;
      }
      var drained := pending;
      pending := map[];
      var table := Transaction(db, drained);
      NothingOver(db);
      NothingOver(table);
      if commits {
        db := table;
      }
      Emptied(history, db);
      history := history + [Snapshot(db, pending)];
      return commits;
    }

    /** Flushes, then visits the committed rows; `None` when the flush failed or the rows cannot be read. */
    method ForEach(commits: bool, readable: bool) returns (visited: Option<seq<(string, CacheEntry)>>)
      requires Valid()
      modifies this`db, this`pending, this`history
      ensures Valid() && pending == map[]
      ensures visited == None <==> !readable || (!commits && old(pending) != map[])
      ensures visited.Some? ==> Lists(visited.value, old(View()))
      ensures db == if commits || old(pending) == map[] then old(View()) else old(db)
    {
      var ok := Flush(commits);
      if !ok || !readable {
        return None;
      }
      var rows := SortedRows(db);
      return Some(rows);
    }

    /** The process dies and the file is opened again. */
    method Crash()
      requires Valid()
      modifies this`pending, this`history
      ensures Valid() && pending == map[] && View() == db
      ensures history == old(history) + [Snapshot(db, pending)]
    {
      pending := map[];
      NothingOver(db);
      Emptied(history, db);
      history := history + [Snapshot(db, pending)];
    }
  }

  /** Inserting rows one after the other. */
  function Inserted(t: Table, rows: seq<(string, CacheEntry)>): Table {
    if rows == [] then t
    else
      var last := rows[|rows| - 1];
      Inserted(t, rows[..|rows| - 1])[last.0 := last.1]
  }

  lemma {:induction false} InsertedRows(t: Table, rows: seq<(string, CacheEntry)>)
    requires forall i, j | 0 <= i < j < |rows| :: rows[i].0 != rows[j].0
    ensures forall row | row in rows :: row.0 in Inserted(t, rows) && Inserted(t, rows)[row.0] == row.1
    ensures forall k :: k in Inserted(t, rows) ==> k in t || exists row :: row in rows && row.0 == k
    ensures forall k | k in t && forall row | row in rows :: row.0 != k ::
              k in Inserted(t, rows) && Inserted(t, rows)[k] == t[k]
  {
    if rows != [] {
      var n := |rows| - 1;
      InsertedRows(t, rows[..n]);
      assert forall row :: row in rows <==> row in rows[..n] || row == rows[n];
    }
  }

  lemma InsertedAll(t: Table, rows: seq<(string, CacheEntry)>, buffered: Table)
    requires Lists(rows, buffered)
    ensures Inserted(t, rows) == t + buffered
  {
    ListsOnce(rows, buffered);
    InsertedRows(t, rows);
    var r := Inserted(t, rows);
    forall k ensures k in r <==> k in t + buffered {
      if k in buffered { assert (k, buffered[k]) in rows; }
    }
    forall k | k in r ensures r[k] == (t + buffered)[k] {
      if k in buffered { assert (k, buffered[k]) in rows; }
    }
  }

  /** A failed flush is harmless exactly when the buffer had nothing new to say. */
  lemma FailedFlushHarmlessIff(db: Table, pending: Table)
    ensures db + pending == db <==> forall k | k in pending :: k in db && db[k] == pending[k]
  {
    if db + pending == db {
      forall k | k in pending ensures k in db && db[k] == pending[k] {
        assert k in db + pending && (db + pending)[k] == pending[k];
      }
    }
  }

  /** Each key is visited once, and the visit order is the key order. */
  lemma ListsOnce(rows: seq<(string, CacheEntry)>, t: Table)
    requires Lists(rows, t)
    ensures forall k | k in t :: exists i :: 0 <= i < |rows| && rows[i] == (k, t[k])
    ensures forall i, j | 0 <= i < j < |rows| :: rows[i].0 != rows[j].0
  {
    forall k | k in t ensures exists i :: 0 <= i < |rows| && rows[i] == (k, t[k]) {
      assert (k, t[k]) in rows;
    }
    forall i, j | 0 <= i < j < |rows| ensures rows[i].0 != rows[j].0 {
      assert LexLt(RowKey(rows[i]), RowKey(rows[j]));
    }
  }
}
