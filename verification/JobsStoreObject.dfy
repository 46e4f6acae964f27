/** JobsStore in its own form: a pending dictionary and a table updated in place. Whether a database
    statement succeeds is nondeterministic; a failed one is rolled back. */
module JobsStoreObject {
  import opened Common
  import opened JobRecords
  import opened JobsReconcile
  import opened JobsQueue

  ghost predicate AllConsistent(rows: seq<Row>) {
    forall i | 0 <= i < |rows| :: Consistent(rows[i])
  }

  // ---------- What a flush may do ----------

  /** Rows of `rows`, up to the user id already resolved. */
  ghost predicate FailedOf(rows: map<Key, Row>, failed: map<Key, Row>) {
    forall k | k in failed :: k in rows && Settled(failed[k]) == Settled(rows[k])
  }

  /** Every row of `rows` was written once, except those of `failed`, which are rows of `rows` up to
      the user id already resolved. */
  ghost predicate WroteAllBut(before: Table, after: Table, rows: map<Key, Row>, failed: map<Key, Row>, now: int) {
    && FailedOf(rows, failed)
    && after == UpsertMap(before, SettleAll(rows - failed.Keys), now)
  }

  lemma NothingToWrite(db: Table, now: int)
    ensures WroteAllBut(db, db, map[], map[], now)
  {
    assert UpsertMap(db, map[], now) == db;
  }

  lemma OneMoreWritten(before: Table, db: Table, rows: map<Key, Row>, failed: map<Key, Row>, row: Row, now: int)
    requires WroteAllBut(before, db, rows, failed, now) && row.key !in rows
    ensures WroteAllBut(before, Upsert(db, Settled(row), now), rows[row.key := row], failed, now)
  {
    UpsertMapAdd(before, SettleAll(rows - failed.Keys), Settled(row), now);
    hide UpsertMap;
    assert SettleAll(rows[row.key := row] - failed.Keys) == SettleAll(rows - failed.Keys)[row.key := Settled(row)];
  }

  lemma OneMoreFailed(before: Table, db: Table, rows: map<Key, Row>, failed: map<Key, Row>, row: Row, back: Row,
                      now: int)
    requires WroteAllBut(before, db, rows, failed, now) && row.key !in rows
    requires Settled(back) == Settled(row)
    ensures WroteAllBut(before, db, rows[row.key := row], failed[row.key := back], now)
  {
    hide UpsertMap;
    assert rows[row.key := row] - failed[row.key := back].Keys == rows - failed.Keys;
  }

  lemma SameRowsWritten(before: Table, db: Table, rows: map<Key, Row>, others: map<Key, Row>, failed: map<Key, Row>,
                        now: int)
    requires WroteAllBut(before, db, rows, failed, now) && SettleAll(rows) == SettleAll(others)
    ensures WroteAllBut(before, db, others, failed, now)
  {
    hide UpsertMap, Settled;
    assert rows.Keys == SettleAll(rows).Keys && others.Keys == SettleAll(others).Keys;
    forall k | k in rows ensures Settled(rows[k]) == Settled(others[k]) {
      assert SettleAll(rows)[k] == SettleAll(others)[k];
    }
    assert SettleAll(rows - failed.Keys) == SettleAll(others - failed.Keys);
  }

  lemma SettleUnion(x: map<Key, Row>, y: map<Key, Row>)
    ensures SettleAll(x + y) == SettleAll(x) + SettleAll(y)
  {
    hide Settled;
  }

  lemma WrittenParts<K, V>(first: map<K, V>, second: map<K, V>, failed: map<K, V>, failed': map<K, V>)
    requires first.Keys !! second.Keys && failed.Keys <= first.Keys && failed'.Keys <= second.Keys
    ensures (first + second) - (failed + failed').Keys == (first - failed.Keys) + (second - failed'.Keys)
  {
  }

  lemma BothFailed(first: map<Key, Row>, second: map<Key, Row>, failed: map<Key, Row>, failed': map<Key, Row>)
    requires FailedOf(first, failed) && FailedOf(second, failed') && first.Keys !! second.Keys
    ensures FailedOf(first + second, failed + failed')
    ensures failed.Keys <= first.Keys && failed'.Keys <= second.Keys
  {
    hide Settled;
  }

  lemma BothWritten(a: Table, b: Table, c: Table, first: map<Key, Row>, second: map<Key, Row>,
                    failed: map<Key, Row>, failed': map<Key, Row>, now: int)
    requires WroteAllBut(a, b, first, failed, now) && WroteAllBut(b, c, second, failed', now)
    requires first.Keys !! second.Keys
    ensures WroteAllBut(a, c, first + second, failed + failed', now)
  {
    hide UpsertMap, SettleAll, Settled, FailedOf;
    var x, y := first - failed.Keys, second - failed'.Keys;
    BothFailed(first, second, failed, failed');
    WrittenParts(first, second, failed, failed');
    SettledKeys(x);
    SettledKeys(y);
    UpsertMapUnion(a, SettleAll(x), SettleAll(y), now);
    SettleUnion(x, y);
  }

  lemma SettledKeys(x: map<Key, Row>)
    ensures SettleAll(x).Keys == x.Keys
  {
    hide Settled;
  }

  // ---------- Rows by key ----------

  lemma ByKeyNone()
    ensures ByKey([]) == map[]
  {
  }

  lemma ByKeyNext(rows: seq<Row>, i: nat)
    requires i < |rows|
    ensures ByKey(rows[..i + 1]) == ByKey(rows[..i])[rows[i].key := rows[i]]
  {
    assert rows[..i + 1] == rows[..i] + [rows[i]];
    ByKeySnoc(rows[..i], rows[i]);
  }

  lemma UpdateOver<K, V>(a: map<K, V>, b: map<K, V>, k: K, v: V)
    ensures (a + b)[k := v] == a + b[k := v]
  {
  }

  lemma {:induction false} ByKeyConcat(first: seq<Row>, second: seq<Row>)
    ensures ByKey(first + second) == ByKey(first) + ByKey(second)
  {
    hide ByKey;
    if second == [] {
      assert first + second == first;
      ByKeyNone();
    } else {
      var n := |second| - 1;
      ByKeyConcat(first, second[..n]);
      ByKeyNext(second, n);
      assert second[..n + 1] == second;
      ByKeySnoc(first + second[..n], second[n]);
      assert first + second[..n] + [second[n]] == first + second;
      UpdateOver(ByKey(first), ByKey(second[..n]), second[n].key, second[n]);
    }
  }

  lemma {:induction false} ByKeySettled(rows: seq<Row>, others: seq<Row>)
    requires |rows| == |others| && forall i | 0 <= i < |rows| :: Settled(rows[i]) == Settled(others[i])
    ensures SettleAll(ByKey(rows)) == SettleAll(ByKey(others))
  {
    if rows != [] {
      var n := |rows| - 1;
      ByKeySettled(rows[..n], others[..n]);
      SettleAllAdd(ByKey(rows[..n]), rows[n]);
      SettleAllAdd(ByKey(others[..n]), others[n]);
      SettledKey(rows[n]);
      SettledKey(others[n]);
      hide SettleAll, Settled;
    }
  }

  lemma SettledKey(row: Row)
    ensures Settled(row).key == row.key
  {
  }

  lemma SettleAllAdd(rows: map<Key, Row>, row: Row)
    ensures SettleAll(rows[row.key := row]) == SettleAll(rows)[row.key := Settled(row)]
  {
  }

  lemma ResolvedRows(rows: seq<Row>)
    requires AllConsistent(rows)
    ensures AllConsistent(EnsureUsers(rows))
    ensures forall i | 0 <= i < |rows| :: EnsureUsers(rows)[i] == Settled(rows[i]) == Settled(EnsureUsers(rows)[i])
  {
    forall i | 0 <= i < |rows|
      ensures Consistent(EnsureUsers(rows)[i])
      ensures EnsureUsers(rows)[i] == Settled(rows[i]) == Settled(EnsureUsers(rows)[i])
    {
      IdentifiedIsSettled(rows[i], SomeNamed(rows));
      SettledAgain(rows[i]);
    }
  }

  lemma {:induction false} ConsistentByKey(rows: seq<Row>)
    requires AllConsistent(rows)
    ensures forall k | k in ByKey(rows) :: Consistent(ByKey(rows)[k])
  {
    if rows != [] {
      ConsistentByKey(rows[..|rows| - 1]);
    }
  }

  lemma {:induction false} SettledByKey(chunk: seq<Row>, rows: seq<Row>)
    requires |rows| == |chunk|
    requires forall i | 0 <= i < |chunk| :: rows[i] == Settled(chunk[i]) == Settled(rows[i])
    ensures ByKey(rows) == SettleAll(ByKey(chunk))
    ensures forall k | k in ByKey(rows) :: Settled(ByKey(rows)[k]) == ByKey(rows)[k]
  {
    if chunk != [] {
      var n := |chunk| - 1;
      SettledByKey(chunk[..n], rows[..n]);
      SettleAllAdd(ByKey(chunk[..n]), chunk[n]);
      SettledKey(chunk[n]);
      hide SettleAll, Settled;
    }
  }

  lemma DistinctSettled(chunk: seq<Row>, rows: seq<Row>)
    requires DistinctKeys(chunk) && |rows| == |chunk|
    requires forall i | 0 <= i < |chunk| :: rows[i] == Settled(chunk[i])
    ensures DistinctKeys(rows)
  {
    forall i, j | 0 <= i < j < |rows| ensures rows[i].key != rows[j].key {
      SettledKey(chunk[i]);
      SettledKey(chunk[j]);
    }
  }

  lemma AllWritten(db: Table, rows: map<Key, Row>, now: int)
    ensures WroteAllBut(db, UpsertMap(db, SettleAll(rows), now), rows, map[], now)
  {
    hide UpsertMap, SettleAll, Settled;
    var none: map<Key, Row> := map[];
    assert rows - none.Keys == rows;
  }

  lemma BulkWritten(db: Table, chunk: seq<Row>, rows: seq<Row>, now: int)
    requires WellStored(db) && DistinctKeys(chunk) && |rows| == |chunk|
    requires forall i | 0 <= i < |chunk| :: rows[i] == Settled(chunk[i]) == Settled(rows[i])
    ensures WroteAllBut(db, UpsertAll(db, rows, now), ByKey(chunk), map[], now)
    ensures WellStored(UpsertAll(db, rows, now))
  {
    hide ByKey, UpsertAll, UpsertMap, WellStored, SettleAll, Settled, WroteAllBut;
    DistinctSettled(chunk, rows);
    SettledByKey(chunk, rows);
    UpsertAllIsMap(db, rows, now);
    UpsertMapStored(db, ByKey(rows), now);
    AllWritten(db, ByKey(chunk), now);
  }

  lemma UpsertKeepsStored(db: Table, row: Row, now: int)
    requires WellStored(db)
    ensures WellStored(Upsert(db, Settled(row), now))
  {
    UpsertedStored(Lookup(db, row.key), row, now);
    hide Upserted, Stored;
  }

  lemma DisjointParts(batch: seq<Row>, i: nat, end: nat)
    requires i <= end <= |batch| && DistinctKeys(batch)
    ensures ByKey(batch[..i]).Keys !! ByKey(batch[i..end]).Keys
  {
  }

  // ---------- The object ----------

  /** `batch` lists the values under the keys outside `left`, each once. */
  ghost predicate Listed(all: map<Key, Row>, left: set<Key>, batch: seq<Row>) {
    && DistinctKeys(batch)
    && (forall i | 0 <= i < |batch| :: batch[i].key in all && batch[i].key !in left && all[batch[i].key] == batch[i])
    && ByKey(batch) == all - left
  }

  lemma RestGrows<K, V>(all: map<K, V>, left: set<K>, k: K)
    requires left <= all.Keys && k in left
    ensures (all - left)[k := all[k]] == all - (left - {k})
  {
  }

  lemma ListedNext(all: map<Key, Row>, left: set<Key>, batch: seq<Row>, k: Key)
    requires KeyedRows(all) && left <= all.Keys && k in left && Listed(all, left, batch)
    ensures Listed(all, left - {k}, batch + [all[k]])
  {
    hide ByKey;
    ByKeySnoc(batch, all[k]);
    RestGrows(all, left, k);
  }

  lemma ListedNone(all: map<Key, Row>)
    ensures Listed(all, all.Keys, [])
  {
    ByKeyNone();
    assert all - all.Keys == map[];
  }

  lemma ListedAll(all: map<Key, Row>, batch: seq<Row>)
    requires Listed(all, {}, batch)
    ensures DistinctKeys(batch) && ByKey(batch) == all
    ensures forall i | 0 <= i < |batch| :: batch[i].key in all && all[batch[i].key] == batch[i]
  {
    hide ByKey;
    assert all - {} == all;
  }

  /** list(dict.values()): every value once, in some order. */
  method ListValues(all: map<Key, Row>) returns (batch: seq<Row>)
    requires KeyedRows(all)
    ensures DistinctKeys(batch) && ByKey(batch) == all
    ensures forall i | 0 <= i < |batch| :: batch[i].key in all && all[batch[i].key] == batch[i]
  {
    hide ByKey, Listed;
    var left := all.Keys;
    batch := [];
    ListedNone(all);
    while left != {}
      invariant left <= all.Keys && Listed(all, left, batch)
      decreases |left|
    {
      var k :| k in left;
      ListedNext(all, left, batch, k);
      batch := batch + [all[k]];
      left := left - {k};
    }
    ListedAll(all, batch);
  }

  lemma {:induction false} LastSeenExists(keys: set<Key>, db: Table)
    requires keys != {} && forall k | k in keys :: k in db
    ensures exists k | k in keys :: forall x | x in keys :: db[x].lastSeen <= db[k].lastSeen
    decreases keys
  {
    var a :| a in keys;
    if keys == {a} {
      assert forall x | x in keys :: db[x].lastSeen <= db[a].lastSeen;
    } else {
      LastSeenExists(keys - {a}, db);
      var b :| b in keys - {a} && forall x | x in keys - {a} :: db[x].lastSeen <= db[b].lastSeen;
      if db[a].lastSeen <= db[b].lastSeen {
        assert forall x | x in keys :: db[x].lastSeen <= db[b].lastSeen;
      } else {
        assert forall x | x in keys :: db[x].lastSeen <= db[a].lastSeen;
      }
    }
  }

  class JobsStore {
    var pending: map<Key, Row>
    var db: Table

    ghost predicate Valid()
      reads this
    {
      && KeyedRows(pending)
      && (forall k | k in pending :: Consistent(pending[k]))
      && WellStored(db)
    }

    /** A store in front of an existing table. */
    constructor (db: Table)
      requires WellStored(db)
      ensures Valid() && pending == map[] && this.db == db
    {
      pending := map[];
      this.db := db;
    }

    method QueueRows(rows: seq<Row>)
      requires Valid() && AllConsistent(rows)
      modifies this`pending
      ensures Valid() && pending == Queued(old(pending), rows)
    {
      hide ByKey, WellStored;
      ByKeyNone();
      for i := 0 to |rows|
        invariant Valid()
        invariant pending == old(pending) + ByKey(rows[..i])
      {
        ByKeyNext(rows, i);
        UpdateOver(old(pending), ByKey(rows[..i]), rows[i].key, rows[i]);
        pending := pending[rows[i].key := rows[i]];
      }
      assert rows[..|rows|] == rows;
    }

    /** The locked start of a flush: the whole queue, in some order, is taken out. */
    method TakeBatch() returns (batch: seq<Row>)
      requires Valid()
      modifies this`pending
      ensures Valid() && pending == map[]
      ensures DistinctKeys(batch) && AllConsistent(batch) && ByKey(batch) == old(pending)
    {
      batch := ListValues(pending);
      pending := map[];
    }

    /** The locked end of a flush: failed rows go back, under rows queued in the meantime. */
    method Requeue(failed: seq<Row>)
      requires Valid() && AllConsistent(failed)
      modifies this`pending
      ensures Valid() && pending == ByKey(failed) + old(pending)
    {
      var requeued := ByKey(failed);
      ConsistentByKey(failed);
      pending := requeued + pending;
    }

    /** The fallback: each row in its own transaction. */
    method FlushRows(rows: seq<Row>, now: int) returns (failed: seq<Row>)
      requires Valid() && DistinctKeys(rows) && AllConsistent(rows)
      modifies this`db
      ensures Valid() && AllConsistent(failed) && DistinctKeys(failed)
      ensures WroteAllBut(old(db), db, ByKey(rows), ByKey(failed), now)
    {
      hide ByKey, WellStored, WroteAllBut, Settled, Upserted;
      ByKeyNone();
      failed := [];
      NothingToWrite(db, now);
      for i := 0 to |rows|
        invariant Valid() && AllConsistent(failed) && DistinctKeys(failed)
        invariant forall j | 0 <= j < |failed| :: exists l | 0 <= l < i :: rows[l].key == failed[j].key
        invariant WroteAllBut(old(db), db, ByKey(rows[..i]), ByKey(failed), now)
      {
        var row := rows[i];
        ghost var done, lost := ByKey(rows[..i]), ByKey(failed);
        ByKeyNext(rows, i);
        ResolvedRows([row]);
        assert row.key !in done;
        var written := false;
        if * {
          row := EnsureUsers([row])[0];
          if * {
            assert row == Settled(rows[i]);
            OneMoreWritten(old(db), db, done, lost, rows[i], now);
            UpsertKeepsStored(db, rows[i], now);
            db := Upsert(db, row, now);
            written := true;
          }
        }
        if !written {
          OneMoreFailed(old(db), db, done, lost, rows[i], row, now);
          ByKeySnoc(failed, row);
          failed := failed + [row];
        }
      }
      assert rows[..|rows|] == rows;
    }

    /** One chunk: a bulk statement, and row by row when it fails. */
    method FlushChunk(chunk: seq<Row>, now: int) returns (failed: seq<Row>)
      requires Valid() && DistinctKeys(chunk) && AllConsistent(chunk)
      modifies this`db
      ensures Valid() && AllConsistent(failed) && DistinctKeys(failed)
      ensures WroteAllBut(old(db), db, ByKey(chunk), ByKey(failed), now)
    {
      ResolvedRows(chunk);
      var rows := chunk;
      if * {
        rows := EnsureUsers(chunk);
        ByKeySettled(rows, chunk);
        if * {
          BulkWritten(db, chunk, rows, now);
          db := UpsertAll(db, rows, now);
          return [];
        }
      }
      ByKeySettled(rows, chunk);
      failed := FlushRows(rows, now);
      SameRowsWritten(old(db), db, ByKey(rows), ByKey(chunk), ByKey(failed), now);
    }

    /** A flush with nobody queueing meanwhile: chunking, bulk writes and fallbacks together write
        every pending row exactly once, except the rows left pending. */
    method Flush(now: int)
      requires Valid()
      modifies this
      ensures Valid()
      ensures WroteAllBut(old(db), db, old(pending), pending, now)
    {
      hide ByKey, WellStored, WroteAllBut, Consistent;
      ByKeyNone();
      var batch := TakeBatch();
      NothingToWrite(db, now);
      if |batch| == 0 { return; }
      var failed := [];
      var i := 0;
      while i < |batch|
        invariant 0 <= i <= |batch| && Valid() && pending == map[]
        invariant AllConsistent(failed)
        invariant WroteAllBut(old(db), db, ByKey(batch[..i]), ByKey(failed), now)
      {
        var end := if |batch| < i + BATCH_CHUNK then |batch| else i + BATCH_CHUNK;
        var chunk := batch[i..end];
        ghost var before, lost := db, ByKey(failed);
        var more := FlushChunk(chunk, now);
        assert batch[..end] == batch[..i] + chunk;
        ByKeyConcat(batch[..i], chunk);
        ByKeyConcat(failed, more);
        DisjointParts(batch, i, end);
        BothWritten(old(db), before, db, ByKey(batch[..i]), ByKey(chunk), lost, ByKey(more), now);
        failed := failed + more;
        i := end;
      }
      assert batch[..|batch|] == batch;
      if |failed| > 0 {
        Requeue(failed);
        assert ByKey(failed) + map[] == ByKey(failed);
      } else {
        assert failed == [];
      }
    }

    /** The active records, last seen first. */
    method ActiveRecords() returns (order: seq<Key>)
      ensures ListsActive(order, db)
    {
      hide IsActive;
      var left := set k | k in db && IsActive(db[k].status);
      order := [];
      while left != {}
        invariant forall k :: k in left ==> k in db && IsActive(db[k].status)
        invariant forall k :: k in order || k in left <==> k in db && IsActive(db[k].status)
        invariant forall i | 0 <= i < |order| :: order[i] !in left
        invariant forall i, k | 0 <= i < |order| && k in left :: db[order[i]].lastSeen >= db[k].lastSeen
        invariant forall i, j | 0 <= i < j < |order| ::
                    order[i] != order[j] && db[order[i]].lastSeen >= db[order[j]].lastSeen
        decreases |left|
      {
        LastSeenExists(left, db);
        var k :| k in left && forall x | x in left :: db[x].lastSeen <= db[k].lastSeen;
        assert forall i | 0 <= i < |order| :: order[i] in order;
        order := order + [k];
        left := left - {k};
      }
    }

    method ReconcileMissingActiveJobs(current: seq<Row>, answers: Answers, observedAt: int)
      returns (ghost order: seq<Key>)
      requires Valid()
      modifies this`pending
      ensures Valid() && ListsActive(order, db)
      ensures pending == Queued(old(pending), ReconcileRows(order, db, current, answers, observedAt))
    {
      var currentKeys := set i | 0 <= i < |current| :: current[i].key;
      var queued: seq<Row> := [];
      var records := ActiveRecords();
      for i := 0 to |records|
        invariant AllConsistent(queued)
        invariant queued == ReconcileRows(records[..i], db, current, answers, observedAt)
      {
        var key := records[i];
        assert records[..i + 1][..i] == records[..i];
        assert key in records;
        assert key in currentKeys <==> InSnapshot(key, current);
        hide IsActive, ExtractDetail, CompleteMissing;
        if key !in currentKeys {
          var refreshed := RefreshMissing(key, db[key], answers(key));
          if refreshed.Missing? {
            queued := queued + [CompleteMissing(key, db[key], observedAt)];
          } else if refreshed.Updated? {
            queued := queued + [refreshed.row];
          }
        }
      }
      assert records[..|records|] == records;
      QueueRows(queued);
      order := records;
    }

    method PrepareRows(jobs: seq<Job>) returns (valid: seq<Row>)
      ensures valid == PreparedRows(jobs)
    {
      valid := [];
      for i := 0 to |jobs|
        invariant valid == PreparedRows(jobs[..i])
      {
        assert jobs[..i + 1][..i] == jobs[..i];
        if HasKey(jobs[i]) {
          valid := valid + [Extract(jobs[i])];
        }
      }
      assert jobs[..|jobs|] == jobs;
    }

    /** submit: what request threads queue. */
    method Submit(jobs: seq<Job>)
      requires Valid()
      modifies this`pending
      ensures Valid() && pending == Queued(old(pending), PreparedRows(jobs))
    {
      var rows := PrepareRows(jobs);
      QueueRows(rows);
    }

    /** A scheduled snapshot followed by a flush: what was pending, the snapshot's rows and the reconciled ones are each
        written once or left pending. When every write succeeded, every record that only its own lookup decides about
        is accounted for. */
    method SnapshotAndFlush(jobs: seq<Job>, answers: Answers, observedAt: int, now: int)
      returns (ghost order: seq<Key>)
      requires Valid()
      modifies this
      ensures Valid() && ListsActive(order, old(db))
      ensures var rows := PreparedRows(jobs);
              WroteAllBut(old(db), db, Queued(Queued(old(pending), rows),
                                              ReconcileRows(order, old(db), rows, answers, observedAt)), pending, now)
      ensures pending == map[] ==>
                && db == CycleTable(old(db), old(pending), PreparedRows(jobs), order, answers, observedAt, now)
                && forall k | OnlyOwn(k, order, PreparedRows(jobs), answers) ::
                     Accounted(old(db), db, old(pending), PreparedRows(jobs), order, answers, observedAt, now, k)
    {
      hide Queued, WellStored, Accounted, OnlyOwn, ReconcileRows, ListsActive, CycleTable;
      var rows := PrepareRows(jobs);
      QueueRows(rows);
      order := ReconcileMissingActiveJobs(rows, answers, observedAt);
      ghost var queue := pending;
      Flush(now);
      if pending == map[] {
        CycleFlushed(old(db), db, old(pending), rows, order, answers, observedAt, now);
      }
    }
  }

  lemma CycleFlushed(before: Table, after: Table, pending: map<Key, Row>, rows: seq<Row>, order: seq<Key>,
                     answers: Answers, observedAt: int, now: int)
    requires CycleReady(before, pending, order)
    requires WroteAllBut(before, after,
                         Queued(Queued(pending, rows), ReconcileRows(order, before, rows, answers, observedAt)),
                         map[], now)
    ensures after == CycleTable(before, pending, rows, order, answers, observedAt, now)
    ensures forall k | OnlyOwn(k, order, rows, answers) ::
              Accounted(before, after, pending, rows, order, answers, observedAt, now, k)
  {
    hide Accounted, OnlyOwn, ReconcileRows, WellStored, Queued, UpsertMap, SettleAll;
    var queue := Queued(Queued(pending, rows), ReconcileRows(order, before, rows, answers, observedAt));
    var none: map<Key, Row> := map[];
    assert queue - none.Keys == queue;
    forall k | OnlyOwn(k, order, rows, answers)
      ensures Accounted(before, after, pending, rows, order, answers, observedAt, now, k)
    {
      CycleAccounts(before, pending, rows, order, answers, observedAt, now, k);
    }
  }
}
