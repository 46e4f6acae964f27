/** A whole flush of the JobsStore object is a run of the step system, whichever rows it leaves pending. */
module JobsQueueFlush {
  import opened JobRecords
  import opened JobsQueue
  import opened JobsReconcile
  import opened JobsStoreObject
  import opened JobsQueueRows

  // ---------- Trying the rows of the batch one after another ----------

  /** The first row of the batch is committed, unless it is one of the failing ones. */
  function TryOne(s: State, failing: set<Key>, at: int): State
    requires WellFormed(s) && s.todo != []
  {
    if KeyOf(s, s.todo[0]) in failing then
      s.(todo := s.todo[1..], failed := s.failed + [s.todo[0]], phase := Chunks)
    else WriteFirst(s, at)
  }

  lemma TryOneWellFormed(s: State, failing: set<Key>, at: int)
    requires WellFormed(s) && s.todo != [] && s.phase != Idle
    ensures WellFormed(TryOne(s, failing, at))
  {
    WriteFirstWellFormed(s, at);
  }

  function Tried(s: State, n: nat, failing: set<Key>, at: int): (r: State)
    requires WellFormed(s) && n <= |s.todo| && s.phase != Idle
    ensures WellFormed(r) && r.phase == Chunks && |r.todo| == |s.todo| - n
    decreases n
  {
    if n == 0 then s.(phase := Chunks)
    else
      TryOneWellFormed(s, failing, at);
      Tried(TryOne(s, failing, at), n - 1, failing, at)
  }

  /** What is tried does not depend on the phase. */
  lemma TriedPhase(s: State, t: State, n: nat, failing: set<Key>, at: int)
    requires WellFormed(s) && WellFormed(t) && s.phase != Idle && t.phase != Idle && n <= |s.todo|
    requires t == s.(phase := t.phase)
    ensures Tried(t, n, failing, at) == Tried(s, n, failing, at)
  {
    hide WellFormed;
    assert n > 0 ==> TryOne(s, failing, at) == TryOne(t, failing, at);
  }

  lemma TriedNext(s: State, n: nat, failing: set<Key>, at: int)
    requires WellFormed(s) && 0 < n <= |s.todo| && s.phase != Idle
    ensures WellFormed(TryOne(s, failing, at)) && TryOne(s, failing, at).phase == Chunks
    ensures |TryOne(s, failing, at).todo| == |s.todo| - 1
    ensures Tried(s, n, failing, at) == Tried(TryOne(s, failing, at), n - 1, failing, at)
  {
    TryOneWellFormed(s, failing, at);
    hide WellFormed;
  }

  lemma TriedNone(s: State, m: nat, failing: set<Key>, at: int)
    requires WellFormed(s) && m <= |s.todo| && s.phase != Idle
    ensures Tried(Tried(s, 0, failing, at), m, failing, at) == Tried(s, m, failing, at)
  {
    TriedPhase(s, s.(phase := Chunks), m, failing, at);
  }

  lemma {:induction false} TriedSum(s: State, n: nat, m: nat, failing: set<Key>, at: int)
    requires WellFormed(s) && n + m <= |s.todo| && s.phase != Idle
    ensures Tried(Tried(s, n, failing, at), m, failing, at) == Tried(s, n + m, failing, at)
    decreases n
  {
    hide WellFormed, TryOne, Tried;
    if n == 0 {
      TriedNone(s, m, failing, at);
    } else {
      TriedNext(s, n, failing, at);
      TriedNext(s, n + m, failing, at);
      TriedSum(TryOne(s, failing, at), n - 1, m, failing, at);
    }
  }

  /** With no failing row among them, the first rows are committed together. */
  lemma {:induction false} ManyTried(s: State, n: nat, failing: set<Key>, at: int)
    requires WellFormed(s) && n <= |s.todo| && s.phase != Idle
    requires forall i | 0 <= i < n :: KeyOf(s, s.todo[i]) !in failing
    ensures WriteMany(s, n, at) == Tried(s, n, failing, at)
    decreases n
  {
    if n > 0 {
      WriteFirstWellFormed(s, at);
      ManyTried(WriteFirst(s, at), n - 1, failing, at);
    }
  }

  // ---------- Runs ----------

  lemma RunCons(s: State, a: Action, rest: seq<Action>)
    requires WellFormed(s) && Enabled(s, a) && WellFormed(Apply(s, a)) && CanRun(Apply(s, a), rest)
    ensures CanRun(s, [a] + rest) && Run(s, [a] + rest) == Run(Apply(s, a), rest)
  {
    hide WellFormed, Enabled, Apply;
    assert ([a] + rest)[1..] == rest;
  }

  lemma {:induction false} RunConcat(s: State, first: seq<Action>, rest: seq<Action>)
    requires WellFormed(s) && CanRun(s, first) && CanRun(Run(s, first), rest)
    ensures CanRun(s, first + rest) && Run(s, first + rest) == Run(Run(s, first), rest)
    decreases |first|
  {
    if first == [] {
      assert first + rest == rest;
    } else {
      ApplyWellFormed(s, first[0]);
      hide WellFormed, Enabled, Apply;
      RunConcat(Apply(s, first[0]), first[1..], rest);
      RunCons(s, first[0], first[1..] + rest);
      assert [first[0]] + (first[1..] + rest) == first + rest;
    }
  }

  lemma RowStep(s: State, failing: set<Key>, at: int)
    requires WellFormed(s) && s.phase.RowByRow?
    ensures s.todo != []
    ensures var a := if KeyOf(s, s.todo[0]) in failing then RowFail else RowOk(at);
            && Enabled(s, a) && WellFormed(Apply(s, a))
            && Apply(s, a) == TryOne(s, failing, at).(phase := NextPhase(s.phase))
  {
    var a := if KeyOf(s, s.todo[0]) in failing then RowFail else RowOk(at);
    ApplyWellFormed(s, a);
    hide WellFormed;
  }

  /** The fallback tries each row of its chunk. */
  lemma {:induction false} RowsRun(s: State, failing: set<Key>, at: int) returns (actions: seq<Action>)
    requires WellFormed(s) && s.phase.RowByRow?
    ensures s.phase.left <= |s.todo|
    ensures CanRun(s, actions) && Run(s, actions) == Tried(s, s.phase.left, failing, at)
    decreases s.phase.left
  {
    RowStep(s, failing, at);
    TryOneWellFormed(s, failing, at);
    var a := if KeyOf(s, s.todo[0]) in failing then RowFail else RowOk(at);
    var t := Apply(s, a);
    if s.phase.left == 1 {
      RunCons(s, a, []);
      actions := [a] + [];
    } else {
      var rest := RowsRun(t, failing, at);
      TriedPhase(TryOne(s, failing, at), t, s.phase.left - 1, failing, at);
      hide Apply, TryOne, Enabled;
      RunCons(s, a, rest);
      actions := [a] + rest;
    }
  }

  /** One chunk: the bulk statement, or the fallback when a row of the chunk fails. */
  lemma ChunkRun(s: State, failing: set<Key>, at: int) returns (actions: seq<Action>)
    requires WellFormed(s) && s.phase == Chunks && s.todo != []
    ensures CanRun(s, actions) && Run(s, actions) == Tried(s, ChunkSize(s), failing, at)
  {
    var n := ChunkSize(s);
    if forall i | 0 <= i < n :: KeyOf(s, s.todo[i]) !in failing {
      ManyTried(s, n, failing, at);
      RunCons(s, BulkOk(at), []);
      actions := [BulkOk(at)] + [];
    } else {
      var t := Apply(s, BulkFail);
      ApplyWellFormed(s, BulkFail);
      var rest := RowsRun(t, failing, at);
      TriedPhase(s, t, n, failing, at);
      RunCons(s, BulkFail, rest);
      actions := [BulkFail] + rest;
    }
  }

  lemma {:induction false} ChunksRun(s: State, failing: set<Key>, at: int) returns (actions: seq<Action>)
    requires WellFormed(s) && s.phase == Chunks
    ensures CanRun(s, actions) && Run(s, actions) == Tried(s, |s.todo|, failing, at)
    decreases |s.todo|
  {
    if s.todo == [] {
      actions := [];
    } else {
      var first := ChunkRun(s, failing, at);
      var n := ChunkSize(s);
      assert n > 0;
      hide WellFormed, Enabled, Apply, Tried, ChunkSize;
      var rest := ChunksRun(Run(s, first), failing, at);
      TriedSum(s, n, |s.todo| - n, failing, at);
      RunConcat(s, first, rest);
      actions := first + rest;
    }
  }

  // ---------- What was tried, as rows ----------

  function Among(rows: map<Key, Row>, keys: set<Key>): map<Key, Row> {
    map k | k in rows && k in keys :: rows[k]
  }

  lemma HeadRows(s: State, vs: seq<nat>)
    requires Known(s, vs) && vs != []
    ensures Known(s, vs[1..]) && RowsOf(s, vs) == [s.submitted[vs[0]]] + RowsOf(s, vs[1..])
  {
  }

  lemma DistinctHead(row: Row, rest: seq<Row>)
    requires DistinctKeys([row] + rest)
    ensures DistinctKeys(rest) && forall i | 0 <= i < |rest| :: rest[i].key != row.key
  {
    var all := [row] + rest;
    assert forall i | 0 <= i < |rest| :: all[i + 1] == rest[i];
    forall i | 0 <= i < |rest| ensures rest[i].key != row.key {
      assert all[0].key != all[i + 1].key;
    }
  }

  lemma ByKeyHead(row: Row, rest: seq<Row>)
    requires DistinctKeys([row] + rest)
    ensures DistinctKeys(rest) && row.key !in ByKey(rest)
    ensures ByKey([row] + rest) == ByKey(rest)[row.key := row]
  {
    hide ByKey, DistinctKeys;
    DistinctHead(row, rest);
    ByKeyConcat([row], rest);
    QueuedOne(map[], row);
    KeysOfRest(row, rest);
  }

  lemma KeysOfRest(row: Row, rest: seq<Row>)
    requires forall i | 0 <= i < |rest| :: rest[i].key != row.key
    ensures row.key !in ByKey(rest)
  {
  }

  /** What trying rows of distinct jobs leaves: every row that does not fail is committed once, the others are kept. */
  ghost predicate TriedAll(s: State, t: State, rows: map<Key, Row>, failing: set<Key>, at: int)
    requires WellFormed(s) && WellFormed(t)
  {
    && t.todo == [] && t.phase == Chunks && t.pending == s.pending && t.submitted == s.submitted
    && t.db == UpsertMap(s.db, SettleAll(rows - failing), at)
    && ByKey(RowsOf(t, t.failed)) == ByKey(RowsOf(s, s.failed)) + Among(rows, failing)
  }

  lemma NothingTried(s: State, failing: set<Key>, at: int)
    requires WellFormed(s) && s.todo == [] && s.phase == Chunks
    ensures TriedAll(s, s, map[], failing, at)
  {
    hide WellFormed, ByKey;
  }

  lemma FailedSnoc(s: State, t: State, v: nat)
    requires WellFormed(s) && WellFormed(t) && t.submitted == s.submitted && v < |s.submitted|
    requires t.failed == s.failed + [v]
    ensures ByKey(RowsOf(t, t.failed)) == ByKey(RowsOf(s, s.failed))[s.submitted[v].key := s.submitted[v]]
  {
    assert RowsOf(t, t.failed) == RowsOf(s, s.failed) + [s.submitted[v]];
    ByKeySnoc(RowsOf(s, s.failed), s.submitted[v]);
    hide WellFormed, ByKey;
  }

  lemma FailedNext(rows: map<Key, Row>, row: Row, failing: set<Key>, failed: map<Key, Row>)
    requires row.key in failing && row.key !in rows
    ensures rows[row.key := row] - failing == rows - failing
    ensures failed[row.key := row] + Among(rows, failing) == failed + Among(rows[row.key := row], failing)
  {
  }

  lemma WrittenNext(db: Table, rows: map<Key, Row>, row: Row, failing: set<Key>, at: int)
    requires row.key !in failing && row.key !in rows
    ensures UpsertMap(Upsert(db, Settled(row), at), SettleAll(rows - failing), at) ==
            UpsertMap(db, SettleAll(rows[row.key := row] - failing), at)
    ensures Among(rows, failing) == Among(rows[row.key := row], failing)
  {
    var one: map<Key, Row> := map[row.key := Settled(row)];
    OneWritten(db, row, at);
    UpsertMapUnion(db, one, SettleAll(rows - failing), at);
    SettledUnder(rows, row, failing);
    hide UpsertMap, Settled, SettleAll;
  }

  lemma OneWritten(db: Table, row: Row, at: int)
    ensures Upsert(db, Settled(row), at) == UpsertMap(db, map[row.key := Settled(row)], at)
  {
    hide Upserted;
  }

  lemma SettledUnder(rows: map<Key, Row>, row: Row, failing: set<Key>)
    requires row.key !in failing && row.key !in rows
    ensures var one: map<Key, Row> := map[row.key := Settled(row)];
            && one.Keys !! SettleAll(rows - failing).Keys
            && SettleAll(rows[row.key := row] - failing) == one + SettleAll(rows - failing)
  {
    hide Settled;
  }

  lemma FirstKnown(s: State)
    requires WellFormed(s) && s.todo != []
    ensures s.todo[0] < |s.submitted| && Known(s, s.failed)
  {
  }

  lemma TriedRow(s: State, t: State, rows: map<Key, Row>, failing: set<Key>, at: int)
    requires WellFormed(s) && s.todo != [] && s.phase != Idle && s.submitted[s.todo[0]].key !in rows
    requires var u := TryOne(s, failing, at); WellFormed(u) && WellFormed(t) && TriedAll(u, t, rows, failing, at)
    ensures var row := s.submitted[s.todo[0]];
            TriedAll(s, t, rows[row.key := row], failing, at)
  {
    FirstKnown(s);
    hide WellFormed, Known, ByKey, RowsOf, Among, UpsertMap, SettleAll, Upsert, Settled;
    var u := TryOne(s, failing, at);
    var row := s.submitted[s.todo[0]];
    if row.key in failing {
      FailedSnoc(s, u, s.todo[0]);
      FailedNext(rows, row, failing, ByKey(RowsOf(s, s.failed)));
    } else {
      WrittenNext(s.db, rows, row, failing, at);
      SameFailed(s, u);
    }
  }

  lemma SameFailed(s: State, u: State)
    requires WellFormed(s) && WellFormed(u) && u.failed == s.failed && u.submitted == s.submitted
    ensures RowsOf(u, u.failed) == RowsOf(s, s.failed)
  {
  }

  lemma {:induction false} TriedEffect(s: State, failing: set<Key>, at: int)
    requires WellFormed(s) && s.phase == Chunks && DistinctKeys(RowsOf(s, s.todo))
    ensures TriedAll(s, Tried(s, |s.todo|, failing, at), ByKey(RowsOf(s, s.todo)), failing, at)
    decreases |s.todo|
  {
    if s.todo == [] {
      NothingTried(s, failing, at);
      assert RowsOf(s, s.todo) == [];
      ByKeyNone();
    } else {
      var row, rest := s.submitted[s.todo[0]], RowsOf(s, s.todo[1..]);
      HeadRows(s, s.todo);
      ByKeyHead(row, rest);
      TriedNext(s, |s.todo|, failing, at);
      var u := TryOne(s, failing, at);
      RestRows(s, u, failing, at);
      hide WellFormed, Known, TryOne, RowsOf, Tried, ByKey, DistinctKeys, TriedAll;
      TriedEffect(u, failing, at);
      TriedRow(s, Tried(u, |u.todo|, failing, at), ByKey(rest), failing, at);
    }
  }

  lemma RestRows(s: State, u: State, failing: set<Key>, at: int)
    requires WellFormed(s) && s.todo != [] && u == TryOne(s, failing, at) && WellFormed(u)
    ensures RowsOf(u, u.todo) == RowsOf(s, s.todo[1..])
  {
  }

  // ---------- The flush ----------

  lemma TakenState(s: State, order: seq<nat>)
    requires WellFormed(s) && Enabled(s, Take(order))
    ensures var t := Apply(s, Take(order));
            && WellFormed(t) && t == s.(todo := order, pending := map[], phase := Chunks)
            && t.failed == []
  {
    ApplyWellFormed(s, Take(order));
  }

  lemma BackState(s: State)
    requires WellFormed(s) && s.phase == Chunks && s.todo == []
    ensures Enabled(s, Requeue) && WellFormed(Apply(s, Requeue))
    ensures var t := Apply(s, Requeue); t.phase == Idle && t.db == s.db && t.submitted == s.submitted
  {
    ApplyWellFormed(s, Requeue);
  }

  /** A flush in which exactly the rows of these jobs fail, with the queue taken in any order. */
  lemma FlushRun(s: State, order: seq<nat>, failing: set<Key>, at: int) returns (actions: seq<Action>)
    requires WellFormed(s) && Enabled(s, Take(order))
    ensures CanRun(s, actions)
    ensures var t := Run(s, actions);
            && t.phase == Idle && t.submitted == s.submitted
            && t.db == UpsertMap(s.db, SettleAll(PendingRows(s) - failing), at)
            && PendingRows(t) == Among(PendingRows(s), failing)
  {
    TakenState(s, order);
    TakeIsTakeBatch(s, order);
    var taken := Apply(s, Take(order));
    SameTaken(s, taken, order);
    hide WellFormed, Enabled, Apply, Known, RowsOf, Tried, ByKey, DistinctKeys, PendingRows, UpsertMap, SettleAll,
      Among, Lists;
    var middle := ChunksRun(taken, failing, at);
    TriedEffect(taken, failing, at);
    var tried := Tried(taken, |taken.todo|, failing, at);
    BackState(tried);
    RequeueIsRequeue(tried);
    SamePending(taken, tried);
    RunCons(tried, Requeue, []);
    RunConcat(taken, middle, [Requeue] + []);
    RunCons(s, Take(order), middle + ([Requeue] + []));
    actions := [Take(order)] + (middle + ([Requeue] + []));
    NoneOver(Among(PendingRows(s), failing));
  }

  lemma NoneOver(m: map<Key, Row>)
    ensures map[] + m + map[] == m
  {
  }

  lemma SamePending(s: State, t: State)
    requires WellFormed(s) && WellFormed(t) && t.pending == s.pending && t.submitted == s.submitted
    ensures PendingRows(t) == PendingRows(s)
  {
  }

  lemma SameTaken(s: State, t: State, order: seq<nat>)
    requires WellFormed(s) && WellFormed(t) && t.submitted == s.submitted && t.todo == order && t.failed == []
    requires Known(s, order)
    ensures RowsOf(t, t.todo) == RowsOf(s, order)
    ensures ByKey(RowsOf(t, t.failed)) == map[]
  {
    assert RowsOf(t, t.failed) == [];
    ByKeyNone();
  }

  /** Whatever the Flush method may leave in the table and the queue, in whatever order it takes the queue, is what
      some run of the step system leaves, up to user ids already resolved. */
  lemma FlushIsARun(s: State, order: seq<nat>, after: Table, left: map<Key, Row>, at: int)
    requires WellFormed(s) && Enabled(s, Take(order))
    requires WroteAllBut(s.db, after, PendingRows(s), left, at)
    ensures exists actions ::
              && CanRun(s, actions)
              && var t := Run(s, actions);
                 && t.phase == Idle && t.submitted == s.submitted && t.db == after
                 && SettleAll(PendingRows(t)) == SettleAll(left)
  {
    var actions := FlushRun(s, order, left.Keys, at);
    hide WellFormed, Enabled, Run, CanRun, PendingRows, UpsertMap;
    LeftRows(PendingRows(s), left);
  }

  lemma LeftRows(rows: map<Key, Row>, left: map<Key, Row>)
    requires FailedOf(rows, left)
    ensures SettleAll(Among(rows, left.Keys)) == SettleAll(left)
  {
    hide Settled;
  }
}
