/** Safety of the write-behind queue over every run: no job's newest row is lost, rows reach the
    table in the order they were queued, and the table is what the commits made of it. */
module JobsQueueSafety {
  import opened Common
  import opened JobRecords
  import opened JobsQueue

  lemma InitialInv(db: Table)
    ensures Inv(Initial(db))
  {
  }

  lemma SubmitInv(s: State, row: Row)
    requires Inv(s) && Consistent(row)
    ensures Inv(Apply(s, Submit(row)))
  {
    var t := Apply(s, Submit(row));
    var n := |s.submitted|;
    ApplyWellFormed(s, Submit(row));
    assert forall v: nat | v < n :: KeyOf(t, v) == KeyOf(s, v);
    assert KeyOf(t, n) == row.key;
    assert forall v: nat :: InFlight(t, v) == InFlight(s, v);
    forall v: nat | Pending(t, v) ensures v == n || Pending(s, v) {
    }
    forall v: nat | Newest(t, v) ensures Pending(t, v) || InFlight(t, v) || Written(t, v) {
      if v == n {
        assert t.pending[row.key] == n;
      } else {
        assert KeyOf(t, n) != KeyOf(t, v);
        assert Newest(s, v) by {
          forall w | v < w < n ensures KeyOf(s, w) != KeyOf(s, v) {
            assert KeyOf(t, w) != KeyOf(t, v);
          }
        }
        SubmitKeepsPlace(s, row, v);
      }
    }
  }

  lemma SubmitKeepsPlace(s: State, row: Row, v: nat)
    requires Inv(s) && Consistent(row) && v < |s.submitted| && KeyOf(s, v) != row.key
    requires Pending(s, v) || InFlight(s, v) || Written(s, v)
    ensures var t := Apply(s, Submit(row)); Pending(t, v) || InFlight(t, v) || Written(t, v)
  {
    var t := Apply(s, Submit(row));
    if Pending(s, v) {
      var k :| k in s.pending && s.pending[k] == v;
      assert t.pending[k] == v;
    }
  }

  lemma TakeInv(s: State, order: seq<nat>)
    requires Inv(s) && Enabled(s, Take(order))
    ensures Inv(Apply(s, Take(order)))
  {
    var t := Apply(s, Take(order));
    ApplyWellFormed(s, Take(order));
    assert forall v: nat | v < |s.submitted| :: KeyOf(t, v) == KeyOf(s, v);
    assert t.todo + t.failed == order;
    forall v: nat ensures InFlight(t, v) <==> Pending(s, v) {
    }
    forall v: nat | Newest(t, v) ensures InFlight(t, v) || Written(t, v) {
      assert Newest(s, v);
      assert Written(s, v) ==> Written(t, v);
    }
    forall i, j | 0 <= i < j < |order| ensures KeyOf(t, order[i]) != KeyOf(t, order[j]) {
      assert order[i] in order && order[j] in order;
    }
  }

  /** t has the queue, the batch and the rows of s, and commits no further row. */
  ghost predicate SameRows(s: State, t: State) {
    && t.submitted == s.submitted && t.pending == s.pending && t.todo == s.todo && t.failed == s.failed
    && |s.log| <= |t.log|
    && (forall i | 0 <= i < |s.log| :: t.log[i] == s.log[i])
    && (forall i | |s.log| <= i < |t.log| :: !t.log[i].Wrote?)
  }

  lemma SamePlaces(s: State, t: State, v: nat)
    requires SameRows(s, t)
    ensures InFlight(t, v) == InFlight(s, v) && Pending(t, v) == Pending(s, v)
    ensures Newest(t, v) == Newest(s, v)
    ensures Written(s, v) ==> Written(t, v)
  {
    if Written(s, v) {
      var i :| 0 <= i < |s.log| && s.log[i].Wrote? && s.log[i].version == v;
      assert t.log[i] == s.log[i];
    }
    if Newest(s, v) || Newest(t, v) {
      assert forall w: nat | w < |s.submitted| :: KeyOf(t, w) == KeyOf(s, w);
    }
  }

  lemma SameOrder(s: State, t: State)
    requires WellFormed(s) && WellFormed(t) && SameRows(s, t) && FlightDistinct(s) && PendingNewer(s)
    ensures FlightDistinct(t) && PendingNewer(t)
  {
    forall k, v: nat | k in t.pending && InFlight(t, v) ensures KeyOf(t, v) == k ==> v < t.pending[k] {
      SamePlaces(s, t, v);
      assert k in s.pending && InFlight(s, v) && KeyOf(t, v) == KeyOf(s, v);
    }
  }

  lemma SameLog(s: State, t: State)
    requires WellFormed(s) && WellFormed(t) && SameRows(s, t) && WrittenOlder(s) && LogIncreasing(s)
    ensures WrittenOlder(t) && LogIncreasing(t)
  {
    forall i, v: nat | 0 <= i < |t.log| && t.log[i].Wrote? && (InFlight(t, v) || Pending(t, v))
      ensures KeyOf(t, t.log[i].version) == KeyOf(t, v) ==> t.log[i].version < v
    {
      SamePlaces(s, t, v);
      assert t.log[i] == s.log[i];
    }
  }

  lemma SameRowsInv(s: State, t: State)
    requires Inv(s) && WellFormed(t) && SameRows(s, t)
    ensures Inv(t)
  {
    SameOrder(s, t);
    SameLog(s, t);
    hide WellFormed, FlightDistinct, PendingNewer, WrittenOlder, LogIncreasing, Newest, Pending, Written, InFlight,
      SameRows;
    forall v: nat | Newest(t, v) ensures Pending(t, v) || InFlight(t, v) || Written(t, v) {
      SamePlaces(s, t, v);
    }
  }

  lemma PhaseInv(s: State, p: Phase)
    requires Inv(s) && WellFormed(s.(phase := p))
    ensures Inv(s.(phase := p))
  {
    hide WellFormed, FlightDistinct, PendingNewer, WrittenOlder, LogIncreasing, NewestKept;
    SameRowsInv(s, s.(phase := p));
  }

  lemma WriteFirstInv(s: State, at: int)
    requires Inv(s) && s.todo != [] && s.phase != Idle
    ensures Inv(WriteFirst(s, at))
  {
    hide Upsert, Settled;
    var t := WriteFirst(s, at);
    var v0 := s.todo[0];
    WriteFirstWellFormed(s, at);
    assert forall v: nat | v < |s.submitted| :: KeyOf(t, v) == KeyOf(s, v);
    assert t.todo + t.failed == (s.todo + s.failed)[1..];
    assert (s.todo + s.failed)[0] == v0;
    assert InFlight(s, v0);
    WriteFirstFlight(s, at);
    forall v: nat | Pending(t, v) ensures Pending(s, v) && (KeyOf(s, v) == KeyOf(s, v0) ==> v0 < v) {
      var k :| k in t.pending && t.pending[k] == v;
      assert s.pending[k] == v;
    }
    assert PendingNewer(t);
    assert LogIncreasing(t);
    forall v: nat | Newest(t, v) ensures Pending(t, v) || InFlight(t, v) || Written(t, v) {
      assert Newest(s, v);
      if Written(s, v) {
        var i :| 0 <= i < |s.log| && s.log[i].Wrote? && s.log[i].version == v;
        assert t.log[i] == s.log[i];
      } else if v == v0 {
        assert t.log[|s.log|] == Wrote(v0, at);
      } else if Pending(s, v) {
        var k :| k in s.pending && s.pending[k] == v;
        assert t.pending[k] == v;
      }
    }
  }

  /** The row just written leaves the batch, and no other row of its job is in it. */
  lemma WriteFirstFlight(s: State, at: int)
    requires Inv(s) && s.todo != []
    ensures var t := WriteFirst(s, at);
            forall v: nat :: InFlight(s, v) <==> InFlight(t, v) || v == s.todo[0]
    ensures var t := WriteFirst(s, at);
            forall v: nat | InFlight(t, v) :: v < |s.submitted| && KeyOf(s, v) != KeyOf(s, s.todo[0])
  {
    var t := WriteFirst(s, at);
    var vs := s.todo + s.failed;
    forall v: nat ensures InFlight(s, v) <==> InFlight(t, v) || v == s.todo[0] {
      assert s.todo == [s.todo[0]] + s.todo[1..];
    }
    forall v: nat | InFlight(t, v) ensures v < |s.submitted| && KeyOf(s, v) != KeyOf(s, s.todo[0]) {
      assert vs[1..] == t.todo + t.failed;
      assert v in vs[1..];
      var j :| 1 <= j < |vs| && vs[j] == v;
      assert vs[0] == s.todo[0];
    }
  }

  lemma {:induction false} WriteManyInv(s: State, n: nat, at: int)
    requires Inv(s) && n <= |s.todo| && s.phase != Idle
    ensures Inv(WriteMany(s, n, at))
    decreases n
  {
    if n == 0 {
      PhaseInv(s, Chunks);
    } else {
      WriteFirstInv(s, at);
      WriteManyInv(WriteFirst(s, at), n - 1, at);
    }
  }

  lemma RowFailInv(s: State)
    requires Inv(s) && Enabled(s, RowFail)
    ensures Inv(Apply(s, RowFail))
  {
    var t := Apply(s, RowFail);
    ApplyWellFormed(s, RowFail);
    var vs, us := s.todo + s.failed, t.todo + t.failed;
    assert us == vs[1..] + [vs[0]];
    assert forall v: nat | v < |s.submitted| :: KeyOf(t, v) == KeyOf(s, v);
    forall v: nat ensures InFlight(t, v) <==> InFlight(s, v) {
      assert s.todo == [s.todo[0]] + s.todo[1..];
    }
    forall v: nat ensures Pending(t, v) == Pending(s, v) && Written(t, v) == Written(s, v) {
    }
    assert forall v: nat :: Newest(t, v) == Newest(s, v);
    forall i, j | 0 <= i < j < |us| ensures KeyOf(t, us[i]) != KeyOf(t, us[j]) {
      assert us[i] == vs[i + 1];
      assert us[j] == if j == |us| - 1 then vs[0] else vs[j + 1];
    }
  }

  lemma RequeueOrigin(s: State, v: nat)
    requires WellFormed(s) && Enabled(s, Requeue) && Pending(Apply(s, Requeue), v)
    ensures Pending(s, v) || InFlight(s, v)
  {
    var t := Apply(s, Requeue);
    var back := ByVersion(s, s.failed);
    var k :| k in t.pending && t.pending[k] == v;
    assert if k in s.pending then s.pending[k] == v else back[k] == v;
  }

  lemma ByVersionFinds(s: State, vs: seq<nat>, v: nat)
    requires Known(s, vs) && v in vs
    requires forall i, j | 0 <= i < j < |vs| :: KeyOf(s, vs[i]) != KeyOf(s, vs[j])
    ensures KeyOf(s, v) in ByVersion(s, vs) && ByVersion(s, vs)[KeyOf(s, v)] == v
  {
    var m := ByVersion(s, vs);
    var i :| 0 <= i < |vs| && vs[i] == v;
    assert s.submitted[vs[i]].key in m;
    var j :| 0 <= j < |vs| && vs[j] == m[KeyOf(s, v)];
    assert KeyOf(s, vs[i]) == KeyOf(s, vs[j]);
  }

  /** A failed row that is still the newest of its job goes back into the queue. */
  lemma FailedNewestReturns(s: State, v: nat)
    requires Inv(s) && Enabled(s, Requeue) && Newest(s, v) && v in s.failed
    ensures Pending(Apply(s, Requeue), v)
  {
    var k := KeyOf(s, v);
    assert InFlight(s, v);
    assert k in s.pending ==> v < s.pending[k] && KeyOf(s, s.pending[k]) == k;
    assert s.todo + s.failed == s.failed;
    ByVersionFinds(s, s.failed, v);
    assert Apply(s, Requeue).pending[k] == v;
  }

  lemma RequeuePlace(s: State, v: nat)
    requires Inv(s) && Enabled(s, Requeue) && Newest(s, v) && (Pending(s, v) || InFlight(s, v))
    ensures Pending(Apply(s, Requeue), v)
  {
    var t := Apply(s, Requeue);
    if Pending(s, v) {
      var k :| k in s.pending && s.pending[k] == v;
      assert t.pending[k] == v;
    } else {
      FailedNewestReturns(s, v);
    }
  }

  lemma RequeueInv(s: State)
    requires Inv(s) && Enabled(s, Requeue)
    ensures Inv(Apply(s, Requeue))
  {
    var t := Apply(s, Requeue);
    ApplyWellFormed(s, Requeue);
    assert forall v: nat | v < |s.submitted| :: KeyOf(t, v) == KeyOf(s, v);
    assert forall v: nat :: !InFlight(t, v);
    forall v: nat | Pending(t, v) ensures Pending(s, v) || InFlight(s, v) {
      RequeueOrigin(s, v);
    }
    assert t.log == s.log;
    forall v: nat | Newest(t, v) ensures Pending(t, v) || Written(t, v) {
      assert Newest(s, v);
      if Pending(s, v) || InFlight(s, v) { RequeuePlace(s, v); }
      assert Written(s, v) ==> Written(t, v);
    }
  }

  lemma PurgeInv(s: State, cutoff: int)
    requires Inv(s) && Enabled(s, Purge(cutoff))
    ensures Inv(Apply(s, Purge(cutoff)))
  {
    var t := Apply(s, Purge(cutoff));
    ApplyWellFormed(s, Purge(cutoff));
    assert SameRows(s, t);
    hide WellFormed, FlightDistinct, PendingNewer, WrittenOlder, LogIncreasing, NewestKept, Apply, SameRows;
    SameRowsInv(s, t);
  }

  lemma ActionInv(s: State, a: Action)
    requires Inv(s) && Enabled(s, a)
    ensures Inv(Apply(s, a))
  {
    match a
    case Submit(row) => SubmitInv(s, row);
    case Take(order) => TakeInv(s, order);
    case BulkOk(at) => WriteManyInv(s, ChunkSize(s), at);
    case BulkFail => PhaseInv(s, RowByRow(ChunkSize(s)));
    case RowOk(at) =>
      WriteFirstInv(s, at);
      PhaseInv(WriteFirst(s, at), NextPhase(s.phase));
    case RowFail => RowFailInv(s);
    case Requeue => RequeueInv(s);
    case Purge(cutoff) => PurgeInv(s, cutoff);
  }

  lemma {:induction false} RunInv(s: State, actions: seq<Action>)
    requires Inv(s) && CanRun(s, actions)
    ensures Inv(Run(s, actions))
    decreases |actions|
  {
    if actions != [] {
      ActionInv(s, actions[0]);
      RunInv(Apply(s, actions[0]), actions[1..]);
    }
  }

  // ---------- Nothing newest is lost, and order is kept ----------

  /** v is the last row committed for its job. */
  ghost predicate LastWritten(s: State, v: nat)
    requires WellFormed(s) && v < |s.submitted|
  {
    exists i | 0 <= i < |s.log| ::
      && s.log[i].Wrote? && s.log[i].version == v
      && forall j | i < j < |s.log| && s.log[j].Wrote? :: KeyOf(s, s.log[j].version) != KeyOf(s, v)
  }

  lemma NewestWrittenIsLast(s: State, v: nat)
    requires Inv(s) && Newest(s, v) && Written(s, v)
    ensures LastWritten(s, v)
  {
    var i :| 0 <= i < |s.log| && s.log[i].Wrote? && s.log[i].version == v;
    assert forall j | i < j < |s.log| && s.log[j].Wrote? ::
      KeyOf(s, s.log[j].version) == KeyOf(s, v) ==> v < s.log[j].version;
  }

  /** In every run, whatever fails: each job's newest row is queued, in flight, or the last one
      committed for the job, and each job's commits follow the order its rows were queued in. */
  lemma NewestNeverLost(db: Table, actions: seq<Action>)
    requires CanRun(Initial(db), actions)
    ensures var s := Run(Initial(db), actions);
            && (forall v | Newest(s, v) :: Pending(s, v) || InFlight(s, v) || LastWritten(s, v))
            && LogIncreasing(s)
  {
    InitialInv(db);
    RunInv(Initial(db), actions);
    var s := Run(Initial(db), actions);
    forall v: nat | Newest(s, v) ensures Pending(s, v) || InFlight(s, v) || LastWritten(s, v) {
      if Written(s, v) {
        NewestWrittenIsLast(s, v);
      }
    }
  }

  // ---------- The table is what the commits made of it ----------

  ghost predicate LogKnown(rows: seq<Row>, log: seq<Event>) {
    forall i | 0 <= i < |log| :: log[i].Wrote? ==> log[i].version < |rows|
  }

  function ReplayOne(db: Table, rows: seq<Row>, e: Event): Table
    requires e.Wrote? ==> e.version < |rows|
  {
    match e
    case Wrote(v, at) => Upsert(db, Settled(rows[v]), at)
    case Purged(cutoff) => map k | k in db && k.submitTime >= cutoff :: db[k]
  }

  function Replay(db: Table, rows: seq<Row>, log: seq<Event>): Table
    requires LogKnown(rows, log)
  {
    if log == [] then db else ReplayOne(Replay(db, rows, log[..|log| - 1]), rows, log[|log| - 1])
  }

  ghost predicate Replayed(s: State, db: Table)
    requires WellFormed(s)
  {
    s.db == Replay(db, s.submitted, s.log)
  }

  lemma {:induction false} ReplayMoreRows(db: Table, rows: seq<Row>, row: Row, log: seq<Event>)
    requires LogKnown(rows, log)
    ensures Replay(db, rows + [row], log) == Replay(db, rows, log)
  {
    if log != [] {
      ReplayMoreRows(db, rows, row, log[..|log| - 1]);
    }
  }

  lemma ReplayNext(db: Table, rows: seq<Row>, log: seq<Event>, e: Event)
    requires LogKnown(rows, log) && (e.Wrote? ==> e.version < |rows|)
    ensures LogKnown(rows, log + [e])
    ensures Replay(db, rows, log + [e]) == ReplayOne(Replay(db, rows, log), rows, e)
  {
    assert (log + [e])[..|log|] == log;
  }

  lemma WriteFirstReplayed(s: State, at: int, db: Table)
    requires WellFormed(s) && s.todo != [] && WellFormed(WriteFirst(s, at)) && Replayed(s, db)
    ensures Replayed(WriteFirst(s, at), db)
  {
    ReplayNext(db, s.submitted, s.log, Wrote(s.todo[0], at));
    hide Replay, Upsert, Settled;
  }

  lemma {:induction false} WriteManyReplayed(s: State, n: nat, at: int, db: Table)
    requires WellFormed(s) && n <= |s.todo| && s.phase != Idle && Replayed(s, db)
    ensures Replayed(WriteMany(s, n, at), db)
    decreases n
  {
    hide Replay, Upsert, Settled;
    if n > 0 {
      WriteFirstWellFormed(s, at);
      WriteFirstReplayed(s, at, db);
      WriteManyReplayed(WriteFirst(s, at), n - 1, at, db);
    }
  }

  lemma ActionReplayed(s: State, a: Action, db: Table)
    requires WellFormed(s) && Enabled(s, a) && Replayed(s, db)
    ensures WellFormed(Apply(s, a)) && Replayed(Apply(s, a), db)
  {
    ApplyWellFormed(s, a);
    hide Replay, Upsert, WriteMany, ByVersion;
    match a
    case Submit(row) => ReplayMoreRows(db, s.submitted, row, s.log);
    case BulkOk(at) => WriteManyReplayed(s, ChunkSize(s), at, db);
    case RowOk(at) => ReplayNext(db, s.submitted, s.log, Wrote(s.todo[0], at));
    case Purge(cutoff) => ReplayNext(db, s.submitted, s.log, Purged(cutoff));
    case _ =>
  }

  /** In every run the table equals the commits, in order, applied to the initial table. */
  lemma {:induction false} RunReplayed(s: State, actions: seq<Action>, db: Table)
    requires WellFormed(s) && CanRun(s, actions) && Replayed(s, db)
    ensures Replayed(Run(s, actions), db)
    decreases |actions|
  {
    if actions != [] {
      ActionReplayed(s, actions[0], db);
      RunReplayed(Apply(s, actions[0]), actions[1..], db);
    }
  }

  // ---------- A drained queue shows the newest rows ----------

  /** The record shows what the row reported, written at that time. */
  ghost predicate Shows(r: Record, row: Row, at: int) {
    && r.lastSeen == at
    && r.status == row.status
    && r.userId == (if HasName(row) then row.userName else None)
    && forall c | Reported(row, c).Some? :: CellOf(r.usage, c) == Reported(row, c)
  }

  lemma WriteShows(stored: Option<Record>, row: Row, at: int)
    ensures Shows(Upserted(stored, Settled(row), at), row, at)
  {
    SettledReports(row);
    hide Upserted, Reported, CellOf;
    if stored.Some? {
      UpsertedLatest(stored.value, Settled(row), at);
    } else {
      UpsertedFirst(Settled(row), at);
    }
  }

  lemma SettledReports(row: Row)
    ensures forall c :: Reported(Settled(row), c) == Reported(row, c)
    ensures Settled(row).userId == if HasName(row) then row.userName else None
    ensures Settled(row).status == row.status && Settled(row).key == row.key
  {
  }

  ghost predicate NotPurgedAfter(log: seq<Event>, i: nat, k: Key) {
    forall j | i < j < |log| && log[j].Purged? :: k.submitTime >= log[j].cutoff
  }

  lemma {:induction false} ReplayShowsLast(db: Table, rows: seq<Row>, log: seq<Event>, i: nat)
    requires LogKnown(rows, log) && i < |log| && log[i].Wrote?
    requires forall j | i < j < |log| && log[j].Wrote? :: rows[log[j].version].key != rows[log[i].version].key
    requires NotPurgedAfter(log, i, rows[log[i].version].key)
    ensures var row := rows[log[i].version];
            row.key in Replay(db, rows, log) && Shows(Replay(db, rows, log)[row.key], row, log[i].at)
    decreases |log|
  {
    var n := |log| - 1;
    hide Shows, Upserted;
    if i < n {
      ReplayShowsLast(db, rows, log[..n], i);
    } else {
      WriteShows(Lookup(Replay(db, rows, log[..n]), rows[log[i].version].key), rows[log[i].version], log[i].at);
    }
  }

  /** A usage column of the table after all commits, when write i reports it and no later write of the job does. */
  lemma {:induction false} ReplayColumn(db: Table, rows: seq<Row>, log: seq<Event>, i: nat, c: Column)
    requires LogKnown(rows, log) && i < |log| && log[i].Wrote? && Reported(rows[log[i].version], c).Some?
    requires LastReport(rows, log, i, c)
    requires NotPurgedAfter(log, i, rows[log[i].version].key)
    ensures var row := rows[log[i].version];
            row.key in Replay(db, rows, log) && CellOf(Replay(db, rows, log)[row.key].usage, c) == Reported(row, c)
    decreases |log|
  {
    hide Reported, CellOf, Upserted;
    var n := |log| - 1;
    var key := rows[log[i].version].key;
    var before := Replay(db, rows, log[..n]);
    if i < n {
      ReplayColumn(db, rows, log[..n], i, c);
    }
    if log[n].Wrote? && rows[log[n].version].key == key {
      WriteColumn(Lookup(before, key), rows[log[n].version], log[n].at, c);
    }
  }

  lemma WriteColumn(stored: Option<Record>, row: Row, at: int, c: Column)
    ensures var after := CellOf(Upserted(stored, Settled(row), at).usage, c);
            if Reported(row, c).Some? then after == Reported(row, c)
            else stored.Some? ==> after == CellOf(stored.value.usage, c)
  {
    SettledReports(row);
    hide Upserted, Reported, CellOf;
    if stored.Some? {
      UpsertedLatest(stored.value, Settled(row), at);
    } else {
      UpsertedFirst(Settled(row), at);
    }
  }

  /** No write after i of the same job reports the column. */
  ghost predicate LastReport(rows: seq<Row>, log: seq<Event>, i: nat, c: Column)
    requires LogKnown(rows, log) && i < |log| && log[i].Wrote?
  {
    forall j | i < j < |log| && log[j].Wrote? && rows[log[j].version].key == rows[log[i].version].key ::
      Reported(rows[log[j].version], c).None?
  }

  /** In every run, a usage column of a job shows what the last committed row that reported it said, unless cleanup
      removed the record since. */
  lemma ColumnShowsLastReport(db: Table, actions: seq<Action>, i: nat, c: Column)
    requires CanRun(Initial(db), actions)
    requires var s := Run(Initial(db), actions);
             && i < |s.log| && s.log[i].Wrote? && Reported(s.submitted[s.log[i].version], c).Some?
             && LastReport(s.submitted, s.log, i, c)
             && NotPurgedAfter(s.log, i, KeyOf(s, s.log[i].version))
    ensures var s := Run(Initial(db), actions);
            var row := s.submitted[s.log[i].version];
            row.key in s.db && CellOf(s.db[row.key].usage, c) == Reported(row, c)
  {
    RunReplayed(Initial(db), actions, db);
    hide Run, CanRun, Reported, CellOf;
    var s := Run(Initial(db), actions);
    ReplayColumn(db, s.submitted, s.log, i, c);
  }

  /** Once the queue has drained, every job shows its newest row, unless cleanup removed it since. */
  lemma DrainedShowsNewest(db: Table, actions: seq<Action>, v: nat)
    requires CanRun(Initial(db), actions)
    requires var s := Run(Initial(db), actions);
             s.pending == map[] && s.phase == Idle && Newest(s, v)
    ensures var s := Run(Initial(db), actions);
            exists i | 0 <= i < |s.log| ::
              && s.log[i].Wrote? && s.log[i].version == v
              && (NotPurgedAfter(s.log, i, KeyOf(s, v)) ==>
                    KeyOf(s, v) in s.db && Shows(s.db[KeyOf(s, v)], s.submitted[v], s.log[i].at))
  {
    NewestNeverLost(db, actions);
    RunReplayed(Initial(db), actions, db);
    hide Run, CanRun, Shows;
    var s := Run(Initial(db), actions);
    assert !Pending(s, v) && !InFlight(s, v);
    var i :| 0 <= i < |s.log| && s.log[i].Wrote? && s.log[i].version == v
      && forall j | i < j < |s.log| && s.log[j].Wrote? :: KeyOf(s, s.log[j].version) != KeyOf(s, v);
    if NotPurgedAfter(s.log, i, KeyOf(s, v)) {
      ReplayShowsLast(db, s.submitted, s.log, i);
    }
  }

  // ---------- What no run changes ----------

  ghost predicate NeverPurges(actions: seq<Action>, k: Key) {
    forall i | 0 <= i < |actions| && actions[i].Purge? :: k.submitTime >= actions[i].cutoff
  }

  ghost predicate KeptAndEvolved(before: Table, after: Table, k: Key) {
    k in before ==> k in after && Evolves(before[k], after[k])
  }

  lemma {:induction false} WriteManyEvolves(s: State, n: nat, at: int, k: Key)
    requires WellFormed(s) && n <= |s.todo| && s.phase != Idle
    ensures KeptAndEvolved(s.db, WriteMany(s, n, at).db, k)
    decreases n
  {
    if n > 0 {
      WriteFirstWellFormed(s, at);
      WriteManyEvolves(WriteFirst(s, at), n - 1, at, k);
    }
  }

  lemma ActionEvolves(s: State, a: Action, k: Key)
    requires WellFormed(s) && Enabled(s, a) && (a.Purge? ==> k.submitTime >= a.cutoff)
    ensures KeptAndEvolved(s.db, Apply(s, a).db, k)
  {
    if a.BulkOk? {
      WriteManyEvolves(s, ChunkSize(s), a.at, k);
    }
  }

  lemma KeptTransitive(a: Table, b: Table, c: Table, k: Key)
    requires KeptAndEvolved(a, b, k) && KeptAndEvolved(b, c, k)
    ensures KeptAndEvolved(a, c, k)
  {
    hide Evolves;
    if k in a {
      EvolvesTransitive(a[k], b[k], c[k]);
    }
  }

  lemma NeverPurgesRest(actions: seq<Action>, k: Key)
    requires NeverPurges(actions, k) && actions != []
    ensures NeverPurges(actions[1..], k) && (actions[0].Purge? ==> k.submitTime >= actions[0].cutoff)
  {
    forall i | 0 <= i < |actions[1..]| && actions[1..][i].Purge? ensures k.submitTime >= actions[1..][i].cutoff {
      assert actions[i + 1].Purge?;
    }
  }

  /** While cleanup leaves a record alone, no run changes its first sighting or its insert-only
      columns, or turns one of its usage columns back to null. */
  lemma {:induction false} RunEvolves(s: State, actions: seq<Action>, k: Key)
    requires WellFormed(s) && CanRun(s, actions) && NeverPurges(actions, k)
    ensures KeptAndEvolved(s.db, Run(s, actions).db, k)
    decreases |actions|
  {
    hide WellFormed, Enabled, Apply, KeptAndEvolved, NeverPurges, Evolves;
    if actions != [] {
      var a, t := actions[0], Apply(s, actions[0]);
      ApplyWellFormed(s, a);
      NeverPurgesRest(actions, k);
      RunEvolves(t, actions[1..], k);
      ActionEvolves(s, a, k);
      KeptTransitive(s.db, t.db, Run(s, actions).db, k);
    } else {
      KeptSame(s.db, k);
    }
  }

  lemma KeptSame(a: Table, k: Key)
    ensures KeptAndEvolved(a, a, k)
  {
  }

  lemma EvolvesTransitive(a: Record, b: Record, c: Record)
    requires Evolves(a, b) && Evolves(b, c)
    ensures Evolves(a, c)
  {
  }
}
