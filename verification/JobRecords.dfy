/** Job history rows, the records they become, and the UPSERT between the two. */
module JobRecords {
  import opened Common

  datatype Key = Key(jobId: int, submitTime: int)

  /** Columns the UPSERT writes on insert only. */
  datatype Identity = Identity(
    jobName: Option<string>, account: Option<string>, grp: Option<string>,
    tresReqStr: Option<string>, tresPerJob: Option<string>, tresPerNode: Option<string>)

  /** Columns every UPSERT overwrites. */
  datatype Status = Status(
    jobState: Option<string>, stateReason: Option<string>, nodes: Option<string>,
    nodeCount: Option<int>, cpus: Option<int>, priority: Option<int>,
    startTime: Option<int>, endTime: Option<int>, exitCode: Option<string>,
    gresDetail: Option<string>, partition: Option<string>, qos: Option<string>,
    timeLimitMinutes: Option<int>, workingDirectory: Option<string>, command: Option<string>)

  /** Columns a null never overwrites. */
  datatype Usage = Usage(
    eligibleTime: Option<int>, lastSchedEvaluationTime: Option<int>,
    tresRequested: Option<string>, tresAllocated: Option<string>,
    usedMemoryGb: Option<real>, usageStats: Option<string>, usedCpuCoresAvg: Option<real>)

  /** A user id is represented by the username it belongs to. */
  type UserId = string

  /** A queued row: what a snapshot or a detail lookup reports about one job. */
  datatype Row = Row(key: Key, userName: Option<string>, userId: Option<UserId>,
                     identity: Identity, status: Status, usage: Usage)

  /** A stored job_snapshots record; its key is the map key it is stored under. */
  datatype Record = Record(firstSeen: int, lastSeen: int, userId: Option<UserId>,
                           identity: Identity, status: Status, usage: Usage)

  type Table = map<Key, Record>

  /** Usage as prepared for the database: metrics rounded to two decimals. */
  function Prepared(u: Usage): Usage {
    u.(usedMemoryGb := RoundMetric(u.usedMemoryGb), usedCpuCoresAvg := RoundMetric(u.usedCpuCoresAvg))
  }

  function MergeUsage(excluded: Usage, stored: Usage): Usage {
    Usage(Coalesce(excluded.eligibleTime, stored.eligibleTime),
          Coalesce(excluded.lastSchedEvaluationTime, stored.lastSchedEvaluationTime),
          Coalesce(excluded.tresRequested, stored.tresRequested),
          Coalesce(excluded.tresAllocated, stored.tresAllocated),
          Coalesce(excluded.usedMemoryGb, stored.usedMemoryGb),
          Coalesce(excluded.usageStats, stored.usageStats),
          Coalesce(excluded.usedCpuCoresAvg, stored.usedCpuCoresAvg))
  }

  /** The record one prepared row leaves behind. */
  function Upserted(stored: Option<Record>, row: Row, now: int): Record {
    match stored
    case None => Record(now, now, row.userId, row.identity, row.status, Prepared(row.usage))
    case Some(r) =>
      r.(lastSeen := now, userId := row.userId, status := row.status,
         usage := MergeUsage(Prepared(row.usage), r.usage))
  }

  function Lookup(db: Table, k: Key): Option<Record> {
    if k in db then Some(db[k]) else None
  }

  /** One row of the UPSERT. */
  function Upsert(db: Table, row: Row, now: int): Table {
    db[row.key := Upserted(Lookup(db, row.key), row, now)]
  }

  /** The statement applied to its rows one after the other. */
  function UpsertAll(db: Table, rows: seq<Row>, now: int): Table
    decreases |rows|
  {
    if rows == [] then db else UpsertAll(Upsert(db, rows[0], now), rows[1..], now)
  }

  // ---------- User ids ----------

  /** A user name that counts as given. */
  predicate HasName(row: Row) {
    row.userName.Some? && row.userName.value != ""
  }

  /** The user id _ensure_users sets: rows without a name are only touched when some row of the
      same call has one. */
  function Identified(row: Row, someNamed: bool): Row {
    if HasName(row) then row.(userId := row.userName)
    else if someNamed then row.(userId := None)
    else row
  }

  predicate SomeNamed(rows: seq<Row>) {
    exists i | 0 <= i < |rows| :: HasName(rows[i])
  }

  function EnsureUsers(rows: seq<Row>): (r: seq<Row>)
    ensures |r| == |rows|
    ensures forall i | 0 <= i < |rows| :: r[i] == Identified(rows[i], SomeNamed(rows))
  {
    seq(|rows|, i requires 0 <= i < |rows| => Identified(rows[i], SomeNamed(rows)))
  }

  /** What a chunk makes of its rows: a given name becomes the id; without one, a row keeps its id only in a chunk that
      gives no name at all. */
  lemma UserIdsOfChunk(rows: seq<Row>, i: nat)
    requires i < |rows|
    ensures var named := exists j | 0 <= j < |rows| :: rows[j].userName.Some? && rows[j].userName.value != "";
            var id := if rows[i].userName.Some? && rows[i].userName.value != "" then rows[i].userName
                      else if named then None else rows[i].userId;
            EnsureUsers(rows)[i] == rows[i].(userId := id)
  {
    assert SomeNamed(rows) <==> exists j | 0 <= j < |rows| :: rows[j].userName.Some? && rows[j].userName.value != "";
  }

  /** A row carrying a user id also carries the name. */
  predicate Consistent(row: Row) {
    row.userId.Some? ==> HasName(row)
  }

  /** The user id a row ends up with does not depend on its chunk mates exactly when the row does
      not carry an id without a name. */
  lemma IdentityIndependentOfChunk(row: Row)
    ensures (forall mates: seq<Row> :: Identified(row, SomeNamed(mates + [row])) == Identified(row, SomeNamed([row])))
            <==> Consistent(row)
  {
    if !Consistent(row) {
      var mate := row.(userName := Some("a"));
      assert HasName(([mate] + [row])[0]);
      assert Identified(row, SomeNamed([mate] + [row])) != Identified(row, SomeNamed([row]));
    }
  }

  /** The row as the database sees it, for a consistent row. */
  function Settled(row: Row): Row {
    row.(userId := if HasName(row) then row.userName else None)
  }

  lemma IdentifiedIsSettled(row: Row, someNamed: bool)
    requires Consistent(row)
    ensures Identified(row, someNamed) == Settled(row)
  {
  }

  lemma SettledAgain(row: Row)
    requires Consistent(row)
    ensures Consistent(Settled(row)) && Settled(Settled(row)) == Settled(row)
  {
  }

  // ---------- The simple fold ----------

  predicate KeyedRows(rows: map<Key, Row>) {
    forall k | k in rows :: rows[k].key == k
  }

  /** The UPSERT applied once to each of a set of rows, in no particular order. */
  function UpsertMap(db: Table, rows: map<Key, Row>, now: int): Table {
    map k | k in db.Keys + rows.Keys ::
      if k in rows then Upserted(Lookup(db, k), rows[k], now) else db[k]
  }

  ghost predicate DistinctKeys(rows: seq<Row>) {
    forall i, j | 0 <= i < j < |rows| :: rows[i].key != rows[j].key
  }

  function ByKey(rows: seq<Row>): (m: map<Key, Row>)
    ensures KeyedRows(m)
    ensures forall k :: k in m <==> exists i | 0 <= i < |rows| :: rows[i].key == k
  {
    if rows == [] then map[]
    else
      var n := |rows| - 1;
      var m := ByKey(rows[..n])[rows[n].key := rows[n]];
      assert forall k :: k in m ==> (k == rows[n].key || exists i | 0 <= i < n :: rows[i].key == k);
      m
  }

  lemma ByKeySnoc(rows: seq<Row>, row: Row)
    ensures ByKey(rows + [row]) == ByKey(rows)[row.key := row]
  {
    assert (rows + [row])[..|rows|] == rows;
  }

  /** With distinct keys, the order of a statement's rows does not matter. */
  lemma {:induction false} UpsertAllIsMap(db: Table, rows: seq<Row>, now: int)
    requires DistinctKeys(rows)
    ensures UpsertAll(db, rows, now) == UpsertMap(db, ByKey(rows), now)
    decreases |rows|
  {
    if rows == [] {
      assert UpsertMap(db, ByKey(rows), now) == db;
    } else {
      var n := |rows| - 1;
      UpsertAllSnoc(db, rows[..n], rows[n], now);
      assert rows == rows[..n] + [rows[n]];
      UpsertAllIsMap(db, rows[..n], now);
      var before := ByKey(rows[..n]);
      assert rows[n].key !in before;
      hide UpsertAll, UpsertMap, Upsert;
      UpsertMapAdd(db, before, rows[n], now);
    }
  }

  lemma UpsertMapAdd(db: Table, rows: map<Key, Row>, row: Row, now: int)
    requires row.key !in rows
    ensures Upsert(UpsertMap(db, rows, now), row, now) == UpsertMap(db, rows[row.key := row], now)
  {
    hide Upserted;
  }

  lemma {:induction false} UpsertAllSnoc(db: Table, rows: seq<Row>, row: Row, now: int)
    ensures UpsertAll(db, rows + [row], now) == Upsert(UpsertAll(db, rows, now), row, now)
    decreases |rows|
  {
    if rows == [] {
      assert rows + [row] == [row];
    } else {
      UpsertAllSnoc(Upsert(db, rows[0], now), rows[1..], row, now);
      assert (rows + [row])[1..] == rows[1..] + [row];
    }
  }

  /** Writing two disjoint groups of rows one after the other is writing them together. */
  lemma UpsertMapUnion(db: Table, first: map<Key, Row>, second: map<Key, Row>, now: int)
    requires first.Keys !! second.Keys
    ensures UpsertMap(UpsertMap(db, first, now), second, now) == UpsertMap(db, first + second, now)
  {
  }

  // ---------- What a write keeps ----------

  predicate Keeps<T>(before: Option<T>, after: Option<T>) {
    before.Some? ==> after.Some?
  }

  /** No usage column went back to null. */
  predicate UsageKept(before: Usage, after: Usage) {
    && Keeps(before.eligibleTime, after.eligibleTime)
    && Keeps(before.lastSchedEvaluationTime, after.lastSchedEvaluationTime)
    && Keeps(before.tresRequested, after.tresRequested)
    && Keeps(before.tresAllocated, after.tresAllocated)
    && Keeps(before.usedMemoryGb, after.usedMemoryGb)
    && Keeps(before.usageStats, after.usageStats)
    && Keeps(before.usedCpuCoresAvg, after.usedCpuCoresAvg)
  }

  /** What no write of a stored record may change. */
  predicate Evolves(before: Record, after: Record) {
    && after.firstSeen == before.firstSeen
    && after.identity == before.identity
    && UsageKept(before.usage, after.usage)
  }

  /** The stored metrics are rounded and a stored user id names a user. */
  predicate Stored(r: Record) {
    && Prepared(r.usage) == r.usage
    && (r.userId.Some? ==> r.userId.value != "")
  }

  ghost predicate WellStored(db: Table) {
    forall k | k in db :: Stored(db[k])
  }

  // ---------- What a write shows ----------

  /** The usage columns, one by one. */
  datatype Column = EligibleTime | LastSchedEvaluationTime | TresRequested | TresAllocated | UsedMemoryGb | UsageStats
                  | UsedCpuCoresAvg

  datatype Cell = Whole(i: int) | Text(s: string) | Measure(x: real)

  function WholeCell(v: Option<int>): Option<Cell> {
    if v.Some? then Some(Whole(v.value)) else None
  }

  function TextCell(v: Option<string>): Option<Cell> {
    if v.Some? then Some(Text(v.value)) else None
  }

  function MeasureCell(v: Option<real>): Option<Cell> {
    if v.Some? then Some(Measure(v.value)) else None
  }

  function CellOf(u: Usage, c: Column): Option<Cell> {
    match c
    case EligibleTime => WholeCell(u.eligibleTime)
    case LastSchedEvaluationTime => WholeCell(u.lastSchedEvaluationTime)
    case TresRequested => TextCell(u.tresRequested)
    case TresAllocated => TextCell(u.tresAllocated)
    case UsedMemoryGb => MeasureCell(u.usedMemoryGb)
    case UsageStats => TextCell(u.usageStats)
    case UsedCpuCoresAvg => MeasureCell(u.usedCpuCoresAvg)
  }

  /** What a row reports for a column: a metric counts in whole hundredths. */
  function Reported(row: Row, c: Column): Option<Cell> {
    var v := CellOf(row.usage, c);
    if v.Some? && v.value.Measure? then Some(Measure(Round2(v.value.x))) else v
  }

  /** A usage column of a stored record takes the row's value if it has one and keeps the record's otherwise. */
  ghost predicate TakesLatest(before: Usage, row: Row, after: Usage) {
    forall c :: CellOf(after, c) == if Reported(row, c).Some? then Reported(row, c) else CellOf(before, c)
  }

  /** A write of a stored record, column by column: the row's status and user, the newer usage values, the record's
      own first sighting and insert-only columns. */
  lemma UpsertedLatest(r: Record, row: Row, now: int)
    ensures var t := Upserted(Some(r), row, now);
            && t.firstSeen == r.firstSeen && t.lastSeen == now
            && t.userId == row.userId && t.identity == r.identity && t.status == row.status
            && TakesLatest(r.usage, row, t.usage)
  {
    hide Round2;
  }

  /** A first write: everything is the row's. */
  lemma UpsertedFirst(row: Row, now: int)
    ensures var t := Upserted(None, row, now);
            && t.firstSeen == t.lastSeen == now
            && t.userId == row.userId && t.identity == row.identity && t.status == row.status
            && forall c :: CellOf(t.usage, c) == Reported(row, c)
  {
    hide Round2;
  }

  lemma UpsertedEvolves(r: Record, row: Row, now: int)
    ensures Evolves(r, Upserted(Some(r), row, now))
  {
  }

  lemma PreparedTwice(u: Usage)
    ensures Prepared(Prepared(u)) == Prepared(u)
  {
    if u.usedMemoryGb.Some? { Round2Idempotent(u.usedMemoryGb.value); }
    if u.usedCpuCoresAvg.Some? { Round2Idempotent(u.usedCpuCoresAvg.value); }
  }

  lemma UpsertedStored(stored: Option<Record>, row: Row, now: int)
    requires stored.Some? ==> Stored(stored.value)
    ensures Stored(Upserted(stored, Settled(row), now))
  {
    hide Round2;
    PreparedTwice(row.usage);
  }

  lemma UpsertMapStored(db: Table, rows: map<Key, Row>, now: int)
    requires WellStored(db)
    requires forall k | k in rows :: Settled(rows[k]) == rows[k]
    ensures WellStored(UpsertMap(db, rows, now))
  {
    forall k | k in rows ensures Stored(Upserted(Lookup(db, k), rows[k], now)) {
      UpsertedStored(Lookup(db, k), rows[k], now);
    }
  }
}
