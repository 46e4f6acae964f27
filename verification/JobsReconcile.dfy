/** Closing the records of jobs that vanished from the active queue: which records are active, what
    a detail lookup turns into, and what one snapshot cycle does to every record. */
module JobsReconcile {
  import opened Common
  import opened JobRecords

  // ---------- Active records ----------

  const TERMINAL_STATES: seq<string> := [
    "COMPLETED", "FAILED", "CANCELLED", "TIMEOUT", "NODE_FAIL", "DEADLINE", "OUT_OF_MEMORY", "PREEMPTED", "BOOT_FAIL"]

  /** SQL's LIKE '%p%': the underscores of p stand for any character. */
  predicate Like(s: string, p: string) {
    exists i | 0 <= i <= |s| - |p| :: LikeAt(s, p, i)
  }

  predicate LikeAt(s: string, p: string, i: nat)
    requires i + |p| <= |s|
  {
    forall j | 0 <= j < |p| :: p[j] == '_' || s[i + j] == p[j]
  }

  predicate IsTerminal(state: string) {
    exists i | 0 <= i < |TERMINAL_STATES| :: Like(state, TERMINAL_STATES[i])
  }

  /** The text reads like the pattern, any character standing at its underscores. */
  predicate ReadsLike(m: string, p: string) {
    |m| == |p| && forall j | 0 <= j < |p| && p[j] != '_' :: m[j] == p[j]
  }

  /** LIKE '%p%' holds exactly when the text has such a part. */
  lemma LikeIff(s: string, p: string)
    ensures Like(s, p) <==> exists a, m, b :: s == a + m + b && ReadsLike(m, p)
  {
    forall a, m, b | s == a + m + b && ReadsLike(m, p) ensures Like(s, p) {
      assert forall j | 0 <= j < |p| :: s[|a| + j] == m[j];
      assert LikeAt(s, p, |a|);
    }
    if Like(s, p) {
      var i :| 0 <= i <= |s| - |p| && LikeAt(s, p, i);
      var m := s[i..i + |p|];
      assert s == s[..i] + m + s[i + |p|..];
      assert ReadsLike(m, p);
    }
  }

  /** A state is terminal exactly when it has a part that reads like one of the nine. */
  lemma TerminalIff(state: string)
    ensures IsTerminal(state) <==>
            exists t, a, m, b :: t in TERMINAL_STATES && state == a + m + b && ReadsLike(m, t)
  {
    forall t ensures Like(state, t) <==> exists a, m, b :: state == a + m + b && ReadsLike(m, t) {
      LikeIff(state, t);
    }
    hide Like, ReadsLike;
    if IsTerminal(state) {
      var i :| 0 <= i < |TERMINAL_STATES| && Like(state, TERMINAL_STATES[i]);
      assert TERMINAL_STATES[i] in TERMINAL_STATES;
    }
    forall t, a, m, b | t in TERMINAL_STATES && state == a + m + b && ReadsLike(m, t) ensures IsTerminal(state) {
      assert Like(state, t);
      var i :| 0 <= i < |TERMINAL_STATES| && TERMINAL_STATES[i] == t;
    }
  }

  predicate IsActive(status: Status) {
    status.jobState.None? || !IsTerminal(status.jobState.value)
  }

  lemma CompletedIsTerminal()
    ensures IsTerminal("COMPLETED")
  {
    assert LikeAt("COMPLETED", TERMINAL_STATES[0], 0);
    assert Like("COMPLETED", TERMINAL_STATES[0]);
  }

  // ---------- Snapshot rows ----------

  /** A job as the active queue reports it, fields already converted. */
  datatype Job = Job(jobId: Option<int>, submitTime: Option<int>, userName: Option<string>,
                     identity: Identity, status: Status,
                     eligibleTime: Option<int>, lastSchedEvaluationTime: Option<int>)

  predicate HasKey(job: Job) {
    job.jobId.Some? && job.jobId.value != 0 && job.submitTime.Some?
  }

  function Extract(job: Job): (row: Row)
    requires HasKey(job)
    ensures Consistent(row)
  {
    Row(Key(job.jobId.value, job.submitTime.value), job.userName, None, job.identity, job.status,
        Usage(job.eligibleTime, job.lastSchedEvaluationTime, None, None, None, None, None))
  }

  /** The rows of the jobs that have both key fields. */
  function PreparedRows(jobs: seq<Job>): (rows: seq<Row>)
    ensures forall row | row in rows :: Consistent(row)
  {
    if jobs == [] then []
    else
      var n := |jobs| - 1;
      PreparedRows(jobs[..n]) + if HasKey(jobs[n]) then [Extract(jobs[n])] else []
  }

  /** A job has a key when it has a number other than zero and a submit time. */
  lemma HasKeyIs(job: Job)
    ensures HasKey(job) <==> job.jobId !in {None, Some(0)} && job.submitTime != None
  {
  }

  lemma PreparedRowsNext(jobs: seq<Job>)
    requires jobs != []
    ensures var n := |jobs| - 1;
            PreparedRows(jobs) == PreparedRows(jobs[..n]) + if HasKey(jobs[n]) then [Extract(jobs[n])] else []
  {
  }

  /** A snapshot's rows are those of its jobs with a key, in order. */
  lemma {:induction false} PreparedRowsAre(jobs: seq<Job>) returns (origin: seq<nat>)
    ensures var rows := PreparedRows(jobs);
            && |origin| == |rows| && (forall i | 0 <= i < |jobs| :: i in origin <==> HasKey(jobs[i]))
            && (forall k | 0 <= k < |rows| ::
                  && origin[k] < |jobs| && HasKey(jobs[origin[k]]) && rows[k] == Extract(jobs[origin[k]]))
            && (forall j, k | 0 <= j < k < |rows| :: origin[j] < origin[k])
  {
    if jobs == [] {
      origin := [];
    } else {
      hide Extract, PreparedRows, HasKey;
      var n := |jobs| - 1;
      PreparedRowsNext(jobs);
      origin := PreparedRowsAre(jobs[..n]);
      if HasKey(jobs[n]) {
        origin := origin + [n];
      }
    }
  }

  // ---------- Detail lookups ----------

  /** What dict.get can find. */
  datatype Field<T> = Absent | Null | Given(value: T)

  /** The answer to a detail lookup, its fields already converted. */
  datatype Detail = Detail(
    jobId: Field<int>, name: Field<string>, jobState: Option<string>, stateReason: Option<string>,
    userName: Option<string>, account: Option<string>, grp: Option<string>, partition: Option<string>,
    qos: Option<string>, nodes: Option<string>, nodeCount: Option<int>, cpus: Option<int>,
    priority: Option<int>, tresReqStr: Option<string>, tresPerJob: Option<string>,
    tresPerNode: Option<string>, gresDetail: Option<string>, submitTime: Option<int>,
    startTime: Option<int>, endTime: Option<int>, eligibleTime: Option<int>,
    lastSchedEvaluationTime: Option<int>, tresRequested: Option<string>, tresAllocated: Option<string>,
    timeLimitMinutes: Option<int>, usedMemoryGb: Option<real>, usageStats: string,
    usedCpuCoresAvg: Option<real>, exitCode: Option<string>, workingDirectory: Option<string>,
    command: Option<string>)

  datatype Answer = NotFound | Unreachable | Found(detail: Detail)

  /** Python's `a or b` on optional text. */
  function Or(a: Option<string>, b: Option<string>): Option<string> {
    if a.Some? && a.value != "" then a else b
  }

  function GetField<T>(f: Field<T>, fallback: Option<T>): Option<T> {
    match f
    case Absent => fallback
    case Null => None
    case Given(v) => Some(v)
  }

  /** The row a detail describes, with the record's own values where the detail has none; its key is
      passed in, the job id and submit time having been checked. */
  function ExtractDetail(d: Detail, key: Key, r: Record): Row {
    var i, s, u := r.identity, r.status, r.usage;
    Row(key, Or(d.userName, r.userId), r.userId,
        Identity(GetField(d.name, i.jobName), Coalesce(d.account, i.account), Or(d.grp, i.grp),
                 Coalesce(d.tresReqStr, i.tresReqStr), Coalesce(d.tresPerJob, i.tresPerJob),
                 Coalesce(d.tresPerNode, i.tresPerNode)),
        Status(Or(d.jobState, s.jobState), Or(d.stateReason, s.stateReason), Coalesce(d.nodes, s.nodes),
               Coalesce(d.nodeCount, s.nodeCount), Coalesce(d.cpus, s.cpus), Coalesce(d.priority, s.priority),
               d.startTime, d.endTime, d.exitCode, Coalesce(d.gresDetail, s.gresDetail),
               Coalesce(d.partition, s.partition), Coalesce(d.qos, s.qos),
               Coalesce(d.timeLimitMinutes, s.timeLimitMinutes), Or(d.workingDirectory, s.workingDirectory),
               Or(d.command, s.command)),
        Usage(Coalesce(d.eligibleTime, u.eligibleTime),
              Coalesce(d.lastSchedEvaluationTime, u.lastSchedEvaluationTime),
              Coalesce(d.tresRequested, u.tresRequested), Coalesce(d.tresAllocated, u.tresAllocated),
              d.usedMemoryGb, Some(d.usageStats), d.usedCpuCoresAvg))
  }

  datatype Refresh = LookupFailed | Missing | Updated(row: Row)

  /** _refresh_missing_active_job */
  function RefreshMissing(k: Key, r: Record, answer: Answer): Refresh {
    match answer
    case Unreachable => LookupFailed
    case NotFound => Missing
    case Found(d) =>
      var jobId := GetField(d.jobId, Some(k.jobId));
      var submitTime := Coalesce(d.submitTime, Some(k.submitTime)).value;
      if jobId.None? || jobId.value == 0 then LookupFailed
      else if submitTime != k.submitTime then Missing
      else Updated(ExtractDetail(d, Key(jobId.value, submitTime), r))
  }

  const MISSING_REASON := "Job missing from active queue and detail lookup"

  /** _complete_missing_job */
  function CompleteMissing(k: Key, r: Record, observedAt: int): Row {
    Row(k, r.userId, r.userId, r.identity,
        r.status.(jobState := Some("COMPLETED"),
                  stateReason := Or(r.status.stateReason, Some(MISSING_REASON)),
                  endTime := Coalesce(r.status.endTime, Some(observedAt))),
        r.usage)
  }

  /** What the lookup made for each record answers. */
  type Answers = Key -> Answer

  /** The row reconciliation queues for one missing active record, if any. */
  function ReconcileRow(k: Key, r: Record, answers: Answers, observedAt: int): (o: Option<Row>)
    ensures Stored(r) && o.Some? ==> Consistent(o.value)
  {
    match RefreshMissing(k, r, answers(k))
    case LookupFailed => None
    case Missing => Some(CompleteMissing(k, r, observedAt))
    case Updated(row) => Some(row)
  }

  // ---------- What an answer says ----------

  /** The detail names no job. */
  predicate NamesNoJob(k: Key, d: Detail) {
    d.jobId == Null || d.jobId == Given(0) || (d.jobId == Absent && k.jobId == 0)
  }

  predicate OtherSubmission(k: Key, d: Detail) {
    d.submitTime.Some? && d.submitTime.value != k.submitTime
  }

  /** Nothing is learnt: slurmrestd failed, or its detail names no job. */
  predicate Unknown(k: Key, a: Answer) {
    a == Unreachable || (a.Found? && NamesNoJob(k, a.detail))
  }

  /** The job is gone: it was not found, or its id belongs to a later submission. */
  predicate Gone(k: Key, a: Answer) {
    a == NotFound || (a.Found? && !NamesNoJob(k, a.detail) && OtherSubmission(k, a.detail))
  }

  /** The detail describes a job submitted when this one was. */
  predicate Told(k: Key, a: Answer) {
    a.Found? && !NamesNoJob(k, a.detail) && !OtherSubmission(k, a.detail)
  }

  /** The status columns, one by one. */
  datatype StatusColumn = JobState | StateReason | NodeList | NodeCount | Cpus | Priority | StartTime | EndTime
                        | ExitCode | GresDetail | Partition | Qos | TimeLimitMinutes | WorkingDirectory | Command

  function StatusCell(s: Status, c: StatusColumn): Option<Cell> {
    match c
    case JobState => TextCell(s.jobState)
    case StateReason => TextCell(s.stateReason)
    case NodeList => TextCell(s.nodes)
    case NodeCount => WholeCell(s.nodeCount)
    case Cpus => WholeCell(s.cpus)
    case Priority => WholeCell(s.priority)
    case StartTime => WholeCell(s.startTime)
    case EndTime => WholeCell(s.endTime)
    case ExitCode => TextCell(s.exitCode)
    case GresDetail => TextCell(s.gresDetail)
    case Partition => TextCell(s.partition)
    case Qos => TextCell(s.qos)
    case TimeLimitMinutes => WholeCell(s.timeLimitMinutes)
    case WorkingDirectory => TextCell(s.workingDirectory)
    case Command => TextCell(s.command)
  }

  /** What a detail itself holds, without the record behind it. */
  function DetailStatus(d: Detail): Status {
    Status(d.jobState, d.stateReason, d.nodes, d.nodeCount, d.cpus, d.priority, d.startTime, d.endTime, d.exitCode,
           d.gresDetail, d.partition, d.qos, d.timeLimitMinutes, d.workingDirectory, d.command)
  }

  function DetailUsage(d: Detail): Usage {
    Usage(d.eligibleTime, d.lastSchedEvaluationTime, d.tresRequested, d.tresAllocated, d.usedMemoryGb,
          Some(d.usageStats), d.usedCpuCoresAvg)
  }

  /** The columns a detail settles even when it has no value for them. */
  predicate AlwaysTold(c: StatusColumn) {
    c.StartTime? || c.EndTime? || c.ExitCode?
  }

  /** The columns in which an empty text counts as no value. */
  predicate BlankIsNone(c: StatusColumn) {
    c.JobState? || c.StateReason? || c.WorkingDirectory? || c.Command?
  }

  predicate Tells(d: Detail, c: StatusColumn) {
    var v := StatusCell(DetailStatus(d), c);
    AlwaysTold(c) || (v.Some? && (BlankIsNone(c) ==> v != Some(Text(""))))
  }

  /** The status a detail leaves: its own value where it tells one, the record's elsewhere. */
  ghost predicate StatusTold(d: Detail, before: Status, after: Status) {
    forall c :: StatusCell(after, c) == StatusCell(if Tells(d, c) then DetailStatus(d) else before, c)
  }

  predicate GivesText(t: Option<string>) {
    t.Some? && t.value != ""
  }

  /** The insert-only columns of a detail's row. */
  predicate IdentityTold(d: Detail, before: Identity, after: Identity) {
    && (d.name.Given? ==> after.jobName == Some(d.name.value))
    && (d.name == Null ==> after.jobName == None)
    && (d.name == Absent ==> after.jobName == before.jobName)
    && after.account == (if d.account.Some? then d.account else before.account)
    && after.grp == (if GivesText(d.grp) then d.grp else before.grp)
    && after.tresReqStr == (if d.tresReqStr.Some? then d.tresReqStr else before.tresReqStr)
    && after.tresPerJob == (if d.tresPerJob.Some? then d.tresPerJob else before.tresPerJob)
    && after.tresPerNode == (if d.tresPerNode.Some? then d.tresPerNode else before.tresPerNode)
  }

  /** The row of a detail, column by column. A detail never falls back on the record's measured usage. */
  lemma DetailColumns(d: Detail, key: Key, r: Record)
    ensures var row := ExtractDetail(d, key, r);
            && row.key == key && row.userId == r.userId
            && row.userName == (if GivesText(d.userName) then d.userName else r.userId)
            && StatusTold(d, r.status, row.status) && IdentityTold(d, r.identity, row.identity)
            && forall c :: CellOf(row.usage, c) ==
                           if CellOf(DetailUsage(d), c).Some? || c in {UsedMemoryGb, UsageStats, UsedCpuCoresAvg}
                           then CellOf(DetailUsage(d), c) else CellOf(r.usage, c)
  {
    DetailStatusColumns(d, key, r);
  }

  lemma DetailStatusColumns(d: Detail, key: Key, r: Record)
    ensures StatusTold(d, r.status, ExtractDetail(d, key, r).status)
  {
    forall c ensures StatusCell(ExtractDetail(d, key, r).status, c) ==
                     StatusCell(if Tells(d, c) then DetailStatus(d) else r.status, c) {
      DetailStatusColumn(d, key, r, c);
    }
    hide ExtractDetail, StatusCell, Tells, DetailStatus;
  }

  lemma DetailStatusColumn(d: Detail, key: Key, r: Record, c: StatusColumn)
    ensures StatusCell(ExtractDetail(d, key, r).status, c) ==
            StatusCell(if Tells(d, c) then DetailStatus(d) else r.status, c)
  {
  }

  /** How an answer is read: what is queued for a vanished record depends on what the answer says. */
  lemma AnswerDecides(k: Key, r: Record, answers: Answers, observedAt: int)
    ensures var a, o := answers(k), ReconcileRow(k, r, answers, observedAt);
            && (Unknown(k, a) <==> RefreshMissing(k, r, a).LookupFailed?) && (Unknown(k, a) ==> o == None)
            && (Gone(k, a) <==> RefreshMissing(k, r, a).Missing?)
            && (Gone(k, a) ==> o == Some(CompleteMissing(k, r, observedAt)))
            && (Told(k, a) <==> RefreshMissing(k, r, a).Updated?)
            && (Told(k, a) ==>
                  var id := if a.detail.jobId.Given? then a.detail.jobId.value else k.jobId;
                  o == Some(ExtractDetail(a.detail, Key(id, k.submitTime), r)))
  {
    hide ExtractDetail, CompleteMissing;
  }

  /** A record after a detail of its own was written: the detail's values where it tells any, the record's own
      elsewhere; first sighting and insert-only columns stay. */
  ghost predicate ShowsDetail(before: Record, d: Detail, after: Record, now: int) {
    && after.firstSeen == before.firstSeen && after.lastSeen == now && after.identity == before.identity
    && after.userId == (if GivesText(d.userName) then d.userName else before.userId)
    && StatusTold(d, before.status, after.status)
    && forall c :: CellOf(after.usage, c) ==
                   if CellOf(DetailUsage(d), c).Some? then CellOf(Prepared(DetailUsage(d)), c)
                   else CellOf(before.usage, c)
  }

  lemma DetailWritten(d: Detail, key: Key, r: Record, now: int)
    requires Stored(r)
    ensures ShowsDetail(r, d, Upserted(Some(r), Settled(ExtractDetail(d, key, r)), now), now)
  {
    DetailColumns(d, key, r);
    DetailUsageWritten(d, key, r, now);
    UpsertedLatest(r, Settled(ExtractDetail(d, key, r)), now);
    hide ExtractDetail, Upserted, StatusTold, Reported, CellOf, Stored;
    assert r.userId.Some? ==> r.userId.value != "" by { StoredUser(r); }
  }

  lemma StoredUser(r: Record)
    requires Stored(r)
    ensures r.userId.Some? ==> r.userId.value != ""
  {
  }

  lemma DetailUsageWritten(d: Detail, key: Key, r: Record, now: int)
    requires Stored(r)
    ensures forall c ::
              CellOf(Upserted(Some(r), Settled(ExtractDetail(d, key, r)), now).usage, c) ==
              if CellOf(DetailUsage(d), c).Some? then CellOf(Prepared(DetailUsage(d)), c) else CellOf(r.usage, c)
  {
    hide Round2;
  }

  predicate InSnapshot(k: Key, rows: seq<Row>) {
    exists i | 0 <= i < |rows| :: rows[i].key == k
  }

  /** The rows queued by the loop over the active records, in their order. */
  function ReconcileRows(order: seq<Key>, db: Table, current: seq<Row>, answers: Answers, observedAt: int): seq<Row>
    requires forall k | k in order :: k in db
  {
    if order == [] then []
    else
      var n := |order| - 1;
      var k := order[n];
      var o := ReconcileRow(k, db[k], answers, observedAt);
      ReconcileRows(order[..n], db, current, answers, observedAt)
      + if InSnapshot(k, current) || o.None? then [] else [o.value]
  }

  /** order lists exactly the keys of the active records, each once, last seen first. */
  ghost predicate ListsActive(order: seq<Key>, db: Table) {
    && (forall k :: k in order <==> k in db && IsActive(db[k].status))
    && (forall i, j | 0 <= i < j < |order| ::
          order[i] != order[j] && db[order[i]].lastSeen >= db[order[j]].lastSeen)
  }

  /** _queue_rows: a later row for the same job replaces an earlier one. */
  function Queued(pending: map<Key, Row>, rows: seq<Row>): map<Key, Row> {
    pending + ByKey(rows)
  }

  function SettleAll(rows: map<Key, Row>): map<Key, Row> {
    map k | k in rows :: Settled(rows[k])
  }

  // ---------- One cycle ----------

  /** The table after queueing a snapshot, reconciling, and a flush in which every write succeeds. */
  function CycleTable(db: Table, pending: map<Key, Row>, current: seq<Row>, order: seq<Key>,
                      answers: Answers, observedAt: int, now: int): Table
    requires forall k | k in order :: k in db
  {
    var queue := Queued(Queued(pending, current), ReconcileRows(order, db, current, answers, observedAt));
    UpsertMap(db, SettleAll(queue), now)
  }

  /** The job a vanished record's answer has a row queued for. */
  function Target(k: Key, a: Answer): Option<Key> {
    if Gone(k, a) then Some(k)
    else if Told(k, a) then Some(Key(if a.detail.jobId.Given? then a.detail.jobId.value else k.jobId, k.submitTime))
    else None
  }

  /** A row is queued exactly when the answer has a target, under that key. */
  lemma TargetIs(k: Key, r: Record, answers: Answers, observedAt: int)
    ensures var o := ReconcileRow(k, r, answers, observedAt);
            (if o.Some? then Some(o.value.key) else None) == Target(k, answers(k))
  {
    AnswerDecides(k, r, answers, observedAt);
    hide ReconcileRow, Gone, Told, Unknown;
    AnswerKinds(k, answers(k));
  }

  lemma AnswerKinds(k: Key, a: Answer)
    ensures Unknown(k, a) || Gone(k, a) || Told(k, a)
    ensures !(Unknown(k, a) && Gone(k, a)) && !(Unknown(k, a) && Told(k, a)) && !(Gone(k, a) && Told(k, a))
    ensures Told(k, a) ==> a.Found?
  {
  }

  /** The answer about the vanished record at k0 queues a row for the job at k. */
  ghost predicate Reaches(k0: Key, k: Key, order: seq<Key>, current: seq<Row>, answers: Answers) {
    k0 in order && !InSnapshot(k0, current) && Target(k0, answers(k0)) == Some(k)
  }

  /** The reconciled rows by key: a job has one exactly when some record's reconciliation reaches it, and it is
      the row of such a record. */
  ghost predicate RowsReach(m: map<Key, Row>, order: seq<Key>, db: Table, current: seq<Row>, answers: Answers,
                            observedAt: int)
    requires forall x | x in order :: x in db
  {
    && (forall k0, k | Reaches(k0, k, order, current, answers) :: k in m)
    && (forall k | k in m :: exists k0 ::
          Reaches(k0, k, order, current, answers)
          && ReconcileRow(k0, db[k0], answers, observedAt) == Some(m[k]))
  }

  lemma ReachesNext(k0: Key, k: Key, order: seq<Key>, current: seq<Row>, answers: Answers)
    requires order != []
    ensures var n := |order| - 1;
            Reaches(k0, k, order, current, answers) <==>
            || Reaches(k0, k, order[..n], current, answers)
            || (k0 == order[n] && Reaches(order[n], k, [order[n]], current, answers))
  {
    hide Target, InSnapshot;
    var n := |order| - 1;
    assert order == order[..n] + [order[n]];
  }

  lemma RowsReachSkip(m: map<Key, Row>, order: seq<Key>, db: Table, current: seq<Row>, answers: Answers,
                      observedAt: int)
    requires (forall x | x in order :: x in db) && order != []
    requires RowsReach(m, order[..|order| - 1], db, current, answers, observedAt)
    requires var k0 := order[|order| - 1];
             InSnapshot(k0, current) || ReconcileRow(k0, db[k0], answers, observedAt).None?
    ensures RowsReach(m, order, db, current, answers, observedAt)
  {
    hide ReconcileRow, InSnapshot, Target;
    var last := order[|order| - 1];
    TargetIs(last, db[last], answers, observedAt);
    forall k0, k ensures Reaches(k0, k, order, current, answers)
                         <==> Reaches(k0, k, order[..|order| - 1], current, answers) {
      ReachesNext(k0, k, order, current, answers);
    }
  }

  lemma RowsReachAdd(m: map<Key, Row>, order: seq<Key>, db: Table, current: seq<Row>, answers: Answers, observedAt: int)
    requires (forall x | x in order :: x in db) && order != []
    requires RowsReach(m, order[..|order| - 1], db, current, answers, observedAt)
    requires var k0 := order[|order| - 1];
             !InSnapshot(k0, current) && ReconcileRow(k0, db[k0], answers, observedAt).Some?
    ensures var k0 := order[|order| - 1];
            var row := ReconcileRow(k0, db[k0], answers, observedAt).value;
            RowsReach(m[row.key := row], order, db, current, answers, observedAt)
  {
    hide ReconcileRow, InSnapshot, Target;
    var last := order[|order| - 1];
    var front := order[..|order| - 1];
    var row := ReconcileRow(last, db[last], answers, observedAt).value;
    TargetIs(last, db[last], answers, observedAt);
    var m' := m[row.key := row];
    forall k0, k ensures Reaches(k0, k, order, current, answers) <==>
                         Reaches(k0, k, front, current, answers) || (k0 == last && k == row.key) {
      ReachesNext(k0, k, order, current, answers);
    }
    assert Reaches(last, row.key, order, current, answers);
    hide Reaches;
    forall k | k in m' ensures exists k0 :: Reaches(k0, k, order, current, answers)
                                            && ReconcileRow(k0, db[k0], answers, observedAt) == Some(m'[k]) {
      if k != row.key {
        var k0 :| Reaches(k0, k, front, current, answers)
                  && ReconcileRow(k0, db[k0], answers, observedAt) == Some(m[k]);
        assert Reaches(k0, k, order, current, answers);
      }
    }
  }

  lemma {:induction false} ReconcileRowsReach(order: seq<Key>, db: Table, current: seq<Row>, answers: Answers,
                                              observedAt: int)
    requires forall k | k in order :: k in db
    ensures RowsReach(ByKey(ReconcileRows(order, db, current, answers, observedAt)),
                      order, db, current, answers, observedAt)
  {
    if order != [] {
      hide ReconcileRow, InSnapshot, RowsReach;
      var n := |order| - 1;
      var k0 := order[n];
      ReconcileRowsReach(order[..n], db, current, answers, observedAt);
      var before := ReconcileRows(order[..n], db, current, answers, observedAt);
      var o := ReconcileRow(k0, db[k0], answers, observedAt);
      if InSnapshot(k0, current) || o.None? {
        RowsReachSkip(ByKey(before), order, db, current, answers, observedAt);
        assert ReconcileRows(order, db, current, answers, observedAt) == before;
      } else {
        RowsReachAdd(ByKey(before), order, db, current, answers, observedAt);
        assert ReconcileRows(order, db, current, answers, observedAt) == before + [o.value];
        assert (before + [o.value])[..|before|] == before;
      }
    }
  }

  /** Nothing but the record's own answer decides about k: no other record's answer is about it, and its own is about
      no other. */
  ghost predicate OnlyOwn(k: Key, order: seq<Key>, current: seq<Row>, answers: Answers) {
    && (forall k0 | Reaches(k0, k, order, current, answers) :: k0 == k)
    && (forall k1 | Reaches(k, k1, order, current, answers) :: k1 == k)
  }

  /** What closing a vanished job leaves behind: completed, an end time, everything else as it was. */
  function Closed(r: Record, observedAt: int, now: int): Record {
    r.(lastSeen := now,
       status := r.status.(jobState := Some("COMPLETED"),
                           stateReason := Or(r.status.stateReason, Some(MISSING_REASON)),
                           endTime := Coalesce(r.status.endTime, Some(observedAt))))
  }

  lemma ClosingKeepsColumns(k: Key, r: Record, observedAt: int, now: int)
    requires Stored(r)
    ensures Upserted(Some(r), Settled(CompleteMissing(k, r, observedAt)), now) == Closed(r, observedAt, now)
    ensures !IsActive(Closed(r, observedAt, now).status) && Closed(r, observedAt, now).status.endTime.Some?
  {
    CompletedIsTerminal();
    hide IsTerminal, Round2;
    assert MergeUsage(Prepared(r.usage), r.usage) == r.usage;
  }

  /** The assumptions of a cycle: a well-stored table, a keyed queue, the active records in some order. */
  ghost predicate CycleReady(db: Table, pending: map<Key, Row>, order: seq<Key>) {
    && WellStored(db)
    && KeyedRows(pending)
    && ListsActive(order, db)
  }

  lemma ByKeyIsInSnapshot(rows: seq<Row>, k: Key)
    ensures k in ByKey(rows) <==> InSnapshot(k, rows)
  {
  }

  /** Two rounds of queued rows, written: the later round wins, then the earlier, then what was pending. */
  lemma WrittenTwice(db: Table, pending: map<Key, Row>, first: map<Key, Row>, second: map<Key, Row>, now: int, k: Key)
    ensures Lookup(UpsertMap(db, SettleAll(pending + first + second), now), k) ==
            if k in second then Some(Upserted(Lookup(db, k), Settled(second[k]), now))
            else if k in first then Some(Upserted(Lookup(db, k), Settled(first[k]), now))
            else if k in pending then Some(Upserted(Lookup(db, k), Settled(pending[k]), now))
            else Lookup(db, k)
  {
    hide Upserted, Settled;
  }

  /** What one record is after a cycle: the row of a record whose reconciliation reaches it, else its snapshot row,
      else its pending row, else unchanged. */
  lemma CycleRecord(db: Table, pending: map<Key, Row>, current: seq<Row>, order: seq<Key>,
                    answers: Answers, observedAt: int, now: int, k: Key)
    requires CycleReady(db, pending, order)
    ensures var after := CycleTable(db, pending, current, order, answers, observedAt, now);
            if exists k0 :: Reaches(k0, k, order, current, answers) then
              exists k0, row ::
                && Reaches(k0, k, order, current, answers) && ReconcileRow(k0, db[k0], answers, observedAt) == Some(row)
                && Lookup(after, k) == Some(Upserted(Lookup(db, k), Settled(row), now))
            else if InSnapshot(k, current) then
              (ByKeyIsInSnapshot(current, k);
               Lookup(after, k) == Some(Upserted(Lookup(db, k), Settled(ByKey(current)[k]), now)))
            else if k in pending then Lookup(after, k) == Some(Upserted(Lookup(db, k), Settled(pending[k]), now))
            else Lookup(after, k) == Lookup(db, k)
  {
    hide ReconcileRow, InSnapshot, Reaches, Upserted, WellStored, ByKey, ReconcileRows, Settled, UpsertMap, SettleAll,
      Lookup;
    ReconcileRowsReach(order, db, current, answers, observedAt);
    ByKeyIsInSnapshot(current, k);
    WrittenTwice(db, pending, ByKey(current), ByKey(ReconcileRows(order, db, current, answers, observedAt)), now, k);
  }

  /** Exactly which records a cycle leaves untouched: those neither pending nor in the snapshot that no record's
      reconciliation reaches. */
  lemma UntouchedIff(db: Table, pending: map<Key, Row>, current: seq<Row>, order: seq<Key>,
                     answers: Answers, observedAt: int, now: int, k: Key)
    requires CycleReady(db, pending, order) && k in db && now != db[k].lastSeen
    ensures Lookup(CycleTable(db, pending, current, order, answers, observedAt, now), k) == Some(db[k]) <==>
            && k !in pending && !InSnapshot(k, current)
            && !exists k0 :: Reaches(k0, k, order, current, answers)
  {
    CycleRecord(db, pending, current, order, answers, observedAt, now, k);
    forall row: Row ensures Upserted(Lookup(db, k), row, now) != db[k] {
      SeenNow(Lookup(db, k), row, now);
    }
    hide CycleTable, Reaches, InSnapshot, Upserted, ByKey, CycleReady, ReconcileRow;
  }

  lemma SeenNow(stored: Option<Record>, row: Row, now: int)
    ensures Upserted(stored, row, now).lastSeen == now
  {
  }

  /** A vanished record that nothing else touches, and whose answer describes some job, stays active and as it was
      exactly when that job is another one: its own row is then filed elsewhere. */
  lemma ForeignAnswerLeavesActive(db: Table, pending: map<Key, Row>, current: seq<Row>, order: seq<Key>,
                                  answers: Answers, observedAt: int, now: int, k: Key)
    requires CycleReady(db, pending, order) && k in order && now != db[k].lastSeen
    requires !InSnapshot(k, current) && k !in pending && Told(k, answers(k))
    requires forall k0 | Reaches(k0, k, order, current, answers) :: k0 == k
    ensures Lookup(CycleTable(db, pending, current, order, answers, observedAt, now), k) == Some(db[k]) <==>
            answers(k).detail.jobId.Given? && answers(k).detail.jobId.value != k.jobId
  {
    hide CycleTable, InSnapshot, IsActive, WellStored, Gone, Told;
    AnswerKinds(k, answers(k));
    UntouchedIff(db, pending, current, order, answers, observedAt, now, k);
    assert Reaches(k, k, order, current, answers) <==>
           !(answers(k).detail.jobId.Given? && answers(k).detail.jobId.value != k.jobId);
  }

  /** A record other than k whose answer describes the job at k decided what k's record is now. */
  ghost predicate ToldByOther(k: Key, db: Table, after: Table, order: seq<Key>, answers: Answers, now: int)
    requires forall x | x in order :: x in db
  {
    exists k0 ::
      && k0 != k && k0 in order && Told(k0, answers(k0)) && Target(k0, answers(k0)) == Some(k)
      && Lookup(after, k) ==
         Some(Upserted(Lookup(db, k), Settled(ExtractDetail(answers(k0).detail, k, db[k0])), now))
  }

  /** What reaches a record: its own closing, or a detail. */
  lemma ReachingRow(k0: Key, k: Key, order: seq<Key>, db: Table, current: seq<Row>, answers: Answers, observedAt: int)
    requires (forall x | x in order :: x in db) && Reaches(k0, k, order, current, answers)
    ensures var row := ReconcileRow(k0, db[k0], answers, observedAt);
            || (Gone(k0, answers(k0)) && k0 == k && row == Some(CompleteMissing(k, db[k], observedAt)))
            || (Told(k0, answers(k0)) && row == Some(ExtractDetail(answers(k0).detail, k, db[k0])))
  {
    AnswerDecides(k0, db[k0], answers, observedAt);
    hide ReconcileRow, RefreshMissing, Gone, Told, Unknown, ExtractDetail, CompleteMissing, InSnapshot;
  }

  /** No live job is closed, whatever the lookups answer: a row that reaches a job of the snapshot is a detail some
      lookup returned for it. */
  lemma NoLiveJobClosed(db: Table, pending: map<Key, Row>, current: seq<Row>, order: seq<Key>,
                        answers: Answers, observedAt: int, now: int, k: Key)
    requires CycleReady(db, pending, order) && InSnapshot(k, current)
    ensures var after := CycleTable(db, pending, current, order, answers, observedAt, now);
            || (ByKeyIsInSnapshot(current, k);
                Lookup(after, k) == Some(Upserted(Lookup(db, k), Settled(ByKey(current)[k]), now)))
            || ToldByOther(k, db, after, order, answers, now)
  {
    CycleRecord(db, pending, current, order, answers, observedAt, now, k);
    forall k0 | Reaches(k0, k, order, current, answers)
      ensures k0 != k && Told(k0, answers(k0))
      ensures ReconcileRow(k0, db[k0], answers, observedAt) == Some(ExtractDetail(answers(k0).detail, k, db[k0]))
    {
      ReachingRow(k0, k, order, db, current, answers, observedAt);
    }
    hide CycleTable, InSnapshot, Upserted, ByKey, CycleReady, ReconcileRow, ExtractDetail, Told, Target;
  }

  /** A vanished job that is gone by its answer is closed, unless another record's answer describes it. */
  lemma NotFoundIsClosed(db: Table, pending: map<Key, Row>, current: seq<Row>, order: seq<Key>,
                         answers: Answers, observedAt: int, now: int, k: Key)
    requires CycleReady(db, pending, order)
    requires k in order && !InSnapshot(k, current) && Gone(k, answers(k))
    ensures var after := CycleTable(db, pending, current, order, answers, observedAt, now);
            || Lookup(after, k) == Some(Closed(db[k], observedAt, now))
            || ToldByOther(k, db, after, order, answers, now)
  {
    CycleRecord(db, pending, current, order, answers, observedAt, now, k);
    ListedAreActive(db, pending, order, k);
    ClosingKeepsColumns(k, db[k], observedAt, now);
    AnswerKinds(k, answers(k));
    assert Reaches(k, k, order, current, answers);
    forall k0 | Reaches(k0, k, order, current, answers)
      ensures var row := ReconcileRow(k0, db[k0], answers, observedAt);
              if k0 == k then row == Some(CompleteMissing(k, db[k], observedAt))
              else Told(k0, answers(k0)) && row == Some(ExtractDetail(answers(k0).detail, k, db[k0]))
    {
      ReachingRow(k0, k, order, db, current, answers, observedAt);
    }
    hide CycleTable, InSnapshot, Upserted, ByKey, ReconcileRow, CompleteMissing, Closed, WellStored, ExtractDetail,
      Told, Gone, Target, CycleReady;
  }

  /** Live jobs show their snapshot row; vanished jobs are closed when gone by their answer, show its detail when it
      tells one, and stay as they are when it says nothing; pending rows are written; finished records are untouched.
      Whatever is still active is accounted for. */
  ghost predicate Accounted(db: Table, after: Table, pending: map<Key, Row>, current: seq<Row>, order: seq<Key>,
                            answers: Answers, observedAt: int, now: int, k: Key)
    requires forall k | k in order :: k in db
  {
    var vanished := k in order && !InSnapshot(k, current);
    && (InSnapshot(k, current) ==>
          (ByKeyIsInSnapshot(current, k);
           Lookup(after, k) == Some(Upserted(Lookup(db, k), Settled(ByKey(current)[k]), now))))
    && (vanished && Gone(k, answers(k)) ==> Lookup(after, k) == Some(Closed(db[k], observedAt, now)))
    && (vanished && Told(k, answers(k)) ==> k in after && ShowsDetail(db[k], answers(k).detail, after[k], now))
    && (!InSnapshot(k, current) && (k !in order || Unknown(k, answers(k))) ==>
          if k in pending then Lookup(after, k) == Some(Upserted(Lookup(db, k), Settled(pending[k]), now))
          else Lookup(after, k) == Lookup(db, k))
    && (k in after && IsActive(after[k].status) ==>
          || InSnapshot(k, current)
          || k in pending
          || (vanished && Unknown(k, answers(k)))
          || (vanished && Told(k, answers(k)) && !TellsTheEnd(answers(k).detail)))
  }

  /** The detail gives a terminal state. */
  predicate TellsTheEnd(d: Detail) {
    GivesText(d.jobState) && IsTerminal(d.jobState.value)
  }

  lemma StatusWritten(stored: Option<Record>, now: int)
    ensures forall row: Row :: Upserted(stored, Settled(row), now).status == row.status
  {
  }

  lemma ToldState(d: Detail, before: Status, after: Status)
    requires StatusTold(d, before, after) && IsActive(after)
    ensures !TellsTheEnd(d)
  {
    hide IsTerminal;
    assert StatusCell(after, JobState) == StatusCell(if Tells(d, JobState) then DetailStatus(d) else before, JobState);
  }

  lemma ListedAreActive(db: Table, pending: map<Key, Row>, order: seq<Key>, k: Key)
    requires CycleReady(db, pending, order)
    ensures k in order <==> k in db && IsActive(db[k].status)
    ensures k in order ==> Stored(db[k])
    ensures forall x | x in order :: x in db
  {
    hide IsActive, Stored;
  }

  /** A record only its own answer decides about is reached exactly by itself, when the answer says anything. */
  lemma OwnReach(k: Key, order: seq<Key>, current: seq<Row>, answers: Answers)
    requires OnlyOwn(k, order, current, answers)
    ensures forall k0 | Reaches(k0, k, order, current, answers) :: k0 == k
    ensures (exists k0 :: Reaches(k0, k, order, current, answers)) <==>
            k in order && !InSnapshot(k, current) && !Unknown(k, answers(k))
  {
    hide InSnapshot, Gone, Told, Unknown;
    AnswerKinds(k, answers(k));
    if k in order && !InSnapshot(k, current) && !Unknown(k, answers(k)) {
      assert Reaches(k, Target(k, answers(k)).value, order, current, answers);
    }
  }

  /** What a record's own answer leaves of it. */
  lemma OwnAnswer(k: Key, r: Record, answers: Answers, observedAt: int, now: int)
    requires Stored(r) && Target(k, answers(k)) == Some(k)
    ensures var o := ReconcileRow(k, r, answers, observedAt);
            && o.Some?
            && var t := Upserted(Some(r), Settled(o.value), now);
               && (Gone(k, answers(k)) ==> t == Closed(r, observedAt, now) && !IsActive(t.status))
               && (Told(k, answers(k)) ==> ShowsDetail(r, answers(k).detail, t, now)
                                           && (IsActive(t.status) ==> !TellsTheEnd(answers(k).detail)))
  {
    AnswerDecides(k, r, answers, observedAt);
    AnswerKinds(k, answers(k));
    hide ReconcileRow, RefreshMissing, ExtractDetail, CompleteMissing, Unknown, Gone, Told, Upserted, Settled, Closed,
      StatusTold, IsActive, TellsTheEnd, Stored;
    if Gone(k, answers(k)) {
      ClosingKeepsColumns(k, r, observedAt, now);
    } else {
      var d := answers(k).detail;
      DetailWritten(d, k, r, now);
      var t := Upserted(Some(r), Settled(ExtractDetail(d, k, r)), now);
      if IsActive(t.status) {
        ToldState(d, r.status, t.status);
      }
    }
  }

  /** After a cycle whose writes all succeed, every record that only its own answer decides about is accounted for. */
  lemma CycleAccounts(db: Table, pending: map<Key, Row>, current: seq<Row>, order: seq<Key>,
                      answers: Answers, observedAt: int, now: int, k: Key)
    requires CycleReady(db, pending, order) && OnlyOwn(k, order, current, answers)
    ensures Accounted(db, CycleTable(db, pending, current, order, answers, observedAt, now),
                      pending, current, order, answers, observedAt, now, k)
  {
    hide InSnapshot, IsActive, CompleteMissing, Closed, ByKey, CycleTable, ReconcileRow, RefreshMissing, Reaches,
      OnlyOwn, Upserted, Settled, WellStored, ListsActive, Stored, ShowsDetail, Gone, Told, Unknown, TellsTheEnd,
      Target;
    CycleRecord(db, pending, current, order, answers, observedAt, now, k);
    ByKeyIsInSnapshot(current, k);
    StatusWritten(Lookup(db, k), now);
    ListedAreActive(db, pending, order, k);
    OwnReach(k, order, current, answers);
    AnswerKinds(k, answers(k));
    if k in order && !InSnapshot(k, current) && !Unknown(k, answers(k)) {
      OwnTarget(k, order, current, answers);
      OwnAnswer(k, db[k], answers, observedAt, now);
    }
  }

  lemma OwnTarget(k: Key, order: seq<Key>, current: seq<Row>, answers: Answers)
    requires OnlyOwn(k, order, current, answers) && k in order && !InSnapshot(k, current) && !Unknown(k, answers(k))
    ensures Target(k, answers(k)) == Some(k)
  {
    hide InSnapshot, Gone, Told, Unknown;
    AnswerKinds(k, answers(k));
    assert Reaches(k, Target(k, answers(k)).value, order, current, answers);
  }

  // ---------- Live jobs ----------

  /** The last of the reported jobs with a given key. */
  ghost predicate LastWith(jobs: seq<Job>, i: nat, k: Key) {
    && i < |jobs| && HasKey(jobs[i]) && JobKey(jobs[i]) == k
    && forall j | i < j < |jobs| && HasKey(jobs[j]) :: JobKey(jobs[j]) != k
  }

  function JobKey(job: Job): Key
    requires HasKey(job)
  {
    Key(job.jobId.value, job.submitTime.value)
  }

  /** A snapshot reports no usage but two times. */
  function JobCell(job: Job, c: Column): Option<Cell> {
    match c
    case EligibleTime => WholeCell(job.eligibleTime)
    case LastSchedEvaluationTime => WholeCell(job.lastSchedEvaluationTime)
    case _ => None
  }

  /** What one more job adds to the rows by key. */
  lemma PreparedNext(jobs: seq<Job>)
    requires jobs != []
    ensures var n := |jobs| - 1;
            var before := ByKey(PreparedRows(jobs[..n]));
            ByKey(PreparedRows(jobs)) ==
            if HasKey(jobs[n]) then before[JobKey(jobs[n]) := Extract(jobs[n])] else before
  {
    hide ByKey;
    var n := |jobs| - 1;
    if HasKey(jobs[n]) {
      ByKeySnoc(PreparedRows(jobs[..n]), Extract(jobs[n]));
    } else {
      assert PreparedRows(jobs[..n]) + [] == PreparedRows(jobs[..n]);
    }
  }

  lemma {:induction false} LastWithIsQueued(jobs: seq<Job>, i: nat, k: Key)
    requires LastWith(jobs, i, k)
    ensures k in ByKey(PreparedRows(jobs)) && ByKey(PreparedRows(jobs))[k] == Extract(jobs[i])
  {
    hide ByKey, PreparedRows, Extract, JobKey, HasKey;
    PreparedNext(jobs);
    if i < |jobs| - 1 {
      LastWithIsQueued(jobs[..|jobs| - 1], i, k);
    }
  }

  /** A record shows what a snapshot reports of its job: its status, its user, the times it gives, and the record's
      own first sighting, insert-only columns and other usage. */
  ghost predicate ShowsJob(stored: Option<Record>, job: Job, after: Record, now: int) {
    && after.status == job.status && after.lastSeen == now
    && after.userId == (if GivesText(job.userName) then job.userName else None)
    && after.firstSeen == (if stored.Some? then stored.value.firstSeen else now)
    && after.identity == (if stored.Some? then stored.value.identity else job.identity)
    && forall c :: CellOf(after.usage, c) ==
                   if JobCell(job, c).Some? then JobCell(job, c)
                   else if stored.Some? then CellOf(stored.value.usage, c) else None
  }

  lemma JobWritten(stored: Option<Record>, job: Job, now: int)
    requires HasKey(job)
    ensures ShowsJob(stored, job, Upserted(stored, Settled(Extract(job)), now), now)
  {
    var row := Settled(Extract(job));
    assert forall c :: Reported(row, c) == JobCell(job, c);
    if stored.Some? {
      UpsertedLatest(stored.value, row, now);
    } else {
      UpsertedFirst(row, now);
    }
    hide Upserted, Reported, CellOf, JobCell;
  }

  /** After a cycle whose writes all succeed, the record of a live job no other job's answer is about shows what the
      snapshot reported last. */
  lemma LiveJobShown(db: Table, pending: map<Key, Row>, jobs: seq<Job>, order: seq<Key>, answers: Answers,
                     observedAt: int, now: int, i: nat, k: Key)
    requires CycleReady(db, pending, order) && LastWith(jobs, i, k)
    requires OnlyOwn(k, order, PreparedRows(jobs), answers)
    ensures var after := CycleTable(db, pending, PreparedRows(jobs), order, answers, observedAt, now);
            k in after && ShowsJob(Lookup(db, k), jobs[i], after[k], now)
  {
    hide CycleTable, Upserted, Settled, OnlyOwn, ShowsJob, ByKey, PreparedRows, WellStored, ListsActive, Extract,
      Gone, Told, Unknown, InSnapshot, IsActive, ShowsDetail;
    LastWithIsQueued(jobs, i, k);
    ByKeyIsInSnapshot(PreparedRows(jobs), k);
    CycleAccounts(db, pending, PreparedRows(jobs), order, answers, observedAt, now, k);
    JobWritten(Lookup(db, k), jobs[i], now);
  }

  /** A snapshot row or a reconciled row gets its user id whatever rows share its chunk. */
  lemma QueuedRowsKeepIdentity(jobs: seq<Job>, row: Row, k: Key, r: Record, answers: Answers, observedAt: int,
                               mates: seq<Row>)
    requires Stored(r) && (row in PreparedRows(jobs) || ReconcileRow(k, r, answers, observedAt) == Some(row))
    ensures Identified(row, SomeNamed(mates + [row])) == Identified(row, SomeNamed([row]))
  {
    assert Consistent(row);
    IdentityIndependentOfChunk(row);
    hide PreparedRows, ReconcileRow, Identified, SomeNamed;
  }
}
