/** Filling the null usage columns of finished jobs from detail lookups. */
module JobsBackfill {
  import opened Common
  import opened JobRecords
  import opened JobsReconcile

  /** The columns of a snapshot the backfill looks at. */
  datatype Snapshot = Snapshot(jobId: int, submitTime: int, jobState: Option<string>, userId: Option<UserId>,
                               usedMemoryGb: Option<real>, usedCpuCoresAvg: Option<real>)

  datatype Scope = Scope(start: Option<int>, end: Option<int>, username: Option<string>,
                         userId: Option<UserId>, jobId: Option<int>, missingOnly: bool)

  function Upper(s: string): string {
    seq(|s|, i requires 0 <= i < |s| => if 'a' <= s[i] <= 'z' then 'A' + (s[i] - 'a') else s[i])
  }

  /** A letter becomes the capital 32 code points before it, anything else stays. */
  lemma UpperIs(s: string, i: nat)
    requires i < |s|
    ensures |Upper(s)| == |s|
    ensures Upper(s)[i] as int == s[i] as int - if 97 <= s[i] as int <= 122 then 32 else 0
  {
  }

  predicate MissesUsage(v: Snapshot) {
    v.usedMemoryGb.None? || v.usedCpuCoresAvg.None?
  }

  /** The filters of usage_backfill_rows_query. */
  predicate Candidate(v: Snapshot, scope: Scope) {
    && v.jobState.Some? && (Like(Upper(v.jobState.value), "COMPLETED") || Like(Upper(v.jobState.value), "FAILED"))
    && (scope.missingOnly ==> MissesUsage(v))
    && (scope.start.Some? ==> v.submitTime >= scope.start.value)
    && (scope.end.Some? ==> v.submitTime < scope.end.value)
    && (scope.username.Some? && scope.username.value != "" ==> v.userId == scope.username)
    && (scope.userId.Some? ==> v.userId == scope.userId)
    && (scope.jobId.Some? ==> v.jobId == scope.jobId.value)
  }

  datatype Decision = Skip | Update(newMemory: Option<real>, newCpu: Option<real>)

  /** _apply_usage_detail, after the lookup. */
  function Decide(v: Snapshot, answer: Answer): Decision {
    match answer
    case NotFound => Skip
    case Unreachable => Skip
    case Found(d) =>
      var jobId := GetField(d.jobId, Some(v.jobId));
      if jobId.None? || jobId.value == 0 then Skip
      else if Coalesce(d.submitTime, Some(v.submitTime)) != Some(v.submitTime) then Skip
      else
        var newMemory, newCpu := RoundMetric(d.usedMemoryGb), RoundMetric(d.usedCpuCoresAvg);
        if (v.usedMemoryGb.None? && newMemory.Some?) || (v.usedCpuCoresAvg.None? && newCpu.Some?)
        then Update(newMemory, newCpu) else Skip
  }

  /** The snapshot after a real run. */
  function Filled(v: Snapshot, answer: Answer): Snapshot {
    match Decide(v, answer)
    case Skip => v
    case Update(m, c) => v.(usedMemoryGb := Coalesce(v.usedMemoryGb, m),
                            usedCpuCoresAvg := Coalesce(v.usedCpuCoresAvg, c))
  }

  /** Where a filled snapshot's usage comes from: a value it has stays; a missing one is the detail's, in whole
      hundredths, when the answer describes a job of the same submission and gives one. */
  lemma FillTakesDetail(v: Snapshot, answer: Answer)
    ensures var w, told := Filled(v, answer), Told(Key(v.jobId, v.submitTime), answer);
            && w.usedMemoryGb == (if v.usedMemoryGb.Some? || !told || answer.detail.usedMemoryGb.None?
                                  then v.usedMemoryGb
                                  else Some(Round2(answer.detail.usedMemoryGb.value)))
            && w.usedCpuCoresAvg == (if v.usedCpuCoresAvg.Some? || !told || answer.detail.usedCpuCoresAvg.None?
                                     then v.usedCpuCoresAvg
                                     else Some(Round2(answer.detail.usedCpuCoresAvg.value)))
  {
    hide Round2;
  }

  /** Two adjoining windows see each snapshot once: what either finds is what the joint window finds. */
  lemma WindowsSplit(v: Snapshot, scope: Scope, mid: int)
    requires scope.start.Some? ==> scope.start.value <= mid
    requires scope.end.Some? ==> mid <= scope.end.value
    ensures var first, second := Candidate(v, scope.(end := Some(mid))), Candidate(v, scope.(start := Some(mid)));
            (Candidate(v, scope) <==> first || second) && !(first && second)
  {
    hide Like, Upper;
  }

  /** What a scope asks for: a finished job, within its window, and of its user and number where it names them; and,
      when only missing usage is wanted, a snapshot that misses some. */
  lemma CandidateIs(v: Snapshot, scope: Scope)
    ensures Candidate(v, Scope(None, None, None, None, None, false)) <==>
            v.jobState.Some? && (Like(Upper(v.jobState.value), "COMPLETED") || Like(Upper(v.jobState.value), "FAILED"))
    ensures Candidate(v, scope) ==>
            && Candidate(v, Scope(None, None, None, None, None, false))
            && (scope.missingOnly ==> !(v.usedMemoryGb.Some? && v.usedCpuCoresAvg.Some?))
            && scope.jobId in {None, Some(v.jobId)} && scope.userId in {None, v.userId}
            && (scope.username in {None, Some(""), v.userId})
    ensures Candidate(v, Scope(None, None, None, None, None, false)) ==>
            && Candidate(v, Scope(Some(v.submitTime), Some(v.submitTime + 1), v.userId, v.userId, Some(v.jobId), false))
            && (v.usedMemoryGb.None? || v.usedCpuCoresAvg.None? ==>
                  Candidate(v, Scope(None, None, Some(""), None, None, true)))
  {
    hide Like, Upper;
  }

  /** Some null column becomes non-null. */
  predicate Gains(before: Snapshot, after: Snapshot) {
    || (before.usedMemoryGb.None? && after.usedMemoryGb.Some?)
    || (before.usedCpuCoresAvg.None? && after.usedCpuCoresAvg.Some?)
  }

  /** A fill never changes a value, gains exactly when it decides to update, and gains nothing twice. */
  lemma FillOnce(v: Snapshot, answer: Answer)
    ensures var w := Filled(v, answer);
            && (v.usedMemoryGb.Some? ==> w.usedMemoryGb == v.usedMemoryGb)
            && (v.usedCpuCoresAvg.Some? ==> w.usedCpuCoresAvg == v.usedCpuCoresAvg)
            && w == v.(usedMemoryGb := w.usedMemoryGb, usedCpuCoresAvg := w.usedCpuCoresAvg)
            && (Decide(v, answer).Update? <==> Gains(v, w))
            && Decide(w, answer) == Skip
  {
  }

  /** How many of these snapshots an unlimited pass of fills would gain something for. */
  function Gaining(vs: seq<Snapshot>, answers: Answers): nat {
    if vs == [] then 0
    else
      var n := |vs| - 1;
      var v := vs[n];
      Gaining(vs[..n], answers) + if Gains(v, Filled(v, answers(Key(v.jobId, v.submitTime)))) then 1 else 0
  }

  lemma {:induction false} NoneGaining(vs: seq<Snapshot>, answers: Answers)
    requires forall i | 0 <= i < |vs| :: Decide(vs[i], answers(Key(vs[i].jobId, vs[i].submitTime))) == Skip
    ensures Gaining(vs, answers) == 0
  {
    if vs != [] {
      NoneGaining(vs[..|vs| - 1], answers);
    }
  }

  // ---------- The records as objects ----------

  class JobSnapshot {
    const jobId: int
    const submitTime: int
    const jobState: Option<string>
    const userId: Option<UserId>
    var usedMemoryGb: Option<real>
    var usedCpuCoresAvg: Option<real>

    function Value(): Snapshot
      reads this
    {
      Snapshot(jobId, submitTime, jobState, userId, usedMemoryGb, usedCpuCoresAvg)
    }

    constructor (v: Snapshot)
      ensures Value() == v
    {
      jobId, submitTime, jobState, userId := v.jobId, v.submitTime, v.jobState, v.userId;
      usedMemoryGb, usedCpuCoresAvg := v.usedMemoryGb, v.usedCpuCoresAvg;
    }
  }

  function Values(rows: seq<JobSnapshot>): (vs: seq<Snapshot>)
    reads rows
    ensures |vs| == |rows| && forall i | 0 <= i < |rows| :: vs[i] == rows[i].Value()
  {
    seq(|rows|, i requires 0 <= i < |rows| reads rows => rows[i].Value())
  }

  ghost predicate Distinct(rows: seq<JobSnapshot>) {
    forall i, j | 0 <= i < j < |rows| :: rows[i] != rows[j]
  }

  /** By submit time, then job id. */
  ghost predicate Ordered(rows: seq<JobSnapshot>) {
    forall i, j | 0 <= i < j < |rows| ::
      rows[i].submitTime < rows[j].submitTime
        || (rows[i].submitTime == rows[j].submitTime && rows[i].jobId <= rows[j].jobId)
  }

  predicate NotLater(a: JobSnapshot, b: JobSnapshot) {
    a.submitTime < b.submitTime || (a.submitTime == b.submitTime && a.jobId <= b.jobId)
  }

  /** The first of some records, in the query's order. */
  lemma {:induction false} FirstExists(records: set<JobSnapshot>)
    requires records != {}
    ensures exists o | o in records :: forall x | x in records :: NotLater(o, x)
    decreases records
  {
    var a :| a in records;
    if records == {a} {
      assert forall x | x in records :: NotLater(a, x);
    } else {
      FirstExists(records - {a});
      var b :| b in records - {a} && forall x | x in records - {a} :: NotLater(b, x);
      var o := if NotLater(a, b) then a else b;
      forall x | x in records ensures NotLater(o, x) {
        assert x == a || x in records - {a};
      }
    }
  }

  /** The query: the first candidates in order, all of them unless the limit is smaller. */
  method Query(table: set<JobSnapshot>, scope: Scope, limit: Option<nat>) returns (rows: seq<JobSnapshot>)
    ensures Distinct(rows) && Ordered(rows)
    ensures forall o | o in rows :: o in table && Candidate(o.Value(), scope)
    ensures limit.Some? ==> |rows| <= limit.value
    ensures (limit.Some? ==> |rows| < limit.value) ==> forall o | o in table && Candidate(o.Value(), scope) :: o in rows
    ensures forall o, x | o in rows && x in table && x !in rows && Candidate(x.Value(), scope) :: NotLater(o, x)
  {
    hide Candidate;
    rows := [];
    var left := set o | o in table && Candidate(o.Value(), scope);
    while left != {} && (limit.None? || |rows| < limit.value)
      invariant Distinct(rows) && Ordered(rows)
      invariant forall o | o in left :: o in table && Candidate(o.Value(), scope) && o !in rows
      invariant forall o | o in rows :: o in table && Candidate(o.Value(), scope)
      invariant forall o | o in table && Candidate(o.Value(), scope) :: o in rows || o in left
      invariant forall o, x | o in rows && x in left :: NotLater(o, x)
      invariant limit.Some? ==> |rows| <= limit.value
      decreases |left|
    {
      FirstExists(left);
      var o :| o in left && forall x | x in left :: NotLater(o, x);
      assert forall i | 0 <= i < |rows| :: rows[i] in rows;
      rows := rows + [o];
      left := left - {o};
    }
  }

  /** backfill_usage_fields over the rows of the query. */
  method BackfillUsageFields(rows: seq<JobSnapshot>, answers: Answers, dryRun: bool)
    returns (scanned: nat, updated: nat, skipped: nat)
    requires Distinct(rows)
    modifies rows
    ensures scanned == |rows| && scanned == updated + skipped
    ensures updated == Gaining(old(Values(rows)), answers)
    ensures forall i | 0 <= i < |rows| ::
              rows[i].Value() == if dryRun then old(rows[i].Value())
                                 else Filled(old(rows[i].Value()), answers(Key(rows[i].jobId, rows[i].submitTime)))
  {
    hide Decide, Gains, RoundMetric;
    scanned, updated, skipped := 0, 0, 0;
    ghost var before := Values(rows);
    for i := 0 to |rows|
      invariant scanned == i && scanned == updated + skipped
      invariant updated == Gaining(before[..i], answers)
      invariant forall j | i <= j < |rows| :: rows[j].Value() == before[j]
      invariant forall j | 0 <= j < i ::
          rows[j].Value() ==
          if dryRun then before[j] else Filled(before[j], answers(Key(rows[j].jobId, rows[j].submitTime)))
    {
      var snapshot := rows[i];
      assert before[..i + 1][..i] == before[..i];
      FillOnce(before[i], answers(Key(snapshot.jobId, snapshot.submitTime)));
      scanned := scanned + 1;
      match Decide(snapshot.Value(), answers(Key(snapshot.jobId, snapshot.submitTime))) {
        case Skip =>
          skipped := skipped + 1;
        case Update(newMemory, newCpu) =>
          if !dryRun {
            if snapshot.usedMemoryGb.None? {
              snapshot.usedMemoryGb := newMemory;
            }
            if snapshot.usedCpuCoresAvg.None? {
              snapshot.usedCpuCoresAvg := newCpu;
            }
          }
          updated := updated + 1;
      }
    }
    assert before[..|rows|] == before;
  }

  /** A second unlimited run with the same answers finds nothing left to fill. */
  method BackfillTwice(table: set<JobSnapshot>, scope: Scope, answers: Answers) returns (first: nat, second: nat)
    modifies table
    ensures second == 0
  {
    var rows := Query(table, scope, None);
    ghost var before := map o | o in table :: o.Value();
    assert forall i | 0 <= i < |rows| :: rows[i] in table by {
      forall i | 0 <= i < |rows| ensures rows[i] in table { assert rows[i] in rows; }
    }
    var s1, u1, k1 := BackfillUsageFields(rows, answers, false);
    var again := Query(table, scope, None);
    assert forall i | 0 <= i < |again| :: again[i] in table by {
      forall i | 0 <= i < |again| ensures again[i] in table { assert again[i] in again; }
    }
    forall i | 0 <= i < |again|
      ensures Decide(Values(again)[i], answers(Key(again[i].jobId, again[i].submitTime))) == Skip
    {
      var o := again[i];
      assert o in again;
      var j :| 0 <= j < |rows| && rows[j] == o;
      FillOnce(before[o], answers(Key(o.jobId, o.submitTime)));
    }
    NoneGaining(Values(again), answers);
    var s2, u2, k2 := BackfillUsageFields(again, answers, false);
    first, second := u1, u2;
  }
}
