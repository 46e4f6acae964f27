/** Rebuilding the daily statistics table for a scope of days and users. */
module Rebuild {
  import opened Common
  import opened DailyStats

  const DAY: int := 86400

  /** A completed job of the history, submission time in seconds. */
  datatype Job = Job(submit: int, userId: string, tool: string, memory: Option<real>, cpu: Option<real>,
                     runtime: Option<real>)

  function DateOf(job: Job): int {
    job.submit / DAY
  }

  function RowOf(job: Job, date: int): JobRow {
    JobRow(Some(date), Some(job.userId), job.tool, job.memory, job.cpu, job.runtime)
  }

  /** The user filters of a scope, by name and by id; an id stands for the name it belongs to. */
  datatype Who = Who(name: Option<string>, id: Option<string>)

  const EVERYONE := Who(None, None)

  /** Which users a rebuild covers. */
  predicate Covers(user: Who, userId: string) {
    (user.name.Some? ==> user.name.value == userId) && (user.id.Some? ==> user.id.value == userId)
  }

  /** A scope without filters covers everyone, one filter exactly the user it names, two what both name. */
  lemma CoversIs(name: string, id: string, userId: string)
    ensures Covers(EVERYONE, userId)
    ensures Covers(Who(Some(name), None), userId) <==> userId == name
    ensures Covers(Who(None, Some(id)), userId) <==> userId == id
    ensures Covers(Who(Some(name), Some(id)), userId) <==> userId == name == id
  {
  }

  /** The jobs a query for one day returns, as rows of that day. */
  function DayRows(jobs: seq<Job>, date: int, user: Who): seq<JobRow> {
    if jobs == [] then []
    else
      var job := jobs[|jobs| - 1];
      DayRows(jobs[..|jobs| - 1], date, user)
      + if date * DAY <= job.submit < (date + 1) * DAY && Covers(user, job.userId) then [RowOf(job, date)] else []
  }

  /** The day queries of a range, one after the other. */
  function RangeRows(jobs: seq<Job>, first: int, last: int, user: Who): seq<JobRow>
    decreases last - first
  {
    if first > last then [] else RangeRows(jobs, first, last - 1, user) + DayRows(jobs, last, user)
  }

  /** Every job under its own day. */
  function AllRows(jobs: seq<Job>): seq<JobRow> {
    if jobs == [] then [] else AllRows(jobs[..|jobs| - 1]) + [RowOf(jobs[|jobs| - 1], DateOf(jobs[|jobs| - 1]))]
  }

  /** Every job is one row, under the day of its submission, with its own user, tool and figures. */
  lemma {:induction false} AllRowsAre(jobs: seq<Job>, i: nat)
    requires i < |jobs|
    ensures |AllRows(jobs)| == |jobs|
    ensures var job := jobs[i];
            AllRows(jobs)[i] ==
            JobRow(Some(job.submit / 86400), Some(job.userId), job.tool, job.memory, job.cpu, job.runtime)
  {
    var n := |jobs| - 1;
    if i < n {
      AllRowsAre(jobs[..n], i);
    } else if n > 0 {
      AllRowsAre(jobs[..n], 0);
    }
  }

  predicate InScope(k: StatKey, first: int, last: int, user: Who) {
    first <= k.date <= last && Covers(user, k.userId)
  }

  lemma DayOfSubmit(submit: int, date: int)
    ensures date * DAY <= submit < (date + 1) * DAY <==> submit / DAY == date
  {
  }

  lemma BucketSnoc(rows: seq<JobRow>, row: JobRow, k: StatKey)
    ensures BucketOf(rows + [row], k) ==
            if KeyOf(row) == Some(k) then AddRow(BucketOf(rows, k), row) else BucketOf(rows, k)
  {
    assert (rows + [row])[..|rows|] == rows;
  }

  /** A day's rows add up to exactly the buckets of that day and those users. */
  lemma {:induction false} DayBuckets(jobs: seq<Job>, date: int, user: Who, k: StatKey)
    ensures BucketOf(DayRows(jobs, date, user), k) ==
            if InScope(k, date, date, user) then BucketOf(AllRows(jobs), k) else EMPTY
  {
    hide BucketOf, AddRow;
    if jobs != [] {
      var n := |jobs| - 1;
      var job := jobs[n];
      DayBuckets(jobs[..n], date, user, k);
      DayOfSubmit(job.submit, date);
      BucketSnoc(AllRows(jobs[..n]), RowOf(job, DateOf(job)), k);
      BucketSnoc(DayRows(jobs[..n], date, user), RowOf(job, date), k);
      assert DayRows(jobs[..n], date, user) + [] == DayRows(jobs[..n], date, user);
    } else {
      NoBucket(k);
    }
  }

  lemma NoBucket(k: StatKey)
    ensures BucketOf([], k) == EMPTY
  {
  }

  lemma {:induction false} BucketOfConcat(a: seq<JobRow>, b: seq<JobRow>, k: StatKey)
    ensures (forall i | 0 <= i < |b| :: KeyOf(b[i]) != Some(k)) ==> BucketOf(a + b, k) == BucketOf(a, k)
    ensures (forall i | 0 <= i < |a| :: KeyOf(a[i]) != Some(k)) ==> BucketOf(a + b, k) == BucketOf(b, k)
  {
    if b == [] {
      assert a + b == a;
      NoRowNoBucket(a, k);
    } else {
      var front, row := b[..|b| - 1], b[|b| - 1];
      BucketOfConcat(a, front, k);
      assert b == front + [row];
      assert a + b == (a + front) + [row];
      BucketSnoc(a + front, row, k);
      BucketSnoc(front, row, k);
      hide BucketOf, AddRow, KeyOf;
      assert forall i | 0 <= i < |front| :: b[i] == front[i];
    }
  }

  lemma {:induction false} NoRowNoBucket(a: seq<JobRow>, k: StatKey)
    ensures (forall i | 0 <= i < |a| :: KeyOf(a[i]) != Some(k)) ==> BucketOf(a, k) == EMPTY
  {
    if a != [] {
      NoRowNoBucket(a[..|a| - 1], k);
      assert forall i | 0 <= i < |a| - 1 :: a[..|a| - 1][i] == a[i];
    }
  }

  lemma {:induction false} DayRowsDated(jobs: seq<Job>, date: int, user: Who)
    ensures forall i | 0 <= i < |DayRows(jobs, date, user)| :: DayRows(jobs, date, user)[i].date == Some(date)
  {
    if jobs != [] {
      DayRowsDated(jobs[..|jobs| - 1], date, user);
    }
  }

  lemma {:induction false} RangeRowsDated(jobs: seq<Job>, first: int, last: int, user: Who)
    ensures forall i | 0 <= i < |RangeRows(jobs, first, last, user)| ::
              var d := RangeRows(jobs, first, last, user)[i].date; d.Some? && first <= d.value <= last
    decreases last - first
  {
    if first <= last {
      RangeRowsDated(jobs, first, last - 1, user);
      DayRowsDated(jobs, last, user);
    }
  }

  /** A range aggregated at once has exactly the full buckets of its scope. */
  lemma {:induction false} RangeBuckets(jobs: seq<Job>, first: int, last: int, user: Who, k: StatKey)
    ensures BucketOf(RangeRows(jobs, first, last, user), k) ==
            if InScope(k, first, last, user) then BucketOf(AllRows(jobs), k) else EMPTY
    decreases last - first
  {
    if first <= last {
      var a, b := RangeRows(jobs, first, last - 1, user), DayRows(jobs, last, user);
      RangeBuckets(jobs, first, last - 1, user, k);
      DayBuckets(jobs, last, user, k);
      RangeRowsDated(jobs, first, last - 1, user);
      DayRowsDated(jobs, last, user);
      BucketOfConcat(a, b, k);
    }
  }

  function Restrict(t: Table, first: int, last: int, user: Who): Table {
    map k | k in t && InScope(k, first, last, user) :: t[k]
  }

  function Outside(t: Table, first: int, last: int, user: Who): Table {
    map k | k in t && !InScope(k, first, last, user) :: t[k]
  }

  /** Aggregating one day, or a whole range, gives the full aggregation cut to that scope. */
  lemma RangeTable(jobs: seq<Job>, first: int, last: int, user: Who)
    ensures TableOf(RangeRows(jobs, first, last, user)) == Restrict(TableOf(AllRows(jobs)), first, last, user)
  {
    var rows, all := RangeRows(jobs, first, last, user), AllRows(jobs);
    forall k
      ensures BucketOf(rows, k) == if InScope(k, first, last, user) then BucketOf(all, k) else EMPTY
      ensures k in CountedKeys(rows) <==> k in CountedKeys(all) && InScope(k, first, last, user)
    {
      RangeBuckets(jobs, first, last, user, k);
      BucketCounts(rows, k);
      BucketCounts(all, k);
    }
    hide BucketOf, CountedKeys, RangeRows, AllRows, DailyOf;
  }

  lemma DayTable(jobs: seq<Job>, date: int, user: Who)
    ensures TableOf(DayRows(jobs, date, user)) == Restrict(TableOf(AllRows(jobs)), date, date, user)
  {
    RangeTable(jobs, date, date, user);
    assert RangeRows(jobs, date, date, user) == DayRows(jobs, date, user);
  }

  // ---------- The table and its rebuild ----------

  lemma FreshKey(payload: seq<Item>, i: nat)
    requires DistinctItems(payload) && i < |payload|
    ensures payload[i].key !in ItemMap(payload[..i])
  {
  }

  class StatsStore {
    var table: Table

    constructor (t: Table)
      ensures table == t
    {
      table := t;
    }

    /** DELETE in the scope, then INSERT the payload; the number of ON CONFLICT updates is returned. */
    method ReplaceScope(first: int, last: int, user: Who, payload: seq<Item>) returns (conflicts: int)
      requires DistinctItems(payload)
      requires forall i | 0 <= i < |payload| :: InScope(payload[i].key, first, last, user)
      modifies this
      ensures table == Outside(old(table), first, last, user) + ItemMap(payload)
      ensures conflicts == 0
    {
      hide ItemMap, InScope;
      ItemMapNone();
      table := map k | k in table && !InScope(k, first, last, user) :: table[k];
      ghost var kept := table;
      assert payload[..0] == [];
      conflicts := 0;
      for i := 0 to |payload|
        invariant conflicts == 0
        invariant table == kept + ItemMap(payload[..i])
      {
        var item := payload[i];
        FreshKey(payload, i);
        assert payload[..i + 1] == payload[..i] + [item];
        ItemMapSnoc(payload[..i], item);
        MapAddAssoc(kept, ItemMap(payload[..i]), item);
        if item.key in table {
          conflicts := conflicts + 1;
        }
        table := table[item.key := item.daily];
      }
      assert payload[..|payload|] == payload;
    }

    /** The day-by-day rebuild of a scope: inside it the table becomes the full aggregation, outside it
        nothing changes, and no insert meets an existing row. */
    method RebuildScope(jobs: seq<Job>, first: int, last: int, user: Who) returns (conflicts: int)
      modifies this
      ensures table == Outside(old(table), first, last, user) + Restrict(TableOf(AllRows(jobs)), first, last, user)
      ensures conflicts == 0
    {
      hide TableOf, ItemMap, DayRows, AllRows;
      ghost var full := TableOf(AllRows(jobs));
      var payload: seq<Item> := [];
      var cursor := first;
      ItemMapNone();
      assert Restrict(full, first, first - 1, user) == map[];
      while cursor <= last
        invariant cursor <= last + 1 || cursor == first
        invariant first <= cursor
        invariant table == old(table)
        invariant DistinctItems(payload)
        invariant forall i | 0 <= i < |payload| :: InScope(payload[i].key, first, cursor - 1, user)
        invariant ItemMap(payload) == Restrict(full, first, cursor - 1, user)
        decreases last - cursor
      {
        var rows := DayRows(jobs, cursor, user);
        var dayPayload, dayStats := AggregateDailyRows(rows);
        DayTable(jobs, cursor, user);
        NextDay(payload, dayPayload, full, first, cursor, user);
        payload := payload + dayPayload;
        cursor := cursor + 1;
      }
      EmptyTail(payload, full, first, cursor, last, user);
      conflicts := ReplaceScope(first, last, user, payload);
    }
  }

  lemma ItemsInScope(items: seq<Item>, full: Table, first: int, last: int, user: Who)
    requires ItemMap(items) == Restrict(full, first, last, user)
    ensures forall i | 0 <= i < |items| :: InScope(items[i].key, first, last, user)
  {
    forall i | 0 <= i < |items| ensures InScope(items[i].key, first, last, user) {
      assert items[i].key in ItemMap(items);
    }
  }

  lemma RestrictNextDay(full: Table, first: int, date: int, user: Who)
    requires first <= date
    ensures Restrict(full, first, date - 1, user) + Restrict(full, date, date, user) ==
            Restrict(full, first, date, user)
  {
  }

  lemma NextDay(payload: seq<Item>, day: seq<Item>, full: Table, first: int, date: int, user: Who)
    requires first <= date && DistinctItems(payload) && DistinctItems(day)
    requires ItemMap(payload) == Restrict(full, first, date - 1, user)
    requires ItemMap(day) == Restrict(full, date, date, user)
    ensures DistinctItems(payload + day)
    ensures ItemMap(payload + day) == Restrict(full, first, date, user)
    ensures forall i | 0 <= i < |payload + day| :: InScope((payload + day)[i].key, first, date, user)
  {
    ItemsInScope(payload, full, first, date - 1, user);
    ItemsInScope(day, full, date, date, user);
    ItemMapConcat(payload, day);
    RestrictNextDay(full, first, date, user);
    hide ItemMap, Restrict;
    var all := payload + day;
    forall i, j | 0 <= i < j < |all| ensures all[i].key != all[j].key {
      assert i < |payload| <= j ==> payload[i].key.date <= date - 1 && day[j - |payload|].key.date == date;
    }
  }

  lemma EmptyTail(payload: seq<Item>, full: Table, first: int, cursor: int, last: int, user: Who)
    requires cursor > last && first <= cursor && (cursor <= last + 1 || cursor == first)
    requires ItemMap(payload) == Restrict(full, first, cursor - 1, user)
    ensures ItemMap(payload) == Restrict(full, first, last, user)
    ensures forall i | 0 <= i < |payload| :: InScope(payload[i].key, first, last, user)
  {
    assert Restrict(full, first, last, user) == Restrict(full, first, cursor - 1, user);
    ItemsInScope(payload, full, first, last, user);
  }

  /** Over the whole history's days and all users, a scoped rebuild is the full rebuild. */
  lemma {:induction false} WholeHistoryIsFull(jobs: seq<Job>, first: int, last: int)
    requires forall i | 0 <= i < |jobs| :: first <= DateOf(jobs[i]) <= last
    ensures Restrict(TableOf(AllRows(jobs)), first, last, EVERYONE) == TableOf(AllRows(jobs))
  {
    var rows := AllRows(jobs);
    AllRowsDates(jobs);
    forall k | k in CountedKeys(rows) ensures InScope(k, first, last, EVERYONE) {
      var i :| 0 <= i < |rows| && Counts(rows[i]) && KeyOf(rows[i]).value == k;
      assert rows[i].date == Some(DateOf(jobs[i]));
    }
  }

  lemma {:induction false} AllRowsDates(jobs: seq<Job>)
    ensures |AllRows(jobs)| == |jobs|
    ensures forall i | 0 <= i < |jobs| :: AllRows(jobs)[i].date == Some(DateOf(jobs[i]))
  {
    if jobs != [] {
      AllRowsDates(jobs[..|jobs| - 1]);
    }
  }

  /** Rebuilding a scope twice, or a scope inside a rebuilt one, changes nothing more. */
  lemma RebuildIsIdempotent(t: Table, jobs: seq<Job>, first: int, last: int, user: Who,
                            first': int, last': int, user': Who)
    requires forall k | InScope(k, first', last', user') :: InScope(k, first, last, user)
    ensures var full := TableOf(AllRows(jobs));
            var once := Outside(t, first, last, user) + Restrict(full, first, last, user);
            Outside(once, first', last', user') + Restrict(full, first', last', user') == once
  {
    hide TableOf, AllRows, InScope;
  }
}
