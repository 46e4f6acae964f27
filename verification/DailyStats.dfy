/** Per-day, per-user, per-tool statistics of completed jobs. */
module DailyStats {
  import opened Common
  import opened Sorting

  /** A completed job row, its tool already classified and its metrics already parsed. */
  datatype JobRow = JobRow(date: Option<int>, userId: Option<string>, tool: string, memory: Option<real>,
                           cpu: Option<real>, runtime: Option<real>)

  datatype StatKey = StatKey(date: int, userId: string, tool: string)

  datatype Bucket = Bucket(jobs: nat, memoryTotal: real, memoryValues: seq<real>, cpuTotal: real, runtimeTotal: real)

  const EMPTY := Bucket(0, 0.0, [], 0.0, 0.0)

  /** A stored daily row, without its timestamps. */
  datatype Daily = Daily(jobs: nat, avgMemory: Option<real>, maxMemory: Option<real>, medianMemory: Option<real>,
                         avgCpu: Option<real>, avgRuntime: Option<real>)

  datatype Stats = Stats(seen: nat, missingIdentity: nat, skippedMemory: nat, counted: nat, cpuMissing: nat,
                         runtimeMissing: nat)

  function Positive(x: Option<real>): (r: Option<real>)
    ensures r.Some? <==> x.Some? && x.value > 0.0
  {
    if x.Some? && x.value > 0.0 then x else None
  }

  /** The bucket of a row, if it names a day and a user. */
  function KeyOf(row: JobRow): Option<StatKey> {
    if row.date.Some? && row.userId.Some? then Some(StatKey(row.date.value, row.userId.value, row.tool)) else None
  }

  /** A row counts when it has a bucket and a memory value. */
  predicate Counts(row: JobRow) {
    KeyOf(row).Some? && row.memory.Some?
  }

  function Zero(x: Option<real>): real {
    if x.Some? then x.value else 0.0
  }

  function AddRow(b: Bucket, row: JobRow): Bucket {
    if row.memory.None? then b
    else
      Bucket(b.jobs + 1, b.memoryTotal + row.memory.value, b.memoryValues + [row.memory.value],
             b.cpuTotal + Zero(Positive(row.cpu)), b.runtimeTotal + Zero(Positive(row.runtime)))
  }

  /** What the rows of one key add up to. */
  function BucketOf(rows: seq<JobRow>, k: StatKey): Bucket {
    if rows == [] then EMPTY
    else
      var row := rows[|rows| - 1];
      var b := BucketOf(rows[..|rows| - 1], k);
      if KeyOf(row) == Some(k) then AddRow(b, row) else b
  }

  function Avg(total: real, samples: nat): Option<real> {
    if samples == 0 then None else Some(total / samples as real)
  }

  function MaxOf(xs: seq<real>): (m: real)
    requires xs != []
    ensures m in xs
    ensures forall x | x in xs :: x <= m
  {
    if |xs| == 1 then xs[0]
    else
      var m := MaxOf(xs[..|xs| - 1]);
      assert forall x | x in xs :: x in xs[..|xs| - 1] || x == xs[|xs| - 1];
      if xs[|xs| - 1] > m then xs[|xs| - 1] else m
  }

  predicate AtMost(a: real, b: real) { a <= b }

  function Median(xs: seq<real>): Option<real> {
    var s := StableSort(xs, AtMost);
    if s == [] then None
    else if |s| % 2 == 1 then Some(s[|s| / 2])
    else Some((s[|s| / 2 - 1] + s[|s| / 2]) / 2.0)
  }

  /** The median is the middle of the values in ascending order, or the mean of the two in the middle. */
  lemma MedianIsMiddle(xs: seq<real>)
    ensures xs == [] <==> Median(xs) == None
    ensures xs != [] ==> exists s: seq<real> ::
              && multiset(s) == multiset(xs) && (forall i, j | 0 <= i < j < |s| :: s[i] <= s[j])
              && Median(xs) == Some((s[(|s| - 1) / 2] + s[|s| / 2]) / 2.0)
  {
    hide StableSort;
    var s := StableSort(xs, AtMost);
    assert TotalPreorder(AtMost);
    StableSortOrdered(xs, AtMost);
    assert |s| == |multiset(s)| == |multiset(xs)| == |xs|;
    assert forall i, j | 0 <= i < j < |s| :: AtMost(s[i], s[j]);
  }

  /** _daily_payload_from_bucket */
  function DailyOf(b: Bucket): Daily {
    Daily(b.jobs,
          RoundMetric(Avg(b.memoryTotal, |b.memoryValues|)),
          RoundMetric(if b.memoryValues != [] then Some(MaxOf(b.memoryValues)) else None),
          RoundMetric(Median(b.memoryValues)),
          RoundMetric(Avg(b.cpuTotal, b.jobs)),
          RoundMetric(Avg(b.runtimeTotal, b.jobs)))
  }

  /** The keys of the rows that count. */
  function CountedKeys(rows: seq<JobRow>): (ks: set<StatKey>)
  {
    set i | 0 <= i < |rows| && Counts(rows[i]) :: KeyOf(rows[i]).value
  }

  type Table = map<StatKey, Daily>

  /** The table a full aggregation of the rows gives. */
  function TableOf(rows: seq<JobRow>): Table {
    map k | k in CountedKeys(rows) :: DailyOf(BucketOf(rows, k))
  }

  lemma {:induction false} BucketCounts(rows: seq<JobRow>, k: StatKey)
    ensures BucketOf(rows, k).jobs > 0 <==> k in CountedKeys(rows)
    ensures |BucketOf(rows, k).memoryValues| == BucketOf(rows, k).jobs
  {
    if rows != [] {
      var n := |rows| - 1;
      BucketCounts(rows[..n], k);
      CountedKeysNext(rows);
    }
  }

  lemma CountedKeysNext(rows: seq<JobRow>)
    requires rows != []
    ensures var n := |rows| - 1;
            CountedKeys(rows) == CountedKeys(rows[..n]) + if Counts(rows[n]) then {KeyOf(rows[n]).value} else {}
  {
    var n := |rows| - 1;
    forall k | k in CountedKeys(rows)
      ensures k in CountedKeys(rows[..n]) + if Counts(rows[n]) then {KeyOf(rows[n]).value} else {} {
      var i :| 0 <= i < |rows| && Counts(rows[i]) && KeyOf(rows[i]).value == k;
      assert i < n ==> rows[..n][i] == rows[i];
    }
    forall k | k in CountedKeys(rows[..n]) ensures k in CountedKeys(rows) {
      var i :| 0 <= i < n && Counts(rows[..n][i]) && KeyOf(rows[..n][i]).value == k;
      assert rows[i] == rows[..n][i];
    }
  }

  // ---------- The aggregation loops ----------

  /** Every key with a bucket, each once. */
  ghost predicate ListsKeys(order: seq<StatKey>, keys: set<StatKey>) {
    && (forall i, j | 0 <= i < j < |order| :: order[i] != order[j])
    && (forall k :: k in order <==> k in keys)
  }

  datatype Item = Item(key: StatKey, daily: Daily)

  ghost predicate DistinctItems(items: seq<Item>) {
    forall i, j | 0 <= i < j < |items| :: items[i].key != items[j].key
  }

  function ItemMap(items: seq<Item>): (m: Table)
    ensures forall k :: k in m <==> exists i | 0 <= i < |items| :: items[i].key == k
  {
    if items == [] then map[]
    else
      var n := |items| - 1;
      var m := ItemMap(items[..n])[items[n].key := items[n].daily];
      assert forall i | 0 <= i < n :: items[..n][i] == items[i];
      m
  }

  lemma ItemMapSnoc(items: seq<Item>, item: Item)
    ensures ItemMap(items + [item]) == ItemMap(items)[item.key := item.daily]
  {
    assert (items + [item])[..|items|] == items;
  }

  lemma {:induction false} ItemMapConcat(a: seq<Item>, b: seq<Item>)
    ensures ItemMap(a + b) == ItemMap(a) + ItemMap(b)
  {
    hide ItemMap;
    if b == [] {
      assert a + b == a;
      ItemMapNone();
    } else {
      var front, x := b[..|b| - 1], b[|b| - 1];
      ItemMapConcat(a, front);
      assert b == front + [x];
      assert a + b == (a + front) + [x];
      ItemMapSnoc(front, x);
      ItemMapSnoc(a + front, x);
      MapAddAssoc(ItemMap(a), ItemMap(front), x);
    }
  }

  lemma MapAddAssoc(m: Table, n: Table, x: Item)
    ensures (m + n)[x.key := x.daily] == m + n[x.key := x.daily]
  {
  }

  lemma ItemMapNone()
    ensures ItemMap([]) == map[]
  {
  }

  /** The keys of all rows that name a day and a user, counted or not. */
  function NamedKeys(rows: seq<JobRow>): set<StatKey> {
    set i | 0 <= i < |rows| && KeyOf(rows[i]).Some? :: KeyOf(rows[i]).value
  }

  lemma NamedKeysNext(rows: seq<JobRow>, i: nat)
    requires i < |rows|
    ensures NamedKeys(rows[..i + 1]) ==
            NamedKeys(rows[..i]) + if KeyOf(rows[i]).Some? then {KeyOf(rows[i]).value} else {}
  {
    var a, b := rows[..i], rows[..i + 1];
    hide KeyOf;
    forall k | k in NamedKeys(b)
      ensures k in NamedKeys(a) + if KeyOf(rows[i]).Some? then {KeyOf(rows[i]).value} else {}
    {
      var j :| 0 <= j < |b| && KeyOf(b[j]).Some? && KeyOf(b[j]).value == k;
      assert j < i ==> a[j] == b[j];
    }
    forall k | k in NamedKeys(a) ensures k in NamedKeys(b) {
      var j :| 0 <= j < |a| && KeyOf(a[j]).Some? && KeyOf(a[j]).value == k;
      assert a[j] == b[j];
    }
    assert KeyOf(rows[i]).Some? ==> b[i] == rows[i];
  }

  lemma {:induction false} UnnamedBucketEmpty(rows: seq<JobRow>, k: StatKey)
    requires k !in NamedKeys(rows)
    ensures BucketOf(rows, k) == EMPTY
  {
    if rows != [] {
      var n := |rows| - 1;
      assert rows[..n + 1] == rows;
      NamedKeysNext(rows, n);
      UnnamedBucketEmpty(rows[..n], k);
    }
  }

  /** The buckets after the first i rows. */
  ghost predicate BucketsSoFar(buckets: map<StatKey, Bucket>, order: seq<StatKey>, rows: seq<JobRow>) {
    && buckets.Keys == NamedKeys(rows)
    && ListsKeys(order, NamedKeys(rows))
    && forall k | k in buckets :: buckets[k] == BucketOf(rows, k)
  }

  lemma NextBucket(buckets: map<StatKey, Bucket>, order: seq<StatKey>, rows: seq<JobRow>, i: nat)
    requires i < |rows| && BucketsSoFar(buckets, order, rows[..i])
    ensures KeyOf(rows[i]).None? ==> BucketsSoFar(buckets, order, rows[..i + 1])
    ensures KeyOf(rows[i]).Some? ==>
              var k := KeyOf(rows[i]).value;
              var b := if k in buckets then buckets[k] else EMPTY;
              BucketsSoFar(buckets[k := AddRow(b, rows[i])], if k in buckets then order else order + [k], rows[..i + 1])
  {
    NamedKeysNext(rows, i);
    assert rows[..i + 1][..i] == rows[..i];
    var ko := KeyOf(rows[i]);
    if ko.Some? && ko.value !in buckets {
      UnnamedBucketEmpty(rows[..i], ko.value);
    }
    forall k ensures BucketOf(rows[..i + 1], k) ==
                     if ko == Some(k) then AddRow(BucketOf(rows[..i], k), rows[i]) else BucketOf(rows[..i], k) {
    }
    hide BucketOf, AddRow, KeyOf, NamedKeys;
  }

  /** How many rows have a property. */
  function CountIf(rows: seq<JobRow>, p: JobRow -> bool): nat {
    if rows == [] then 0 else CountIf(rows[..|rows| - 1], p) + if p(rows[|rows| - 1]) then 1 else 0
  }

  lemma CountNone()
    ensures forall p: JobRow -> bool :: CountIf([], p) == 0
  {
  }

  lemma CountIfNext(rows: seq<JobRow>, i: nat, p: JobRow -> bool)
    requires i < |rows|
    ensures CountIf(rows[..i + 1], p) == CountIf(rows[..i], p) + if p(rows[i]) then 1 else 0
  {
    assert rows[..i + 1][..i] == rows[..i];
  }

  predicate NoIdentity(row: JobRow) {
    KeyOf(row).None?
  }

  predicate NoMemory(row: JobRow) {
    KeyOf(row).Some? && row.memory.None?
  }

  predicate NoCpu(row: JobRow) {
    Counts(row) && Positive(row.cpu).None?
  }

  predicate NoRuntime(row: JobRow) {
    Counts(row) && Positive(row.runtime).None?
  }

  /** What the counters count: a row lacks its day or user, or else its memory, or it counts; a counted row may lack a
      positive processor or runtime figure. */
  lemma CountersAre(row: JobRow)
    ensures NoIdentity(row) <==> row.date.None? || row.userId.None?
    ensures NoMemory(row) <==> row.date.Some? && row.userId.Some? && row.memory.None?
    ensures Counts(row) <==> row.date.Some? && row.userId.Some? && row.memory.Some?
    ensures NoCpu(row) <==> Counts(row) && !(row.cpu.Some? && row.cpu.value > 0.0)
    ensures NoRuntime(row) <==> Counts(row) && !(row.runtime.Some? && row.runtime.value > 0.0)
  {
  }

  method AggregateDailyRows(rows: seq<JobRow>) returns (payload: seq<Item>, stats: Stats)
    ensures DistinctItems(payload) && ItemMap(payload) == TableOf(rows)
    ensures stats.seen == |rows| == stats.missingIdentity + stats.skippedMemory + stats.counted
    ensures stats.missingIdentity == CountIf(rows, NoIdentity) && stats.skippedMemory == CountIf(rows, NoMemory)
    ensures stats.counted == CountIf(rows, Counts)
    ensures stats.cpuMissing == CountIf(rows, NoCpu) && stats.runtimeMissing == CountIf(rows, NoRuntime)
  {
    hide BucketOf, KeyOf, TableOf, NamedKeys, DailyOf, Positive, ItemMap, BucketsSoFar, CountIf, AddRow;
    var buckets: map<StatKey, Bucket> := map[];
    var order: seq<StatKey> := [];
    stats := Stats(0, 0, 0, 0, 0, 0);
    NoBuckets();
    CountNone();
    assert rows[..0] == [];
    for i := 0 to |rows|
      invariant BucketsSoFar(buckets, order, rows[..i])
      invariant stats.seen == i == stats.missingIdentity + stats.skippedMemory + stats.counted
      invariant stats.missingIdentity == CountIf(rows[..i], NoIdentity)
                && stats.skippedMemory == CountIf(rows[..i], NoMemory)
      invariant stats.counted == CountIf(rows[..i], Counts)
      invariant stats.cpuMissing == CountIf(rows[..i], NoCpu) && stats.runtimeMissing == CountIf(rows[..i], NoRuntime)
    {
      var row := rows[i];
      ghost var before := buckets;
      NextBucket(buckets, order, rows, i);
      CountIfNext(rows, i, NoIdentity);
      CountIfNext(rows, i, NoMemory);
      CountIfNext(rows, i, Counts);
      CountIfNext(rows, i, NoCpu);
      CountIfNext(rows, i, NoRuntime);
      stats := stats.(seen := stats.seen + 1);
      match KeyOf(row)
      case None =>
        stats := stats.(missingIdentity := stats.missingIdentity + 1);
      case Some(key) =>
        if key !in buckets {
          buckets := buckets[key := EMPTY];
          order := order + [key];
        }
        buckets := buckets[key := AddRow(buckets[key], row)];
        assert buckets == before[key := AddRow(if key in before then before[key] else EMPTY, row)];
        if row.memory.None? {
          stats := stats.(skippedMemory := stats.skippedMemory + 1);
        } else {
          stats := stats.(counted := stats.counted + 1,
                          cpuMissing := stats.cpuMissing + if Positive(row.cpu).Some? then 0 else 1,
                          runtimeMissing := stats.runtimeMissing + if Positive(row.runtime).Some? then 0 else 1);
        }
    }
    assert rows[..|rows|] == rows;
    payload := BuildPayload(buckets, order, rows);
  }

  lemma NoBuckets()
    ensures BucketsSoFar(map[], [], [])
  {
  }

  /** The daily rows of those of these keys that counted a job. */
  ghost function DailiesOf(keys: seq<StatKey>, rows: seq<JobRow>): Table {
    map k | k in keys && BucketOf(rows, k).jobs > 0 :: DailyOf(BucketOf(rows, k))
  }

  lemma DailiesNext(keys: seq<StatKey>, k: StatKey, rows: seq<JobRow>)
    ensures DailiesOf(keys + [k], rows) ==
            if BucketOf(rows, k).jobs > 0 then DailiesOf(keys, rows)[k := DailyOf(BucketOf(rows, k))]
            else DailiesOf(keys, rows)
  {
    hide BucketOf, DailyOf;
    assert forall x :: x in keys + [k] <==> x in keys || x == k;
  }

  ghost predicate PayloadOf(payload: seq<Item>, keys: seq<StatKey>, rows: seq<JobRow>) {
    && DistinctItems(payload)
    && (forall j | 0 <= j < |payload| :: payload[j].key in keys)
    && ItemMap(payload) == DailiesOf(keys, rows)
  }

  lemma PayloadNext(payload: seq<Item>, keys: seq<StatKey>, k: StatKey, rows: seq<JobRow>)
    requires PayloadOf(payload, keys, rows) && k !in keys
    ensures PayloadOf(if BucketOf(rows, k).jobs > 0 then payload + [Item(k, DailyOf(BucketOf(rows, k)))] else payload,
                      keys + [k], rows)
  {
    hide BucketOf, DailyOf, ItemMap, DailiesOf;
    DailiesNext(keys, k, rows);
    if BucketOf(rows, k).jobs > 0 {
      ItemMapSnoc(payload, Item(k, DailyOf(BucketOf(rows, k))));
    }
  }

  lemma PayloadComplete(payload: seq<Item>, order: seq<StatKey>, rows: seq<JobRow>)
    requires PayloadOf(payload, order, rows) && ListsKeys(order, NamedKeys(rows))
    ensures ItemMap(payload) == TableOf(rows)
  {
    hide BucketOf, DailyOf, NamedKeys, CountedKeys, ItemMap;
    forall k ensures k in order && BucketOf(rows, k).jobs > 0 <==> k in CountedKeys(rows) {
      BucketCounts(rows, k);
      CountedIsNamed(rows, k);
    }
  }

  /** The second loop: one payload item per bucket that counted a job. */
  method BuildPayload(buckets: map<StatKey, Bucket>, order: seq<StatKey>, ghost rows: seq<JobRow>)
    returns (payload: seq<Item>)
    requires BucketsSoFar(buckets, order, rows)
    ensures DistinctItems(payload) && ItemMap(payload) == TableOf(rows)
  {
    hide BucketOf, DailyOf, NamedKeys, CountedKeys, ItemMap;
    ItemMapNone();
    payload := [];
    for i := 0 to |order|
      invariant PayloadOf(payload, order[..i], rows)
    {
      var k := order[i];
      assert k in order && k !in order[..i];
      assert order[..i + 1] == order[..i] + [k];
      PayloadNext(payload, order[..i], k, rows);
      if buckets[k].jobs > 0 {
        payload := payload + [Item(k, DailyOf(buckets[k]))];
      }
    }
    assert order[..|order|] == order;
    PayloadComplete(payload, order, rows);
  }

  lemma CountedIsNamed(rows: seq<JobRow>, k: StatKey)
    ensures k in CountedKeys(rows) ==> k in NamedKeys(rows)
  {
  }
}
