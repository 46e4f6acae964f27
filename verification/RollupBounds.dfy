/** How far the rollup's figures are from the exact figures of the raw rows: jobs exact, means within half a hundredth,
    maxima exact, and what is reported when some buckets are too small to count. */
module RollupBounds {
  import opened Common
  import opened DailyStats
  import opened Rollup

  /** items are the daily rows of these raw rows, in any order. */
  ghost predicate AreDailyRows(items: seq<Item>, rows: seq<JobRow>) {
    DistinctItems(items) && ItemMap(items) == TableOf(rows)
  }

  function Keys(items: seq<Item>): (ks: seq<StatKey>)
    ensures |ks| == |items| && forall i | 0 <= i < |items| :: ks[i] == items[i].key
  {
    seq(|items|, i requires 0 <= i < |items| => items[i].key)
  }

  /** A bucket whose mean memory rounds to something positive. */
  predicate Enough(b: Bucket) {
    b.jobs > 0 && b.memoryTotal >= 0.005 * b.jobs as real
  }

  /** A daily row is the rounded summary of its bucket. */
  ghost predicate FromBucket(item: Item, rows: seq<JobRow>) {
    var b := BucketOf(rows, item.key);
    item.daily == DailyOf(b) && b.jobs > 0 && |b.memoryValues| == b.jobs
  }

  lemma {:induction false} ItemAt(items: seq<Item>, i: nat)
    requires DistinctItems(items) && i < |items|
    ensures items[i].key in ItemMap(items) && ItemMap(items)[items[i].key] == items[i].daily
  {
    var n := |items| - 1;
    if i < n {
      ItemAt(items[..n], i);
    }
  }

  lemma DailyRowsFromBuckets(items: seq<Item>, rows: seq<JobRow>)
    requires AreDailyRows(items, rows)
    ensures forall i | 0 <= i < |items| :: FromBucket(items[i], rows)
    ensures DistinctKeys(Keys(items))
    ensures forall i | 0 <= i < |rows| && Counts(rows[i]) :: KeyOf(rows[i]).value in Keys(items)
  {
    forall i | 0 <= i < |items| ensures FromBucket(items[i], rows) {
      ItemAt(items, i);
      BucketCounts(rows, items[i].key);
      hide BucketOf, DailyOf, ItemMap;
      assert items[i].key in TableOf(rows);
    }
    forall i | 0 <= i < |rows| && Counts(rows[i]) ensures KeyOf(rows[i]).value in Keys(items) {
      hide BucketOf, DailyOf, KeyOf;
      var k := KeyOf(rows[i]).value;
      assert k in CountedKeys(rows);
      assert k in ItemMap(items);
      var j :| 0 <= j < |items| && items[j].key == k;
      assert Keys(items)[j] == k;
    }
  }

  // ---------- One bucket ----------

  lemma DivideBack(x: real, n: int) returns (m: real)
    requires n > 0
    ensures m == x / n as real && m * n as real == x
  {
    m := x / n as real;
  }

  lemma TimesOrder(a: real, b: real, j: real)
    requires j > 0.0
    ensures a <= b <==> a * j <= b * j
    ensures a < b <==> a * j < b * j
  {
    assert (b - a) * j == b * j - a * j;
    if a <= b {
      assert (b - a) * j >= 0.0;
    } else {
      assert (a - b) * j > 0.0;
    }
  }

  /** x and y are at most e, j times, apart. */
  ghost predicate Near(x: real, y: real, e: real, j: real) {
    x - y <= e * j && y - x <= e * j
  }

  /** Scaling two values by j scales how far they are apart. */
  lemma Scale(a: real, b: real, x: real, y: real, e: real, j: real)
    requires j > 0.0 && a * j == x && b * j == y
    ensures Near(x, y, e, j) <==> a - b <= e && b - a <= e
  {
    assert (a - b) * j == x - y;
    TimesOrder(a - b, e, j);
    assert (b - a) * j == y - x;
    TimesOrder(b - a, e, j);
  }

  lemma MeanThreshold(x: real, n: int, m: real)
    requires n > 0 && m * n as real == x
    ensures m >= 0.005 <==> x >= 0.005 * n as real
  {
    TimesOrder(0.005, m, n as real);
  }

  /** The mean a bucket's daily row rounds, by its defining product, and the maximum it rounds. */
  lemma DailyMean(b: Bucket) returns (m: real)
    requires b.jobs > 0 && |b.memoryValues| == b.jobs
    ensures m * b.jobs as real == b.memoryTotal
    ensures DailyOf(b).avgMemory == Some(Round2(m))
    ensures DailyOf(b).maxMemory == Some(Round2(MaxOf(b.memoryValues)))
  {
    hide Median, MaxOf, Round2;
    m := DivideBack(b.memoryTotal, b.jobs);
  }

  lemma RoundedMean(x: real, n: int, m: real)
    requires n > 0 && m * n as real == x
    ensures Round2(m) > 0.0 <==> x >= 0.005 * n as real
    ensures WithinHalf(Round2(m), n, x)
  {
    MeanThreshold(x, n, m);
    Scale(Round2(m), m, Round2(m) * n as real, x, 0.005, n as real);
    hide Round2;
  }

  /** A bucket's rounded mean times its jobs is within half a hundredth a job of its memory; the rollup
      takes it exactly when the mean is at least half a hundredth. */
  lemma BucketMean(b: Bucket)
    requires b.jobs > 0 && |b.memoryValues| == b.jobs
    ensures DailyOf(b).avgMemory.Some? && (Positive(DailyOf(b).avgMemory).Some? <==> Enough(b))
    ensures WithinHalf(DailyOf(b).avgMemory.value, b.jobs, b.memoryTotal)
  {
    hide DailyOf, Round2, WithinHalf;
    var m := DailyMean(b);
    RoundedMean(b.memoryTotal, b.jobs, m);
  }

  /** avg times n is within half a hundredth, n times, of the total. */
  ghost predicate WithinHalf(avg: real, n: int, total: real) {
    Near(avg * n as real, total, 0.005, n as real)
  }

  lemma MeanBelow(x: real, n: int, m: real, top: real)
    requires n > 0 && m * n as real == x && x <= top * n as real
    ensures m <= top
  {
    TimesOrder(m, top, n as real);
  }

  /** The total of a list of values is at most its maximum times its length. */
  lemma {:induction false} BucketTotal(rows: seq<JobRow>, k: StatKey, bound: real)
    requires forall x | x in BucketOf(rows, k).memoryValues :: x <= bound
    ensures BucketOf(rows, k).memoryTotal <= bound * BucketOf(rows, k).jobs as real
  {
    if rows != [] {
      var front, row := rows[..|rows| - 1], rows[|rows| - 1];
      var b := BucketOf(front, k);
      assert forall x | x in b.memoryValues :: x in BucketOf(rows, k).memoryValues;
      BucketTotal(front, k, bound);
      if KeyOf(row) == Some(k) && row.memory.Some? {
        assert row.memory.value in BucketOf(rows, k).memoryValues by {
          assert BucketOf(rows, k).memoryValues[|b.memoryValues|] == row.memory.value;
        }
      }
    }
  }

  ghost predicate Bounded(b: Bucket) {
    && Enough(b) && |b.memoryValues| == b.jobs
    && b.memoryTotal <= MaxOf(b.memoryValues) * b.jobs as real
  }

  lemma BucketBounded(rows: seq<JobRow>, k: StatKey)
    requires Enough(BucketOf(rows, k)) && |BucketOf(rows, k).memoryValues| == BucketOf(rows, k).jobs
    ensures Bounded(BucketOf(rows, k))
  {
    hide BucketOf, MaxOf, Enough;
    assert BucketOf(rows, k).memoryValues != [] by { EnoughHasJobs(BucketOf(rows, k)); }
    BucketTotal(rows, k, MaxOf(BucketOf(rows, k).memoryValues));
  }

  lemma EnoughHasJobs(b: Bucket)
    requires Enough(b)
    ensures b.jobs > 0
  {
  }

  /** A bucket with enough memory has a positive rounded maximum, at least its rounded mean. */
  lemma BucketMax(b: Bucket)
    requires Bounded(b)
    ensures var d := DailyOf(b);
            && d.jobs == b.jobs && d.avgMemory.Some? && d.maxMemory.Some?
            && 0.0 < d.avgMemory.value <= d.maxMemory.value
  {
    hide Round2, MaxOf, Median;
    var top := MaxOf(b.memoryValues);
    var m := DailyMean(b);
    MeanBelow(b.memoryTotal, b.jobs, m, top);
    Round2Monotone(m, top);
    MeanThreshold(b.memoryTotal, b.jobs, m);
  }

  /** The values of a bucket are the memory of its counted rows. */
  lemma {:induction false} BucketValues(rows: seq<JobRow>, k: StatKey, x: real)
    ensures x in BucketOf(rows, k).memoryValues <==>
            exists i | 0 <= i < |rows| :: Counts(rows[i]) && KeyOf(rows[i]) == Some(k) && rows[i].memory == Some(x)
  {
    if rows != [] {
      var n := |rows| - 1;
      var front, row := rows[..n], rows[n];
      BucketValues(front, k, x);
      if Counts(row) && KeyOf(row) == Some(k) && row.memory == Some(x) {
        assert BucketOf(rows, k).memoryValues[|BucketOf(front, k).memoryValues|] == x;
      }
      assert forall i | 0 <= i < n :: front[i] == rows[i];
    }
  }

  // ---------- One tool ----------

  /** What a rollup says about the buckets merged into it. */
  ghost predicate RollBound(r: Roll, jobs: nat, memory: real) {
    && r.jobs == jobs == r.memoryWeight
    && Near(r.memoryTotal, memory, 0.005, jobs as real)
    && (jobs > 0 ==> r.memoryTotal > 0.0 && r.maxMemory.Some? && r.memoryTotal <= r.maxMemory.value * jobs as real)
    && (jobs == 0 ==> r == EMPTY_ROLL)
  }

  /** The arithmetic of merging one bucket: totals stay within bounds and under the larger maximum. */
  lemma SpreadSums(total: real, memory: real, jobs: int, top: real, avg: real, more: real, n: int, top': real,
                   big: real)
    requires jobs >= 0 && n > 0 && 0.0 < avg <= top' <= big && (jobs > 0 ==> top <= big && total <= top * jobs as real)
    requires jobs == 0 ==> total == 0.0
    requires Near(total, memory, 0.005, jobs as real)
    requires WithinHalf(avg, n, more)
    ensures var sum := total + avg * n as real;
            && Near(sum, memory + more, 0.005, (jobs + n) as real)
            && sum <= big * (jobs + n) as real && avg * n as real > 0.0
  {
    SumBelow(total, jobs, top, avg, n, big);
    NearSums(total, memory, avg * n as real, more, jobs, n);
  }

  /** A total under its maximum and one more bucket under its own stay under the larger maximum. */
  lemma SumBelow(total: real, jobs: int, top: real, avg: real, n: int, big: real)
    requires jobs >= 0 && n > 0 && 0.0 < avg <= big && (jobs > 0 ==> top <= big && total <= top * jobs as real)
    requires jobs == 0 ==> total == 0.0
    ensures avg * n as real > 0.0 && total + avg * n as real <= big * (jobs + n) as real
  {
    var an, bj, bn, all := avg * n as real, big * jobs as real, big * n as real, big * (jobs + n) as real;
    ProductBounds(avg, big, n);
    TimesZero(big);
    if jobs > 0 {
      TimesOrder(top, big, jobs as real);
    }
    assert total <= bj;
    Distribute(big, jobs, n);
    assert all == bj + bn;
    assert total + an <= all;
  }

  lemma TimesZero(x: real)
    ensures x * 0 as real == 0.0
  {
  }

  lemma ProductBounds(avg: real, big: real, n: int)
    requires n > 0 && 0.0 < avg <= big
    ensures 0.0 < avg * n as real <= big * n as real
  {
    TimesOrder(avg, big, n as real);
    TimesOrder(0.0, avg, n as real);
  }

  lemma NearSums(x: real, y: real, a: real, b: real, j: int, n: int)
    requires Near(x, y, 0.005, j as real) && Near(a, b, 0.005, n as real)
    ensures Near(x + a, y + b, 0.005, (j + n) as real)
  {
    Distribute(0.005, j, n);
  }

  lemma Spread(r: Roll, jobs: nat, memory: real, n: nat, f: Figures, total: real)
    requires RollBound(r, jobs, memory) && n > 0
    requires f.avgMemory.Some? && f.maxMemory.Some? && 0.0 < f.avgMemory.value <= f.maxMemory.value
    requires WithinHalf(f.avgMemory.value, n, total)
    ensures RollBound(Merge(r, n, f), jobs + n, memory + total)
  {
    var m := Merge(r, n, f);
    assert m.memoryTotal == r.memoryTotal + f.avgMemory.value * n as real;
    assert m.maxMemory == LargerOf(r.maxMemory, f.maxMemory.value) && m.memoryWeight == r.memoryWeight + n == m.jobs;
    SpreadSums(r.memoryTotal, memory, jobs, if r.maxMemory.Some? then r.maxMemory.value else 0.0, f.avgMemory.value,
               total, n, f.maxMemory.value, m.maxMemory.value);
    hide Merge, Near, WithinHalf;
  }

  lemma Distribute(x: real, a: int, b: int)
    ensures x * (a + b) as real == x * a as real + x * b as real
  {
  }

  lemma MergedBound(r: Roll, jobs: nat, memory: real, b: Bucket)
    requires RollBound(r, jobs, memory) && Bounded(b)
    ensures RollBound(Merge(r, DailyOf(b).jobs, FiguresOf(DailyOf(b))), jobs + b.jobs, memory + b.memoryTotal)
  {
    BucketMax(b);
    EnoughHasJobs(b);
    BucketMean(b);
    hide RollBound, DailyOf, WithinHalf, Merge;
    Spread(r, jobs, memory, b.jobs, FiguresOf(DailyOf(b)), b.memoryTotal);
  }

  /** Every bucket of the tool averages at least half a hundredth. */
  ghost predicate ToolEnough(items: seq<Item>, rows: seq<JobRow>, tool: string) {
    forall i | 0 <= i < |items| && items[i].key.tool == tool :: Enough(BucketOf(rows, items[i].key))
  }

  lemma {:induction false} ToolRollBound(items: seq<Item>, rows: seq<JobRow>, tool: string)
    requires forall i | 0 <= i < |items| :: FromBucket(items[i], rows)
    requires ToolEnough(items, rows, tool)
    ensures RollBound(ToolRoll(items, tool), BucketJobs(Keys(items), rows, Some(tool)),
                      BucketMetric(Keys(items), rows, Some(tool), Memory))
  {
    hide RollBound, DailyOf, BucketOf, Enough, Merge, Bounded, MetricTotal, FromBucket;
    if items == [] {
      EmptyBound();
    } else {
      var n := |items| - 1;
      ToolRollBound(items[..n], rows, tool);
      assert Keys(items)[..n] == Keys(items[..n]);
      if items[n].key.tool == tool {
        var b := BucketOf(rows, items[n].key);
        FromBucketIs(items[n], rows);
        BucketBounded(rows, items[n].key);
        MemoryOf(b);
        MergedBound(ToolRoll(items[..n], tool), BucketJobs(Keys(items[..n]), rows, Some(tool)),
                    BucketMetric(Keys(items[..n]), rows, Some(tool), Memory), b);
      }
    }
  }

  lemma FromBucketIs(item: Item, rows: seq<JobRow>)
    requires FromBucket(item, rows)
    ensures var b := BucketOf(rows, item.key);
            item.daily == DailyOf(b) && b.jobs > 0 && |b.memoryValues| == b.jobs && item.daily.jobs == b.jobs
  {
    hide BucketOf, Median, MaxOf, RoundMetric;
  }

  lemma MemoryOf(b: Bucket)
    ensures MetricTotal(b, Memory) == b.memoryTotal
  {
  }

  lemma EmptyBound()
    ensures RollBound(EMPTY_ROLL, 0, 0.0)
  {
  }

  /** A counted row of one of these tools. */
  predicate OfTools(row: JobRow, tools: seq<string>) {
    Counts(row) && row.tool in tools
  }

  /** The largest memory of the counted rows of some tools, rounded; null when there are none. */
  ghost predicate MaxOccurs(m: Option<real>, rows: seq<JobRow>, tools: seq<string>) {
    m.Some? ==> exists i | 0 <= i < |rows| :: OfTools(rows[i], tools) && m.value == Round2(rows[i].memory.value)
  }

  ghost predicate MaxBounds(m: Option<real>, rows: seq<JobRow>, tools: seq<string>) {
    forall i | 0 <= i < |rows| && OfTools(rows[i], tools) :: m.Some? && Round2(rows[i].memory.value) <= m.value
  }

  ghost predicate IsRoundedMax(m: Option<real>, rows: seq<JobRow>, tools: seq<string>) {
    MaxOccurs(m, rows, tools) && MaxBounds(m, rows, tools)
  }

  /** The same maximum when it is positive, null otherwise. */
  ghost predicate IsPositiveMax(m: Option<real>, rows: seq<JobRow>, tools: seq<string>) {
    && MaxOccurs(m, rows, tools) && (m.Some? ==> m.value > 0.0)
    && forall i | 0 <= i < |rows| && OfTools(rows[i], tools) :: Round2(rows[i].memory.value) <= Zero(m)
  }

  /** The exact mean of the counted rows of a tool, or of all. */
  function Mean(rows: seq<JobRow>, tool: Option<string>): real
    requires Count(rows, tool) > 0
  {
    Total(rows, tool, Memory) / Count(rows, tool) as real
  }

  lemma QuotientBounds(x: real, a: real, total: real, m: real, j: real, top: real)
    requires j > 0.0 && a * j == x && m * j == total
    requires 0.0 < x <= top * j && Near(x, total, 0.005, j)
    ensures m - 0.005 <= a <= m + 0.005
    ensures 0.0 < a <= top
  {
    Scale(a, m, x, total, 0.005, j);
    TimesOrder(a, top, j);
    TimesOrder(0.0, a, j);
  }

  lemma MeanError(r: Roll, jobs: nat, memory: real)
    requires RollBound(r, jobs, memory) && jobs > 0
    ensures AvgOf(r).Some? && memory / jobs as real - 0.005 <= AvgOf(r).value <= memory / jobs as real + 0.005
    ensures 0.0 < AvgOf(r).value <= r.maxMemory.value
  {
    var a := DivideBack(r.memoryTotal, jobs);
    var m := DivideBack(memory, jobs);
    QuotientBounds(r.memoryTotal, a, memory, m, jobs as real, r.maxMemory.value);
  }

  /** For a tool whose own buckets all average enough: jobs exact, mean within half a hundredth, mean at most the
      maximum. */
  lemma ToolFigures(items: seq<Item>, rows: seq<JobRow>, tool: string)
    requires AreDailyRows(items, rows)
    requires ToolEnough(items, rows, tool)
    ensures var r := ToolRoll(items, tool);
            && r.jobs == Count(rows, Some(tool))
            && (r.jobs > 0 ==>
                  && AvgOf(r).Some? && r.maxMemory.Some?
                  && Mean(rows, Some(tool)) - 0.005 <= AvgOf(r).value <= Mean(rows, Some(tool)) + 0.005
                  && AvgOf(r).value <= r.maxMemory.value)
    ensures RollBound(ToolRoll(items, tool), Count(rows, Some(tool)), Total(rows, Some(tool), Memory))
  {
    DailyRowsFromBuckets(items, rows);
    hide ItemMap, TableOf, BucketOf, Enough, DailyOf, ToolEnough;
    ToolRollBound(items, rows, tool);
    BucketSums(Keys(items), rows, Some(tool), Memory);
    AllIn(rows, Keys(items), Some(tool), Memory);
    if ToolRoll(items, tool).jobs > 0 {
      MeanError(ToolRoll(items, tool), Count(rows, Some(tool)), Total(rows, Some(tool), Memory));
    }
  }

  // ---------- Maxima ----------

  /** The rounded maximum of a bucket. */
  function TopOf(b: Bucket): real
    requires b.memoryValues != []
  {
    Round2(MaxOf(b.memoryValues))
  }

  /** m is the largest of the tops of a tool's items, when that is positive. */
  ghost predicate IsMaxOver(m: Option<real>, items: seq<Item>, tops: seq<real>, tool: string)
    requires |items| == |tops|
  {
    && (m.Some? ==> m.value > 0.0 && exists i | 0 <= i < |items| :: items[i].key.tool == tool && m.value == tops[i])
    && (forall i | 0 <= i < |items| && items[i].key.tool == tool :: tops[i] <= Zero(m))
  }

  /** What merging one maximum leaves. */
  function NextTop(before: Option<real>, top: real): Option<real> {
    if top > 0.0 then LargerOf(before, top) else before
  }

  lemma NextMax(before: Option<real>, items: seq<Item>, tops: seq<real>, tool: string)
    requires |items| == |tops| > 0
    requires IsMaxOver(before, items[..|items| - 1], tops[..|items| - 1], tool)
    ensures IsMaxOver(if items[|items| - 1].key.tool == tool then NextTop(before, tops[|items| - 1]) else before,
                      items, tops, tool)
  {
    var n := |items| - 1;
    if before.Some? {
      var i :| 0 <= i < n && items[..n][i].key.tool == tool && before.value == tops[..n][i];
      assert items[i] == items[..n][i] && tops[i] == tops[..n][i];
    }
    forall i | 0 <= i < n && items[i].key.tool == tool ensures tops[i] <= Zero(before) {
      assert items[..n][i] == items[i] && tops[..n][i] == tops[i];
    }
  }

  lemma BucketTop(item: Item, rows: seq<JobRow>)
    requires FromBucket(item, rows)
    ensures BucketOf(rows, item.key).memoryValues != [] && item.daily.jobs > 0
    ensures item.daily.maxMemory == Some(TopOf(BucketOf(rows, item.key)))
  {
    hide Round2, MaxOf, Median, BucketOf;
  }

  lemma MergedMax(r: Roll, d: Daily, top: real)
    requires d.jobs > 0 && d.maxMemory == Some(top)
    ensures Merge(r, d.jobs, FiguresOf(d)).maxMemory == NextTop(r.maxMemory, top)
  {
  }

  lemma {:induction false} ToolRollMax(items: seq<Item>, rows: seq<JobRow>, tool: string)
    requires (forall i | 0 <= i < |items| :: FromBucket(items[i], rows)) && AllFilled(items, rows)
    ensures IsMaxOver(ToolRoll(items, tool).maxMemory, items, Tops(items, rows), tool)
  {
    hide DailyOf, BucketOf, TopOf, IsMaxOver, NextTop, FromBucket, Merge;
    if items == [] {
      NoMax(tool);
    } else {
      var n := |items| - 1;
      ToolRollMax(items[..n], rows, tool);
      assert Tops(items, rows)[..n] == Tops(items[..n], rows);
      BucketTop(items[n], rows);
      MergedMax(ToolRoll(items[..n], tool), items[n].daily, TopOf(BucketOf(rows, items[n].key)));
      NextMax(ToolRoll(items[..n], tool).maxMemory, items, Tops(items, rows), tool);
    }
  }

  ghost predicate AllFilled(items: seq<Item>, rows: seq<JobRow>) {
    forall i | 0 <= i < |items| :: BucketOf(rows, items[i].key).memoryValues != []
  }

  lemma NoMax(tool: string)
    ensures IsMaxOver(None, [], [], tool)
  {
  }

  function Tops(items: seq<Item>, rows: seq<JobRow>): (ts: seq<real>)
    requires forall i | 0 <= i < |items| :: BucketOf(rows, items[i].key).memoryValues != []
    ensures |ts| == |items| && forall i | 0 <= i < |items| :: ts[i] == TopOf(BucketOf(rows, items[i].key))
  {
    seq(|items|, i requires 0 <= i < |items| => TopOf(BucketOf(rows, items[i].key)))
  }

  /** A bucket's top is the rounded memory of one of its rows, and no row of it rounds above. */
  lemma TopRow(rows: seq<JobRow>, k: StatKey) returns (j: nat)
    requires BucketOf(rows, k).memoryValues != []
    ensures j < |rows| && Counts(rows[j]) && KeyOf(rows[j]) == Some(k)
            && Round2(rows[j].memory.value) == TopOf(BucketOf(rows, k))
  {
    var top := MaxOf(BucketOf(rows, k).memoryValues);
    BucketValues(rows, k, top);
    hide BucketOf, Round2, MaxOf;
    j :| 0 <= j < |rows| && Counts(rows[j]) && KeyOf(rows[j]) == Some(k) && rows[j].memory == Some(top);
  }

  lemma RowBelowTop(rows: seq<JobRow>, j: nat)
    requires j < |rows| && Counts(rows[j]) && BucketOf(rows, KeyOf(rows[j]).value).memoryValues != []
    ensures Round2(rows[j].memory.value) <= TopOf(BucketOf(rows, KeyOf(rows[j]).value))
  {
    var k := KeyOf(rows[j]).value;
    BucketValues(rows, k, rows[j].memory.value);
    hide BucketOf, Round2;
    Round2Monotone(rows[j].memory.value, MaxOf(BucketOf(rows, k).memoryValues));
  }

  /** For every tool, whatever its buckets: the maximum is the rounded maximum of its raw rows when that is positive,
      and null otherwise; when its buckets all average enough it is the rounded maximum itself. */
  lemma ToolMaximum(items: seq<Item>, rows: seq<JobRow>, tool: string)
    requires AreDailyRows(items, rows)
    ensures IsPositiveMax(ToolRoll(items, tool).maxMemory, rows, [tool])
    ensures ToolEnough(items, rows, tool) ==> IsRoundedMax(ToolRoll(items, tool).maxMemory, rows, [tool])
  {
    DailyRowsFromBuckets(items, rows);
    hide AreDailyRows, BucketOf, Enough, TopOf, Round2, FromBucket, IsMaxOver, Tops, Count, ToolRoll, Counts;
    forall i | 0 <= i < |items| ensures BucketOf(rows, items[i].key).memoryValues != [] {
      BucketTop(items[i], rows);
    }
    ToolRollMax(items, rows, tool);
    MaxOverRows(ToolRoll(items, tool).maxMemory, items, rows, tool);
    if ToolEnough(items, rows, tool) {
      ToolFigures(items, rows, tool);
      forall i | 0 <= i < |rows| && OfTools(rows[i], [tool]) ensures ToolRoll(items, tool).maxMemory.Some? {
        CountedRow(rows, i, tool);
      }
    }
  }

  lemma {:induction false} CountedRow(rows: seq<JobRow>, i: nat, tool: string)
    requires i < |rows| && OfTools(rows[i], [tool])
    ensures Count(rows, Some(tool)) > 0
  {
    var n := |rows| - 1;
    if i < n {
      assert rows[..n][i] == rows[i];
      CountedRow(rows[..n], i, tool);
    }
  }

  ghost predicate AllKeyed(items: seq<Item>, rows: seq<JobRow>) {
    forall i | 0 <= i < |rows| && Counts(rows[i]) :: KeyOf(rows[i]).value in Keys(items)
  }

  lemma MaxBoundsRow(m: Option<real>, items: seq<Item>, rows: seq<JobRow>, tool: string, j: nat)
    requires AllFilled(items, rows) && AllKeyed(items, rows)
    requires IsMaxOver(m, items, Tops(items, rows), tool)
    requires j < |rows| && OfTools(rows[j], [tool])
    ensures rows[j].memory.Some? && Round2(rows[j].memory.value) <= Zero(m)
  {
    hide BucketOf, TopOf, Round2, Tops, KeyOf, Keys, IsMaxOver, Counts, OfTools;
    ToolOfCounted(rows[j], tool);
    MaxAbove(m, items, rows, tool, j);
  }

  lemma MaxOverRows(m: Option<real>, items: seq<Item>, rows: seq<JobRow>, tool: string)
    requires AllFilled(items, rows) && AllKeyed(items, rows)
    requires IsMaxOver(m, items, Tops(items, rows), tool)
    ensures IsPositiveMax(m, rows, [tool])
  {
    hide BucketOf, TopOf, Round2, Tops, KeyOf, Keys, Counts, OfTools, AllFilled, AllKeyed;
    if m.Some? {
      MaxReachedBy(m.value, items, rows, tool);
    }
    forall j | 0 <= j < |rows| && OfTools(rows[j], [tool])
      ensures rows[j].memory.Some? && Round2(rows[j].memory.value) <= Zero(m)
    {
      MaxBoundsRow(m, items, rows, tool, j);
    }
  }

  lemma MaxReachedBy(x: real, items: seq<Item>, rows: seq<JobRow>, tool: string)
    requires AllFilled(items, rows) && IsMaxOver(Some(x), items, Tops(items, rows), tool)
    ensures MaxOccurs(Some(x), rows, [tool])
  {
    hide BucketOf, TopOf, Round2, Tops, KeyOf, Keys, IsMaxOver, Counts, OfTools;
    MaxReached(x, items, rows, tool);
  }

  lemma MaxReached(x: real, items: seq<Item>, rows: seq<JobRow>, tool: string)
    requires forall i | 0 <= i < |items| :: BucketOf(rows, items[i].key).memoryValues != []
    requires IsMaxOver(Some(x), items, Tops(items, rows), tool)
    ensures exists j | 0 <= j < |rows| :: OfTools(rows[j], [tool]) && x == Round2(rows[j].memory.value)
  {
    hide BucketOf, TopOf, Round2, Tops, Counts, KeyOf, OfTools, Keys;
    var tops := Tops(items, rows);
    var i :| 0 <= i < |items| && items[i].key.tool == tool && x == tops[i];
    var j := TopRow(rows, items[i].key);
    CountedOfTool(rows[j], items[i].key);
  }

  lemma MaxAbove(m: Option<real>, items: seq<Item>, rows: seq<JobRow>, tool: string, j: nat)
    requires forall i | 0 <= i < |items| :: BucketOf(rows, items[i].key).memoryValues != []
    requires IsMaxOver(m, items, Tops(items, rows), tool)
    requires j < |rows| && Counts(rows[j]) && KeyOf(rows[j]).value in Keys(items) && KeyOf(rows[j]).value.tool == tool
    ensures Round2(rows[j].memory.value) <= Zero(m)
  {
    hide BucketOf, TopOf, Round2, Tops, Keys;
    var tops := Tops(items, rows);
    var i := ItemOfRow(items, rows, j);
    RowBelowTop(rows, j);
    assert tops[i] <= Zero(m);
  }

  lemma CountedOfTool(row: JobRow, k: StatKey)
    requires Counts(row) && KeyOf(row) == Some(k)
    ensures OfTools(row, [k.tool])
  {
  }

  lemma ToolOfCounted(row: JobRow, tool: string)
    requires OfTools(row, [tool])
    ensures Counts(row) && row.memory.Some? && KeyOf(row).Some? && KeyOf(row).value.tool == tool
  {
  }

  lemma ItemOfRow(items: seq<Item>, rows: seq<JobRow>, j: nat) returns (i: nat)
    requires j < |rows| && Counts(rows[j]) && KeyOf(rows[j]).value in Keys(items)
    ensures i < |items| && items[i].key == KeyOf(rows[j]).value
  {
    i :| 0 <= i < |Keys(items)| && Keys(items)[i] == KeyOf(rows[j]).value;
  }

  // ---------- All tools ----------

  ghost predicate ListsTools(tools: seq<string>, rows: seq<JobRow>) {
    && (forall i, j | 0 <= i < j < |tools| :: tools[i] != tools[j])
    && (forall i | 0 <= i < |rows| && Counts(rows[i]) :: rows[i].tool in tools)
  }

  function CountTools(rows: seq<JobRow>, tools: seq<string>): nat {
    if tools == [] then 0 else CountTools(rows, tools[..|tools| - 1]) + Count(rows, Some(tools[|tools| - 1]))
  }

  function TotalTools(rows: seq<JobRow>, tools: seq<string>): real {
    if tools == [] then 0.0 else TotalTools(rows, tools[..|tools| - 1]) + Total(rows, Some(tools[|tools| - 1]), Memory)
  }

  lemma {:induction false} ToolsOneMoreRow(rows: seq<JobRow>, row: JobRow, tools: seq<string>)
    requires forall i, j | 0 <= i < j < |tools| :: tools[i] != tools[j]
    ensures var hit := OfTools(row, tools);
            && CountTools(rows + [row], tools) == CountTools(rows, tools) + (if hit then 1 else 0)
            && TotalTools(rows + [row], tools) == TotalTools(rows, tools) + (if hit then row.memory.value else 0.0)
  {
    if tools != [] {
      var n := |tools| - 1;
      ToolsOneMoreRow(rows, row, tools[..n]);
      assert (rows + [row])[..|rows|] == rows;
      assert row.tool in tools <==> row.tool in tools[..n] || row.tool == tools[n];
    }
  }

  lemma {:induction false} NoRowsNoTools(tools: seq<string>)
    ensures CountTools([], tools) == 0 && TotalTools([], tools) == 0.0
  {
    if tools != [] {
      NoRowsNoTools(tools[..|tools| - 1]);
    }
  }

  lemma {:induction false} ToolSums(rows: seq<JobRow>, tools: seq<string>)
    requires ListsTools(tools, rows)
    ensures CountTools(rows, tools) == Count(rows, None) && TotalTools(rows, tools) == Total(rows, None, Memory)
    decreases |rows|
  {
    if rows == [] {
      NoRowsNoTools(tools);
    } else {
      var front, row := rows[..|rows| - 1], rows[|rows| - 1];
      assert rows == front + [row];
      ToolSums(front, tools);
      ToolsOneMoreRow(front, row, tools);
    }
  }

  /** Merging a tool's own mean and maximum merges its exact sums, within the same bounds. */
  lemma MergedTool(s: Roll, jobs: nat, memory: real, r: Roll, n: nat, total: real)
    requires RollBound(s, jobs, memory) && RollBound(r, n, total) && n > 0
    ensures RollBound(Merge(s, r.jobs, Reported(r)), jobs + n, memory + total)
  {
    MeanError(r, n, total);
    var a := DivideBack(r.memoryTotal, n);
    Spread(s, jobs, memory, n, Reported(r), total);
  }

  lemma {:induction false} SummaryBound(items: seq<Item>, rows: seq<JobRow>, tools: seq<string>)
    requires AreDailyRows(items, rows)
    requires forall i | 0 <= i < |items| :: Enough(BucketOf(rows, items[i].key))
    ensures RollBound(Summary(items, tools), CountTools(rows, tools), TotalTools(rows, tools))
  {
    if tools == [] {
      EmptyBound();
    } else {
      var n := |tools| - 1;
      SummaryBound(items, rows, tools[..n]);
      ToolFigures(items, rows, tools[n]);
      NoCountNoTotal(rows, Some(tools[n]));
      hide Enough, BucketOf, AreDailyRows, ToolRoll, Merge, AvgOf, Count, Total, Mean;
      if ToolRoll(items, tools[n]).jobs > 0 {
        MergedTool(Summary(items, tools[..n]), CountTools(rows, tools[..n]), TotalTools(rows, tools[..n]),
                   ToolRoll(items, tools[n]), Count(rows, Some(tools[n])), Total(rows, Some(tools[n]), Memory));
      }
    }
  }

  lemma {:induction false} NoCountNoTotal(rows: seq<JobRow>, tool: Option<string>)
    ensures Count(rows, tool) == 0 ==> Total(rows, tool, Memory) == 0.0
  {
    if rows != [] {
      NoCountNoTotal(rows[..|rows| - 1], tool);
    }
  }

  /** What one tool leaves of the summary's maximum. */
  lemma SummaryNextMax(items: seq<Item>, tools: seq<string>)
    requires tools != [] && forall i | 0 <= i < |items| :: items[i].daily.jobs > 0
    ensures var n := |tools| - 1;
            var s, r := Summary(items, tools[..n]).maxMemory, ToolRoll(items, tools[n]).maxMemory;
            Summary(items, tools).maxMemory == if Positive(r).Some? then LargerOf(s, r.value) else s
  {
    RollHasJobs(items, tools[|tools| - 1]);
    hide ToolRoll;
  }

  lemma {:induction false} RollHasJobs(items: seq<Item>, tool: string)
    requires forall i | 0 <= i < |items| :: items[i].daily.jobs > 0
    ensures ToolRoll(items, tool).jobs > 0 || ToolRoll(items, tool) == EMPTY_ROLL
    ensures ToolRoll(items, tool).jobs >= 0
  {
    if items != [] {
      var n := |items| - 1;
      RollHasJobs(items[..n], tool);
      hide FiguresOf;
    }
  }

  lemma {:induction false} SummaryMaximum(items: seq<Item>, rows: seq<JobRow>, tools: seq<string>)
    requires AreDailyRows(items, rows)
    ensures IsPositiveMax(Summary(items, tools).maxMemory, rows, tools)
  {
    if tools != [] {
      hide BucketOf, AreDailyRows, ToolRoll, Round2, Counts, IsPositiveMax, Summary, FromBucket, Enough;
      var n := |tools| - 1;
      SummaryMaximum(items, rows, tools[..n]);
      ToolMaximum(items, rows, tools[n]);
      ItemsHaveJobs(items, rows);
      SummaryNextMax(items, tools);
      assert forall row: JobRow :: OfTools(row, tools) <==> OfTools(row, tools[..n]) || OfTools(row, [tools[n]]);
      LargerIsMax(Summary(items, tools[..n]).maxMemory, ToolRoll(items, tools[n]).maxMemory, rows, tools[..n],
                  [tools[n]], tools);
    } else {
      NoToolNoMax(items, rows);
    }
  }

  lemma NoToolNoMax(items: seq<Item>, rows: seq<JobRow>)
    ensures IsPositiveMax(Summary(items, []).maxMemory, rows, [])
  {
  }

  lemma ItemsHaveJobs(items: seq<Item>, rows: seq<JobRow>)
    requires AreDailyRows(items, rows)
    ensures forall i | 0 <= i < |items| :: items[i].daily.jobs > 0
  {
    DailyRowsFromBuckets(items, rows);
    hide AreDailyRows, BucketOf, FromBucket;
    forall i | 0 <= i < |items| ensures items[i].daily.jobs > 0 {
      FromBucketIs(items[i], rows);
    }
  }

  lemma LargerIsMax(a: Option<real>, b: Option<real>, rows: seq<JobRow>,
                    left: seq<string>, right: seq<string>, all: seq<string>)
    requires IsPositiveMax(a, rows, left) && IsPositiveMax(b, rows, right)
    requires forall row: JobRow :: OfTools(row, all) <==> OfTools(row, left) || OfTools(row, right)
    ensures IsPositiveMax(if Positive(b).Some? then LargerOf(a, b.value) else a, rows, all)
  {
    hide OfTools, Round2;
  }

  /** Over all tools: jobs exact, mean within half a hundredth of the exact mean, maximum exactly the
      rounded maximum, and mean at most maximum. */
  lemma OverallFigures(items: seq<Item>, rows: seq<JobRow>, tools: seq<string>)
    requires AreDailyRows(items, rows) && ListsTools(tools, rows)
    requires forall i | 0 <= i < |items| :: Enough(BucketOf(rows, items[i].key))
    ensures var s := Summary(items, tools);
            && s.jobs == Count(rows, None)
            && IsRoundedMax(s.maxMemory, rows, tools)
            && (s.jobs > 0 ==>
                  && AvgOf(s).Some? && s.maxMemory.Some?
                  && Mean(rows, None) - 0.005 <= AvgOf(s).value <= Mean(rows, None) + 0.005
                  && AvgOf(s).value <= s.maxMemory.value)
  {
    SummaryBound(items, rows, tools);
    SummaryMaximum(items, rows, tools);
    ToolSums(rows, tools);
    hide Enough, BucketOf, AreDailyRows, Count, Total, Summary, ListsTools, CountTools, TotalTools, Round2, Counts;
    var s := Summary(items, tools);
    if s.jobs > 0 {
      MeanError(s, Count(rows, None), Total(rows, None, Memory));
    }
    forall i | 0 <= i < |rows| && OfTools(rows[i], tools) ensures s.maxMemory.Some? {
      CountedOverall(rows, i, tools);
    }
  }

  lemma {:induction false} CountedOverall(rows: seq<JobRow>, i: nat, tools: seq<string>)
    requires i < |rows| && OfTools(rows[i], tools)
    ensures Count(rows, None) > 0
  {
    var n := |rows| - 1;
    if i < n {
      assert rows[..n][i] == rows[i];
      CountedOverall(rows[..n], i, tools);
    }
  }

  // ---------- Buckets too small to round up ----------

  lemma ItemWeight(item: Item, rows: seq<JobRow>)
    requires FromBucket(item, rows)
    ensures item.daily.jobs > 0
    ensures Positive(item.daily.avgMemory).Some? <==> Enough(BucketOf(rows, item.key))
  {
    BucketMean(BucketOf(rows, item.key));
    assert DailyOf(BucketOf(rows, item.key)).jobs == BucketOf(rows, item.key).jobs;
    hide BucketOf, Enough, DailyOf, Positive;
  }

  /** The mean is taken over all of a tool's jobs exactly when each of its buckets averages at least
      half a hundredth: a smaller bucket rounds to zero and is left out. */
  lemma {:induction false} WeightIsCompleteIff(items: seq<Item>, rows: seq<JobRow>, tool: string)
    requires forall i | 0 <= i < |items| :: FromBucket(items[i], rows)
    ensures var r := ToolRoll(items, tool);
            && 0 <= r.memoryWeight <= r.jobs
            && (r.memoryWeight == r.jobs <==>
                  forall i | 0 <= i < |items| && items[i].key.tool == tool :: Enough(BucketOf(rows, items[i].key)))
  {
    hide BucketOf, Enough, DailyOf, Positive, FromBucket;
    if items != [] {
      var n := |items| - 1;
      WeightIsCompleteIff(items[..n], rows, tool);
      ItemWeight(items[n], rows);
      assert forall i | 0 <= i < n :: items[..n][i] == items[i];
    }
  }

  const IDLE := JobRow(Some(1), Some("u"), "t", Some(0.001), None, None)
  const BUSY := JobRow(Some(2), Some("u"), "t", Some(1.0), None, None)

  function DailyItem(rows: seq<JobRow>, k: StatKey): Item {
    Item(k, DailyOf(BucketOf(rows, k)))
  }

  /** One idle job on one day and one busy job on another: the rollup reports the busy job's memory as
      the mean, almost twice the exact one. */
  lemma SmallBucketsBiasTheMean()
    ensures var items := [DailyItem([IDLE, BUSY], StatKey(1, "u", "t")), DailyItem([IDLE, BUSY], StatKey(2, "u", "t"))];
            AvgOf(ToolRoll(items, "t")) == Some(1.0)
    ensures Count([IDLE, BUSY], Some("t")) == 2 && Mean([IDLE, BUSY], Some("t")) == 0.5005
  {
    TwoRows(IDLE, BUSY);
    hide BucketOf, Count, Total, ToolRoll, KeyOf, DailyOf, Round2;
    TwoBuckets(IDLE, BUSY, StatKey(1, "u", "t"), StatKey(2, "u", "t"));
    SingleDaily(0.001);
    SingleDaily(1.0);
    RoundedEnds();
    TwoItems(DailyItem([IDLE, BUSY], StatKey(1, "u", "t")), DailyItem([IDLE, BUSY], StatKey(2, "u", "t")));
  }

  lemma RoundedEnds()
    ensures Round2(1.0) == 1.0 && Round2(0.001) == 0.0
  {
  }

  lemma TwoItems(i: Item, j: Item)
    requires i.key.tool == j.key.tool && i.daily.jobs == 1 == j.daily.jobs
    requires i.daily.avgMemory == Some(0.0) == i.daily.maxMemory
    requires j.daily.avgMemory == Some(1.0) == j.daily.maxMemory
    ensures AvgOf(ToolRoll([i, j], i.key.tool)) == Some(1.0)
  {
    assert [i, j][..1] == [i] && [i][..0] == [];
    var first := ToolRoll([i], i.key.tool);
    assert ToolRoll([], i.key.tool) == EMPTY_ROLL && |[i]| == 1 && [i][0] == i;
    assert first == Merge(EMPTY_ROLL, i.daily.jobs, FiguresOf(i.daily));
    assert first.jobs == 1 && first.memoryTotal == 0.0 && first.memoryWeight == 0;
    var both := ToolRoll([i, j], i.key.tool);
    assert both.memoryTotal == 1.0 && both.memoryWeight == 1;
  }

  lemma TwoBuckets(x: JobRow, y: JobRow, k: StatKey, l: StatKey)
    requires k != l && x.memory.Some? && y.memory.Some?
    requires x.date == Some(k.date) && x.userId == Some(k.userId) && x.tool == k.tool
    requires y.date == Some(l.date) && y.userId == Some(l.userId) && y.tool == l.tool
    requires x.cpu == y.cpu == x.runtime == y.runtime == None
    ensures BucketOf([x, y], k) == Bucket(1, x.memory.value, [x.memory.value], 0.0, 0.0)
    ensures BucketOf([x, y], l) == Bucket(1, y.memory.value, [y.memory.value], 0.0, 0.0)
  {
    assert [x, y][..1] == [x] && [x][..0] == [];
    assert BucketOf([x], k) == AddRow(EMPTY, x) && BucketOf([x], l) == EMPTY;
  }

  lemma TwoRows(x: JobRow, y: JobRow)
    requires x.tool == y.tool && Counts(x) && Counts(y)
    ensures Count([x, y], Some(x.tool)) == 2 && Total([x, y], Some(x.tool), Memory) == x.memory.value + y.memory.value
  {
    assert [x, y][..1] == [x] && [x][..0] == [];
    assert Count([x], Some(x.tool)) == 1 && Total([x], Some(x.tool), Memory) == x.memory.value;
  }

  lemma SingleDaily(x: real)
    ensures var d := DailyOf(Bucket(1, x, [x], 0.0, 0.0));
            d.jobs == 1 && d.avgMemory == Some(Round2(x)) && d.maxMemory == Some(Round2(x))
  {
    hide Round2, Median;
    assert x / 1.0 == x;
  }
}
