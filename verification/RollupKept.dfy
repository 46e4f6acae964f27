/** What the rollup's means are means of, for every metric and whatever the buckets: a bucket whose daily average
    rounds to nothing is left out, and the reported mean is within half a hundredth of the exact mean of the rest. */
module RollupKept {
  import opened Common
  import opened DailyStats
  import opened Rollup
  import opened RollupBounds

  function DailyMetric(d: Daily, m: Metric): Option<real> {
    match m case Memory => d.avgMemory case Cpu => d.avgCpu case Runtime => d.avgRuntime
  }

  function RollTotal(r: Roll, m: Metric): real {
    match m case Memory => r.memoryTotal case Cpu => r.cpuTotal case Runtime => r.runtimeTotal
  }

  function RollWeight(r: Roll, m: Metric): int {
    match m case Memory => r.memoryWeight case Cpu => r.cpuWeight case Runtime => r.runtimeWeight
  }

  /** A bucket whose mean of the metric rounds to something positive. */
  predicate EnoughOf(b: Bucket, m: Metric) {
    b.jobs > 0 && MetricTotal(b, m) >= 0.005 * b.jobs as real
  }

  /** The keys of the buckets a metric's mean is taken over. */
  function KeptKeys(keys: seq<StatKey>, rows: seq<JobRow>, m: Metric): (kept: seq<StatKey>)
    ensures forall k :: k in kept <==> k in keys && EnoughOf(BucketOf(rows, k), m)
    ensures DistinctKeys(keys) ==> DistinctKeys(kept)
  {
    if keys == [] then []
    else
      var n := |keys| - 1;
      var front := KeptKeys(keys[..n], rows, m);
      assert forall k :: k in keys <==> k in keys[..n] || k == keys[n];
      assert DistinctKeys(keys) ==> keys[n] !in keys[..n];
      front + if EnoughOf(BucketOf(rows, keys[n]), m) then [keys[n]] else []
  }

  /** The daily average of a metric is the rounded bucket mean, which the rollup takes exactly when it is enough. */
  lemma MetricMean(b: Bucket, m: Metric)
    requires b.jobs > 0 && |b.memoryValues| == b.jobs
    ensures DailyMetric(DailyOf(b), m).Some? && (Positive(DailyMetric(DailyOf(b), m)).Some? <==> EnoughOf(b, m))
    ensures WithinHalf(DailyMetric(DailyOf(b), m).value, b.jobs, MetricTotal(b, m))
  {
    hide Median, MaxOf, Round2, WithinHalf;
    var x := DivideBack(MetricTotal(b, m), b.jobs);
    RoundedMean(MetricTotal(b, m), b.jobs, x);
  }

  lemma MergedMetric(r: Roll, d: Daily, m: Metric)
    requires d.jobs > 0
    ensures var s, x := Merge(r, d.jobs, FiguresOf(d)), DailyMetric(d, m);
            && RollWeight(s, m) == RollWeight(r, m) + (if Positive(x).Some? then d.jobs else 0)
            && RollTotal(s, m) == RollTotal(r, m) + (if Positive(x).Some? then x.value * d.jobs as real else 0.0)
  {
  }

  lemma BucketNext(keys: seq<StatKey>, k: StatKey, rows: seq<JobRow>, tool: Option<string>, m: Metric)
    ensures BucketJobs(keys + [k], rows, tool) ==
            BucketJobs(keys, rows, tool) + if KeyMatches(k, tool) then BucketOf(rows, k).jobs else 0
    ensures BucketMetric(keys + [k], rows, tool, m) ==
            BucketMetric(keys, rows, tool, m) + if KeyMatches(k, tool) then MetricTotal(BucketOf(rows, k), m) else 0.0
  {
    assert (keys + [k])[..|keys|] == keys;
  }

  lemma NearSum(x: real, y: real, j: int, avg: real, n: int, total: real)
    requires Near(x, y, 0.005, j as real) && WithinHalf(avg, n, total)
    ensures Near(x + avg * n as real, y + total, 0.005, (j + n) as real)
  {
    Distribute(0.005, j, n);
  }

  /** A rollup's weight and total are those of some buckets, up to rounding. */
  ghost predicate KeptBound(r: Roll, kept: seq<StatKey>, rows: seq<JobRow>, tool: string, m: Metric) {
    && RollWeight(r, m) == BucketJobs(kept, rows, Some(tool))
    && Near(RollTotal(r, m), BucketMetric(kept, rows, Some(tool), m), 0.005, RollWeight(r, m) as real)
  }

  lemma KeptNext(items: seq<Item>, rows: seq<JobRow>, m: Metric)
    requires items != []
    ensures var n := |items| - 1;
            KeptKeys(Keys(items), rows, m) ==
            KeptKeys(Keys(items[..n]), rows, m)
            + if EnoughOf(BucketOf(rows, items[n].key), m) then [items[n].key] else []
  {
    hide BucketOf, EnoughOf;
    assert Keys(items)[..|items| - 1] == Keys(items[..|items| - 1]);
  }

  lemma AddBucket(r: Roll, kept: seq<StatKey>, item: Item, rows: seq<JobRow>, m: Metric)
    requires KeptBound(r, kept, rows, item.key.tool, m) && FromBucket(item, rows)
    ensures KeptBound(Merge(r, item.daily.jobs, FiguresOf(item.daily)),
                      kept + if EnoughOf(BucketOf(rows, item.key), m) then [item.key] else [], rows, item.key.tool, m)
  {
    hide BucketOf, DailyOf, EnoughOf, Merge, MetricTotal, FromBucket, DailyMetric, WithinHalf, RollTotal, RollWeight,
      Near, BucketJobs, BucketMetric;
    var b := BucketOf(rows, item.key);
    FromBucketIs(item, rows);
    MetricMean(b, m);
    MergedMetric(r, item.daily, m);
    if EnoughOf(b, m) {
      BucketNext(kept, item.key, rows, Some(item.key.tool), m);
      NearSum(RollTotal(r, m), BucketMetric(kept, rows, Some(item.key.tool), m), RollWeight(r, m),
              DailyMetric(item.daily, m).value, item.daily.jobs, MetricTotal(b, m));
    } else {
      assert kept + [] == kept;
    }
  }

  lemma SkipBucket(r: Roll, kept: seq<StatKey>, k: StatKey, rows: seq<JobRow>, tool: string, m: Metric)
    requires KeptBound(r, kept, rows, tool, m) && k.tool != tool
    ensures KeptBound(r, kept + [k], rows, tool, m) && KeptBound(r, kept + [], rows, tool, m)
  {
    hide BucketOf, MetricTotal, RollTotal, RollWeight, Near, BucketJobs, BucketMetric;
    BucketNext(kept, k, rows, Some(tool), m);
    assert kept + [] == kept;
  }

  lemma {:induction false} RollIsKept(items: seq<Item>, rows: seq<JobRow>, tool: string, m: Metric)
    requires forall i | 0 <= i < |items| :: FromBucket(items[i], rows)
    ensures KeptBound(ToolRoll(items, tool), KeptKeys(Keys(items), rows, m), rows, tool, m)
  {
    if items != [] {
      var n := |items| - 1;
      hide BucketOf, EnoughOf, Merge, FromBucket, KeptBound, KeptKeys, Keys;
      RollIsKept(items[..n], rows, tool, m);
      KeptNext(items, rows, m);
      var front := KeptKeys(Keys(items[..n]), rows, m);
      if items[n].key.tool == tool {
        AddBucket(ToolRoll(items[..n], tool), front, items[n], rows, m);
      } else {
        SkipBucket(ToolRoll(items[..n], tool), front, items[n].key, rows, tool, m);
      }
    }
  }

  /** The quotient of two totals that are near per unit of weight is near too. */
  lemma QuotientNear(x: real, y: real, n: int)
    requires n > 0 && Near(x, y, 0.005, n as real)
    ensures y / n as real - 0.005 <= x / n as real <= y / n as real + 0.005
  {
    var a := DivideBack(x, n);
    var b := DivideBack(y, n);
    Scale(a, b, x, y, 0.005, n as real);
  }

  /** For every tool and metric, with no condition on the buckets: the weight counts exactly the tool's jobs in kept
      buckets, and the reported mean is within half a hundredth of the exact mean of those jobs. */
  lemma ReportedMean(items: seq<Item>, rows: seq<JobRow>, tool: string, m: Metric)
    requires AreDailyRows(items, rows)
    ensures var r, kept := ToolRoll(items, tool), KeptKeys(Keys(items), rows, m);
            var jobs := CountIn(rows, kept, Some(tool));
            && RollWeight(r, m) == jobs
            && (jobs == 0 ==> Quotient(RollTotal(r, m), RollWeight(r, m)) == None)
            && (jobs > 0 ==>
                  var exact := TotalIn(rows, kept, Some(tool), m) / jobs as real;
                  && Quotient(RollTotal(r, m), RollWeight(r, m)).Some?
                  && exact - 0.005 <= Quotient(RollTotal(r, m), RollWeight(r, m)).value <= exact + 0.005)
  {
    DailyRowsFromBuckets(items, rows);
    hide AreDailyRows, BucketOf, FromBucket, ToolRoll, RollTotal, RollWeight, Near;
    RollIsKept(items, rows, tool, m);
    var kept := KeptKeys(Keys(items), rows, m);
    BucketSums(kept, rows, Some(tool), m);
    var jobs := CountIn(rows, kept, Some(tool));
    if jobs > 0 {
      QuotientNear(RollTotal(ToolRoll(items, tool), m), TotalIn(rows, kept, Some(tool), m), jobs);
    }
  }

  /** When each of the tool's buckets averages enough of the metric, the mean is over all the tool's jobs. */
  lemma CompleteMean(items: seq<Item>, rows: seq<JobRow>, tool: string, m: Metric)
    requires AreDailyRows(items, rows)
    requires forall i | 0 <= i < |items| && items[i].key.tool == tool :: EnoughOf(BucketOf(rows, items[i].key), m)
    ensures var r := ToolRoll(items, tool);
            && RollWeight(r, m) == Count(rows, Some(tool))
            && (Count(rows, Some(tool)) > 0 ==>
                  var exact := Total(rows, Some(tool), m) / Count(rows, Some(tool)) as real;
                  && Quotient(RollTotal(r, m), RollWeight(r, m)).Some?
                  && exact - 0.005 <= Quotient(RollTotal(r, m), RollWeight(r, m)).value <= exact + 0.005)
  {
    ReportedMean(items, rows, tool, m);
    DailyRowsFromBuckets(items, rows);
    var kept := KeptKeys(Keys(items), rows, m);
    hide AreDailyRows, BucketOf, FromBucket, ToolRoll, RollTotal, RollWeight, EnoughOf, Quotient, Keys;
    forall i | 0 <= i < |rows| && OfTool(rows[i], Some(tool)) ensures KeyOf(rows[i]).value in kept {
      KeptOfTool(items, rows, tool, m, i);
    }
    AllIn(rows, kept, Some(tool), m);
  }

  lemma KeptOfTool(items: seq<Item>, rows: seq<JobRow>, tool: string, m: Metric, i: nat)
    requires i < |rows| && OfTool(rows[i], Some(tool)) && KeyOf(rows[i]).value in Keys(items)
    requires forall j | 0 <= j < |items| && items[j].key.tool == tool :: EnoughOf(BucketOf(rows, items[j].key), m)
    ensures KeyOf(rows[i]).value in KeptKeys(Keys(items), rows, m)
  {
    hide BucketOf, EnoughOf;
    var j :| 0 <= j < |Keys(items)| && Keys(items)[j] == KeyOf(rows[i]).value;
    assert items[j].key.tool == tool;
  }
}
