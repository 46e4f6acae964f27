/** What the overall means are means of: the kept mean of each tool, weighted by all of the tool's jobs. */
module RollupOverall {
  import opened Common
  import opened DailyStats
  import opened Rollup
  import opened RollupBounds
  import opened RollupKept

  // ---------- Kept jobs of a tool ----------

  /** The tool's jobs in kept buckets. */
  ghost function KeptJobs(items: seq<Item>, rows: seq<JobRow>, tool: string, m: Metric): nat {
    CountIn(rows, KeptKeys(Keys(items), rows, m), Some(tool))
  }

  ghost function KeptTotal(items: seq<Item>, rows: seq<JobRow>, tool: string, m: Metric): real {
    TotalIn(rows, KeptKeys(Keys(items), rows, m), Some(tool), m)
  }

  /** The exact mean of the tool's kept jobs. */
  ghost function KeptMean(items: seq<Item>, rows: seq<JobRow>, tool: string, m: Metric): real
    requires KeptJobs(items, rows, tool, m) > 0
  {
    KeptTotal(items, rows, tool, m) / KeptJobs(items, rows, tool, m) as real
  }

  /** Every bucket of the tool is kept. */
  ghost predicate AllKept(items: seq<Item>, rows: seq<JobRow>, tool: string, m: Metric) {
    KeepsAll(Keys(items), rows, tool, m)
  }

  ghost predicate KeepsAll(keys: seq<StatKey>, rows: seq<JobRow>, tool: string, m: Metric) {
    forall i | 0 <= i < |keys| && keys[i].tool == tool :: EnoughOf(BucketOf(rows, keys[i]), m)
  }

  lemma KeepsNext(keys: seq<StatKey>, rows: seq<JobRow>, tool: string, m: Metric)
    requires keys != []
    ensures var front, k := keys[..|keys| - 1], keys[|keys| - 1];
            KeepsAll(keys, rows, tool, m) <==>
            KeepsAll(front, rows, tool, m) && (k.tool == tool ==> EnoughOf(BucketOf(rows, k), m))
  {
    hide BucketOf, EnoughOf;
    assert forall i | 0 <= i < |keys| - 1 :: keys[..|keys| - 1][i] == keys[i];
  }

  /** What one more key adds to the jobs of the kept buckets. */
  lemma KeptJobsNext(keys: seq<StatKey>, rows: seq<JobRow>, tool: string, m: Metric)
    requires keys != []
    ensures var front, k := keys[..|keys| - 1], keys[|keys| - 1];
            BucketJobs(KeptKeys(keys, rows, m), rows, Some(tool)) ==
            BucketJobs(KeptKeys(front, rows, m), rows, Some(tool))
            + if k.tool == tool && EnoughOf(BucketOf(rows, k), m) then BucketOf(rows, k).jobs else 0
  {
    var front, k := keys[..|keys| - 1], keys[|keys| - 1];
    var kept := KeptKeys(front, rows, m);
    hide BucketOf, EnoughOf, BucketJobs, DistinctKeys;
    BucketNext(kept, k, rows, Some(tool), m);
    assert kept + [] == kept;
  }

  lemma {:induction false} KeptBuckets(keys: seq<StatKey>, rows: seq<JobRow>, tool: string, m: Metric)
    requires forall i | 0 <= i < |keys| :: BucketOf(rows, keys[i]).jobs > 0
    ensures var kept, all := BucketJobs(KeptKeys(keys, rows, m), rows, Some(tool)), BucketJobs(keys, rows, Some(tool));
            kept <= all && (kept == all <==> KeepsAll(keys, rows, tool, m))
  {
    if keys != [] {
      hide BucketOf, EnoughOf, KeptKeys, KeepsAll;
      KeptBuckets(keys[..|keys| - 1], rows, tool, m);
      KeptJobsNext(keys, rows, tool, m);
      KeepsNext(keys, rows, tool, m);
    }
  }

  lemma BucketsHaveJobs(items: seq<Item>, rows: seq<JobRow>)
    requires forall i | 0 <= i < |items| :: FromBucket(items[i], rows)
    ensures forall i | 0 <= i < |Keys(items)| :: BucketOf(rows, Keys(items)[i]).jobs > 0
  {
    hide BucketOf, DailyOf;
  }

  /** A tool's kept jobs are all its jobs exactly when all its buckets are kept. */
  lemma KeptIsAllIff(items: seq<Item>, rows: seq<JobRow>, tool: string, m: Metric)
    requires AreDailyRows(items, rows)
    ensures KeptJobs(items, rows, tool, m) <= Count(rows, Some(tool))
    ensures KeptJobs(items, rows, tool, m) == Count(rows, Some(tool)) <==> AllKept(items, rows, tool, m)
  {
    DailyRowsFromBuckets(items, rows);
    BucketsHaveJobs(items, rows);
    hide AreDailyRows, BucketOf, FromBucket, KeepsAll, Keys, KeptKeys;
    KeptBuckets(Keys(items), rows, tool, m);
    BucketSums(KeptKeys(Keys(items), rows, m), rows, Some(tool), m);
    BucketSums(Keys(items), rows, Some(tool), m);
    AllIn(rows, Keys(items), Some(tool), m);
  }

  // ---------- A tool's rollup ----------

  lemma {:induction false} RollPositive(items: seq<Item>, tool: string, m: Metric)
    requires forall i | 0 <= i < |items| :: items[i].daily.jobs > 0
    ensures RollWeight(ToolRoll(items, tool), m) >= 0
    ensures RollWeight(ToolRoll(items, tool), m) > 0 ==> RollTotal(ToolRoll(items, tool), m) > 0.0
    ensures RollWeight(ToolRoll(items, tool), m) == 0 ==> RollTotal(ToolRoll(items, tool), m) == 0.0
  {
    if items != [] {
      var n := |items| - 1;
      var d := items[n].daily;
      RollPositive(items[..n], tool, m);
      hide Merge, FiguresOf, DailyMetric, RollTotal, RollWeight;
      MergedMetric(ToolRoll(items[..n], tool), d, m);
      if Positive(DailyMetric(d, m)).Some? {
        TimesOrder(0.0, DailyMetric(d, m).value, d.jobs as real);
      }
    } else {
      NothingRolled(m);
    }
  }

  lemma NothingRolled(m: Metric)
    ensures RollWeight(EMPTY_ROLL, m) == 0 && RollTotal(EMPTY_ROLL, m) == 0.0
  {
  }

  /** The average of a metric in a rollup's reported figures. */
  function ReportedOf(r: Roll, m: Metric): Option<real> {
    Quotient(RollTotal(r, m), RollWeight(r, m))
  }

  /** What a tool's reported mean is: positive, near its kept mean, and there exactly when it has kept jobs. */
  lemma ToolReports(items: seq<Item>, rows: seq<JobRow>, tool: string, m: Metric)
    requires AreDailyRows(items, rows)
    ensures var x := ReportedOf(ToolRoll(items, tool), m);
            && (Positive(x).Some? <==> KeptJobs(items, rows, tool, m) > 0)
            && (Positive(x).Some? ==>
                  KeptMean(items, rows, tool, m) - 0.005 <= x.value <= KeptMean(items, rows, tool, m) + 0.005)
  {
    ReportedMean(items, rows, tool, m);
    ItemsHaveJobs(items, rows);
    RollPositive(items, tool, m);
    hide AreDailyRows, ToolRoll, RollTotal, RollWeight, KeptKeys, Keys, CountIn, TotalIn;
    var r := ToolRoll(items, tool);
    if RollWeight(r, m) > 0 {
      var x := DivideBack(RollTotal(r, m), RollWeight(r, m));
      TimesOrder(0.0, x, RollWeight(r, m) as real);
    }
  }

  /** A tool's rollup counts the tool's jobs. */
  lemma ToolJobs(items: seq<Item>, rows: seq<JobRow>, tool: string)
    requires AreDailyRows(items, rows)
    ensures ToolRoll(items, tool).jobs == Count(rows, Some(tool))
  {
    DailyRowsFromBuckets(items, rows);
    hide AreDailyRows, BucketOf, FromBucket;
    RollJobs(items, rows, tool);
    BucketSums(Keys(items), rows, Some(tool), Memory);
    AllIn(rows, Keys(items), Some(tool), Memory);
  }

  lemma RollJobsNext(items: seq<Item>, tool: string)
    requires items != [] && items[|items| - 1].daily.jobs > 0
    ensures var front, item := items[..|items| - 1], items[|items| - 1];
            ToolRoll(items, tool).jobs ==
            ToolRoll(front, tool).jobs + if item.key.tool == tool then item.daily.jobs else 0
  {
    hide FiguresOf, Weighted, Weight;
  }

  lemma BucketJobsNext(items: seq<Item>, rows: seq<JobRow>, tool: string)
    requires items != []
    ensures var front, item := items[..|items| - 1], items[|items| - 1];
            BucketJobs(Keys(items), rows, Some(tool)) ==
            BucketJobs(Keys(front), rows, Some(tool))
            + if item.key.tool == tool then BucketOf(rows, item.key).jobs else 0
  {
    hide BucketOf;
    assert Keys(items)[..|items| - 1] == Keys(items[..|items| - 1]);
  }

  lemma {:induction false} RollJobs(items: seq<Item>, rows: seq<JobRow>, tool: string)
    requires forall i | 0 <= i < |items| :: FromBucket(items[i], rows)
    ensures ToolRoll(items, tool).jobs == BucketJobs(Keys(items), rows, Some(tool))
  {
    if items != [] {
      hide BucketOf, FromBucket, ToolRoll, Keys, DailyOf, BucketJobs;
      RollJobs(items[..|items| - 1], rows, tool);
      FromBucketIs(items[|items| - 1], rows);
      RollJobsNext(items, tool);
      BucketJobsNext(items, rows, tool);
    } else {
      NoJobsRolled(tool);
    }
  }

  lemma NoJobsRolled(tool: string)
    ensures ToolRoll([], tool).jobs == 0
  {
  }

  // ---------- All tools ----------

  /** What a tool weighs in the overall mean: all its jobs when it has a kept one. */
  ghost function ToolWeight(items: seq<Item>, rows: seq<JobRow>, tool: string, m: Metric): nat {
    if KeptJobs(items, rows, tool, m) > 0 then Count(rows, Some(tool)) else 0
  }

  ghost function ToolWeighed(items: seq<Item>, rows: seq<JobRow>, tool: string, m: Metric): real {
    if KeptJobs(items, rows, tool, m) > 0 then KeptMean(items, rows, tool, m) * Count(rows, Some(tool)) as real else 0.0
  }

  /** All jobs of the tools with a kept bucket. */
  ghost function WeighedJobs(items: seq<Item>, rows: seq<JobRow>, tools: seq<string>, m: Metric): nat {
    if tools == [] then 0
    else WeighedJobs(items, rows, tools[..|tools| - 1], m) + ToolWeight(items, rows, tools[|tools| - 1], m)
  }

  /** The kept means of these tools, each times all of the tool's jobs. */
  ghost function WeighedTotal(items: seq<Item>, rows: seq<JobRow>, tools: seq<string>, m: Metric): real {
    if tools == [] then 0.0
    else WeighedTotal(items, rows, tools[..|tools| - 1], m) + ToolWeighed(items, rows, tools[|tools| - 1], m)
  }

  /** The jobs of these tools in kept buckets. */
  ghost function RemainingJobs(items: seq<Item>, rows: seq<JobRow>, tools: seq<string>, m: Metric): nat {
    if tools == [] then 0
    else RemainingJobs(items, rows, tools[..|tools| - 1], m) + KeptJobs(items, rows, tools[|tools| - 1], m)
  }

  ghost function RemainingTotal(items: seq<Item>, rows: seq<JobRow>, tools: seq<string>, m: Metric): real {
    if tools == [] then 0.0
    else RemainingTotal(items, rows, tools[..|tools| - 1], m) + KeptTotal(items, rows, tools[|tools| - 1], m)
  }

  /** A rollup with a value of this many jobs merged in, or the same totals when the value is not positive. */
  ghost predicate Adds(s: Roll, t: Roll, x: Option<real>, n: int, m: Metric) {
    if Positive(x).Some? then
      RollWeight(t, m) == RollWeight(s, m) + n && RollTotal(t, m) == RollTotal(s, m) + x.value * n as real
    else RollWeight(t, m) == RollWeight(s, m) && RollTotal(t, m) == RollTotal(s, m)
  }

  lemma MergedReport(s: Roll, r: Roll, m: Metric)
    requires r.jobs > 0
    ensures Adds(s, Merge(s, r.jobs, Reported(r)), ReportedOf(r, m), r.jobs, m)
  {
    hide Quotient;
  }

  lemma SummaryNext(items: seq<Item>, tools: seq<string>, m: Metric)
    requires tools != [] && forall i | 0 <= i < |items| :: items[i].daily.jobs > 0
    ensures var n := |tools| - 1;
            var r := ToolRoll(items, tools[n]);
            Adds(Summary(items, tools[..n]), Summary(items, tools), ReportedOf(r, m), r.jobs, m)
  {
    hide ToolRoll, Merge, ReportedOf, RollWeight, RollTotal;
    var n := |tools| - 1;
    var r := ToolRoll(items, tools[n]);
    RollHasJobs(items, tools[n]);
    if r.jobs > 0 {
      MergedReport(Summary(items, tools[..n]), r, m);
    } else {
      NothingReported(m);
    }
  }

  lemma NothingReported(m: Metric)
    ensures Positive(ReportedOf(EMPTY_ROLL, m)) == None && EMPTY_ROLL.memoryWeight == 0
  {
  }

  lemma Closer(x: real, y: real, n: int)
    requires n > 0 && y - 0.005 <= x <= y + 0.005
    ensures WithinHalf(x, n, y * n as real)
  {
    Scale(x, y, x * n as real, y * n as real, 0.005, n as real);
  }

  /** A rollup has this weight and, up to rounding, this total. */
  ghost predicate WeighedBound(r: Roll, jobs: int, total: real, m: Metric) {
    RollWeight(r, m) == jobs && Near(RollTotal(r, m), total, 0.005, jobs as real)
  }

  /** A value near what a tool weighs, or nothing for a tool that weighs nothing. */
  ghost predicate Weighs(x: Option<real>, n: int, weight: int, total: real) {
    if Positive(x).Some? then x.Some? && n == weight && WithinHalf(x.value, n, total) else weight == 0 && total == 0.0
  }

  lemma BoundNext(s: Roll, t: Roll, jobs: int, total: real, x: Option<real>, n: int, weight: int, more: real, m: Metric)
    requires WeighedBound(s, jobs, total, m) && Weighs(x, n, weight, more) && Adds(s, t, x, n, m)
    ensures WeighedBound(t, jobs + weight, total + more, m)
  {
    hide RollWeight, RollTotal, Near, WithinHalf;
    if Positive(x).Some? {
      NearSum(RollTotal(s, m), total, jobs, x.value, n, more);
    }
  }

  /** What one tool adds to the totals of a summary, against what it weighs. */
  lemma ToolAdds(items: seq<Item>, rows: seq<JobRow>, tool: string, m: Metric)
    requires AreDailyRows(items, rows)
    ensures var r := ToolRoll(items, tool);
            Weighs(ReportedOf(r, m), r.jobs, ToolWeight(items, rows, tool, m), ToolWeighed(items, rows, tool, m))
  {
    hide AreDailyRows, ToolRoll, ReportedOf, KeptJobs, KeptMean, Count, WithinHalf, Positive, AllKept;
    ToolReports(items, rows, tool, m);
    if KeptJobs(items, rows, tool, m) > 0 {
      ToolJobs(items, rows, tool);
      KeptIsAllIff(items, rows, tool, m);
      PositiveIs(ReportedOf(ToolRoll(items, tool), m));
      var x, y, n := ReportedOf(ToolRoll(items, tool), m).value, KeptMean(items, rows, tool, m),
        Count(rows, Some(tool));
      Closer(x, y, n);
      assert ToolWeighed(items, rows, tool, m) == y * n as real;
    }
  }

  lemma WeighedNext(items: seq<Item>, rows: seq<JobRow>, tools: seq<string>, m: Metric)
    requires tools != []
    ensures var front, tool := tools[..|tools| - 1], tools[|tools| - 1];
            && WeighedJobs(items, rows, tools, m) ==
               WeighedJobs(items, rows, front, m) + ToolWeight(items, rows, tool, m)
            && WeighedTotal(items, rows, tools, m) ==
               WeighedTotal(items, rows, front, m) + ToolWeighed(items, rows, tool, m)
  {
  }

  lemma WeighedStep(items: seq<Item>, rows: seq<JobRow>, tools: seq<string>, m: Metric)
    requires AreDailyRows(items, rows) && tools != []
    requires var front := tools[..|tools| - 1];
             WeighedBound(Summary(items, front), WeighedJobs(items, rows, front, m),
                          WeighedTotal(items, rows, front, m), m)
    ensures WeighedBound(Summary(items, tools), WeighedJobs(items, rows, tools, m),
                         WeighedTotal(items, rows, tools, m), m)
  {
    var n := |tools| - 1;
    var front, r := tools[..n], ToolRoll(items, tools[n]);
    hide AreDailyRows, Summary, ToolRoll, RollWeight, RollTotal, ReportedOf, WeighedBound, Weighs, Adds, ToolWeight,
      ToolWeighed, WeighedJobs, WeighedTotal;
    WeighedNext(items, rows, tools, m);
    ItemsHaveJobs(items, rows);
    SummaryNext(items, tools, m);
    ToolAdds(items, rows, tools[n], m);
    BoundNext(Summary(items, front), Summary(items, tools), WeighedJobs(items, rows, front, m),
              WeighedTotal(items, rows, front, m), ReportedOf(r, m), r.jobs, ToolWeight(items, rows, tools[n], m),
              ToolWeighed(items, rows, tools[n], m), m);
  }

  lemma PositiveIs(x: Option<real>)
    ensures Positive(x).Some? ==> x.Some? && x.value > 0.0
  {
  }

  lemma {:induction false} SummaryWeighs(items: seq<Item>, rows: seq<JobRow>, tools: seq<string>, m: Metric)
    requires AreDailyRows(items, rows)
    ensures WeighedBound(Summary(items, tools), WeighedJobs(items, rows, tools, m),
                         WeighedTotal(items, rows, tools, m), m)
  {
    if tools == [] {
      NothingWeighed(items, rows, m);
    } else {
      hide AreDailyRows, WeighedBound, Summary, WeighedJobs, WeighedTotal;
      SummaryWeighs(items, rows, tools[..|tools| - 1], m);
      WeighedStep(items, rows, tools, m);
    }
  }

  lemma NothingWeighed(items: seq<Item>, rows: seq<JobRow>, m: Metric)
    ensures WeighedBound(Summary(items, []), WeighedJobs(items, rows, [], m), WeighedTotal(items, rows, [], m), m)
  {
    NothingRolled(m);
  }

  /** The overall mean of every metric, with no condition: its weight is all jobs of the tools with a kept bucket, and
      it is within half a hundredth of those tools' exact kept means, each weighted by all of the tool's jobs. */
  lemma OverallMean(items: seq<Item>, rows: seq<JobRow>, tools: seq<string>, m: Metric)
    requires AreDailyRows(items, rows)
    ensures var s, jobs := Summary(items, tools), WeighedJobs(items, rows, tools, m);
            && RollWeight(s, m) == jobs
            && (jobs == 0 ==> ReportedOf(s, m) == None)
            && (jobs > 0 ==>
                  var exact := WeighedTotal(items, rows, tools, m) / jobs as real;
                  ReportedOf(s, m).Some? && exact - 0.005 <= ReportedOf(s, m).value <= exact + 0.005)
  {
    SummaryWeighs(items, rows, tools, m);
    hide AreDailyRows, Summary, RollTotal, RollWeight, Near, WeighedTotal, WeighedJobs;
    var jobs := WeighedJobs(items, rows, tools, m);
    if jobs > 0 {
      QuotientNear(RollTotal(Summary(items, tools), m), WeighedTotal(items, rows, tools, m), jobs);
    }
  }

  /** No listed tool has both a kept bucket and one left out. */
  ghost predicate NoMixedTool(items: seq<Item>, rows: seq<JobRow>, tools: seq<string>, m: Metric) {
    forall i | 0 <= i < |tools| && KeptJobs(items, rows, tools[i], m) > 0 :: AllKept(items, rows, tools[i], m)
  }

  lemma NoMixedNext(items: seq<Item>, rows: seq<JobRow>, tools: seq<string>, m: Metric)
    requires tools != []
    ensures var n := |tools| - 1;
            NoMixedTool(items, rows, tools, m) <==>
            && NoMixedTool(items, rows, tools[..n], m)
            && (KeptJobs(items, rows, tools[n], m) > 0 ==> AllKept(items, rows, tools[n], m))
  {
    hide KeptJobs, AllKept;
    assert forall i | 0 <= i < |tools| - 1 :: tools[..|tools| - 1][i] == tools[i];
  }

  lemma MeanTimes(total: real, n: int)
    requires n > 0
    ensures total / n as real * n as real == total
  {
  }

  /** What a tool weighs against what remains of it. */
  lemma ToolWeighs(items: seq<Item>, rows: seq<JobRow>, tool: string, m: Metric)
    requires AreDailyRows(items, rows)
    ensures KeptJobs(items, rows, tool, m) <= ToolWeight(items, rows, tool, m)
    ensures KeptJobs(items, rows, tool, m) == ToolWeight(items, rows, tool, m) <==>
            (KeptJobs(items, rows, tool, m) > 0 ==> AllKept(items, rows, tool, m))
    ensures KeptJobs(items, rows, tool, m) == ToolWeight(items, rows, tool, m) ==>
              ToolWeighed(items, rows, tool, m) == KeptTotal(items, rows, tool, m)
  {
    hide AreDailyRows, KeptJobs, KeptTotal, AllKept, Count;
    KeptIsAllIff(items, rows, tool, m);
    NoKeptNoTotal(items, rows, tool, m);
    if KeptJobs(items, rows, tool, m) > 0 {
      MeanTimes(KeptTotal(items, rows, tool, m), KeptJobs(items, rows, tool, m));
    }
  }

  /** The overall weight is that of the remaining jobs exactly when no tool is mixed; the overall mean is then taken
      over the remaining jobs. */
  lemma {:induction false} WeighsRemainingIff(items: seq<Item>, rows: seq<JobRow>, tools: seq<string>, m: Metric)
    requires AreDailyRows(items, rows)
    ensures RemainingJobs(items, rows, tools, m) <= WeighedJobs(items, rows, tools, m)
    ensures WeighedJobs(items, rows, tools, m) == RemainingJobs(items, rows, tools, m) <==>
            NoMixedTool(items, rows, tools, m)
    ensures NoMixedTool(items, rows, tools, m) ==>
              WeighedTotal(items, rows, tools, m) == RemainingTotal(items, rows, tools, m)
  {
    if tools != [] {
      var n := |tools| - 1;
      hide AreDailyRows, KeptJobs, KeptTotal, AllKept, NoMixedTool, ToolWeight, ToolWeighed;
      WeighsRemainingIff(items, rows, tools[..n], m);
      NoMixedNext(items, rows, tools, m);
      ToolWeighs(items, rows, tools[n], m);
    } else {
      NothingRemains(items, rows, m);
    }
  }

  lemma NothingRemains(items: seq<Item>, rows: seq<JobRow>, m: Metric)
    ensures WeighedJobs(items, rows, [], m) == RemainingJobs(items, rows, [], m) == 0
    ensures WeighedTotal(items, rows, [], m) == RemainingTotal(items, rows, [], m)
    ensures NoMixedTool(items, rows, [], m)
  {
  }

  lemma {:induction false} NoneInNoTotal(rows: seq<JobRow>, keys: seq<StatKey>, tool: Option<string>, m: Metric)
    ensures CountIn(rows, keys, tool) == 0 ==> TotalIn(rows, keys, tool, m) == 0.0
  {
    if rows != [] {
      NoneInNoTotal(rows[..|rows| - 1], keys, tool, m);
    }
  }

  lemma NoKeptNoTotal(items: seq<Item>, rows: seq<JobRow>, tool: string, m: Metric)
    ensures KeptJobs(items, rows, tool, m) == 0 ==> KeptTotal(items, rows, tool, m) == 0.0
  {
    NoneInNoTotal(rows, KeptKeys(Keys(items), rows, m), Some(tool), m);
  }

  // ---------- The remaining jobs, counted from the rows ----------

  lemma {:induction false} RemainingOneMore(rows: seq<JobRow>, keys: seq<StatKey>, row: JobRow,
                                            tools: seq<string>, m: Metric)
    requires forall i, j | 0 <= i < j < |tools| :: tools[i] != tools[j]
    ensures var hit := InBuckets(row, keys, None) && row.tool in tools;
            && CountOver(rows + [row], keys, tools) == CountOver(rows, keys, tools) + (if hit then 1 else 0)
            && TotalOver(rows + [row], keys, tools, m) ==
               TotalOver(rows, keys, tools, m) + (if hit then RowMetric(row, m) else 0.0)
  {
    if tools != [] {
      var n := |tools| - 1;
      hide RowMetric;
      RemainingOneMore(rows, keys, row, tools[..n], m);
      assert (rows + [row])[..|rows|] == rows;
      assert row.tool in tools <==> row.tool in tools[..n] || row.tool == tools[n];
    }
  }

  function CountOver(rows: seq<JobRow>, keys: seq<StatKey>, tools: seq<string>): nat {
    if tools == [] then 0
    else CountOver(rows, keys, tools[..|tools| - 1]) + CountIn(rows, keys, Some(tools[|tools| - 1]))
  }

  function TotalOver(rows: seq<JobRow>, keys: seq<StatKey>, tools: seq<string>, m: Metric): real {
    if tools == [] then 0.0
    else TotalOver(rows, keys, tools[..|tools| - 1], m) + TotalIn(rows, keys, Some(tools[|tools| - 1]), m)
  }

  lemma {:induction false} NothingOver(keys: seq<StatKey>, tools: seq<string>, m: Metric)
    ensures CountOver([], keys, tools) == 0 && TotalOver([], keys, tools, m) == 0.0
  {
    if tools != [] {
      NothingOver(keys, tools[..|tools| - 1], m);
    }
  }

  lemma {:induction false} OverAll(rows: seq<JobRow>, keys: seq<StatKey>, tools: seq<string>, m: Metric)
    requires ListsTools(tools, rows)
    ensures CountOver(rows, keys, tools) == CountIn(rows, keys, None)
    ensures TotalOver(rows, keys, tools, m) == TotalIn(rows, keys, None, m)
    decreases |rows|
  {
    if rows == [] {
      NothingOver(keys, tools, m);
    } else {
      var front, row := rows[..|rows| - 1], rows[|rows| - 1];
      assert rows == front + [row];
      hide RowMetric;
      OverAll(front, keys, tools, m);
      RemainingOneMore(front, keys, row, tools, m);
    }
  }

  lemma {:induction false} RemainingIsOver(items: seq<Item>, rows: seq<JobRow>, tools: seq<string>, m: Metric)
    ensures var kept := KeptKeys(Keys(items), rows, m);
            && RemainingJobs(items, rows, tools, m) == CountOver(rows, kept, tools)
            && RemainingTotal(items, rows, tools, m) == TotalOver(rows, kept, tools, m)
  {
    if tools != [] {
      RemainingIsOver(items, rows, tools[..|tools| - 1], m);
      hide KeptKeys, Keys, CountIn, TotalIn;
    }
  }

  /** Over tools that list all that occur: the overall weight is the number of all counted jobs in kept buckets exactly
      when no tool is mixed, and then the overall mean is within half a hundredth of those jobs' exact mean. */
  lemma OverallIsRemainingIff(items: seq<Item>, rows: seq<JobRow>, tools: seq<string>, m: Metric)
    requires AreDailyRows(items, rows) && ListsTools(tools, rows)
    ensures var s, kept := Summary(items, tools), KeptKeys(Keys(items), rows, m);
            var jobs := CountIn(rows, kept, None);
            && (RollWeight(s, m) == jobs <==> NoMixedTool(items, rows, tools, m))
            && (NoMixedTool(items, rows, tools, m) && jobs > 0 ==>
                  var exact := TotalIn(rows, kept, None, m) / jobs as real;
                  ReportedOf(s, m).Some? && exact - 0.005 <= ReportedOf(s, m).value <= exact + 0.005)
  {
    hide AreDailyRows, Summary, RollTotal, RollWeight, WeighedTotal, WeighedJobs, RemainingJobs, RemainingTotal,
      CountOver, TotalOver, CountIn, TotalIn, KeptKeys, Keys, NoMixedTool, ReportedOf, ListsTools;
    OverallMean(items, rows, tools, m);
    WeighsRemainingIff(items, rows, tools, m);
    RemainingIsOver(items, rows, tools, m);
    OverAll(rows, KeptKeys(Keys(items), rows, m), tools, m);
  }

  /** The overall mean of a mixed tool: daily rows of one job each, of memory 0.0 and 1.0 for one tool and 4.0 for
      another, are reported as 2.0 where the two jobs in kept buckets average 2.5. */
  lemma MixedToolSkewsTheMean(x: Item, y: Item, z: Item)
    requires x.key.tool == y.key.tool != z.key.tool && x.daily.jobs == y.daily.jobs == z.daily.jobs == 1
    requires x.daily.avgMemory == Some(0.0) && y.daily.avgMemory == Some(1.0) && z.daily.avgMemory == Some(4.0)
    ensures AvgOf(Summary([x, y, z], [x.key.tool, z.key.tool])) == Some(2.0)
  {
    var items, t, u := [x, y, z], x.key.tool, z.key.tool;
    assert items[..2] == [x, y] && [x, y][..1] == [x] && [x][..0] == [];
    MixedRolls(x, y, z);
    hide ToolRoll;
    assert [t, u][..1] == [t] && [t][..0] == [];
    assert Summary([x, y, z], [t]) == Merge(EMPTY_ROLL, 2, Reported(ToolRoll(items, t)));
  }

  lemma RollOneMore(items: seq<Item>, item: Item, tool: string)
    requires item.daily.jobs == 1
    ensures ToolRoll(items + [item], tool) ==
            if item.key.tool == tool then Merge(ToolRoll(items, tool), 1, FiguresOf(item.daily))
            else ToolRoll(items, tool)
  {
    assert (items + [item])[..|items|] == items;
  }

  lemma MixedRolls(x: Item, y: Item, z: Item)
    requires x.key.tool == y.key.tool != z.key.tool && x.daily.jobs == y.daily.jobs == z.daily.jobs == 1
    requires x.daily.avgMemory == Some(0.0) && y.daily.avgMemory == Some(1.0) && z.daily.avgMemory == Some(4.0)
    ensures var a, b := ToolRoll([x, y, z], x.key.tool), ToolRoll([x, y, z], z.key.tool);
            && a.jobs == 2 && a.memoryTotal == 1.0 && a.memoryWeight == 1
            && b.jobs == 1 && b.memoryTotal == 4.0 && b.memoryWeight == 1
  {
    assert [x, y, z] == [] + [x] + [y] + [z];
    forall tool {:trigger ToolRoll([x, y, z], tool)}
      ensures var r1 := if x.key.tool == tool then Merge(EMPTY_ROLL, 1, FiguresOf(x.daily)) else EMPTY_ROLL;
              var r2 := if y.key.tool == tool then Merge(r1, 1, FiguresOf(y.daily)) else r1;
              ToolRoll([x, y, z], tool) == if z.key.tool == tool then Merge(r2, 1, FiguresOf(z.daily)) else r2
    {
      RollOneMore([], x, tool);
      RollOneMore([] + [x], y, tool);
      RollOneMore([] + [x] + [y], z, tool);
    }
  }
}
