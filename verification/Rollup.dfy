/** Rolling rounded daily rows up into per-tool and overall figures, and the exact figures of the raw rows they
    are compared with. */
module Rollup {
  import opened Common
  import opened DailyStats
  import opened Sorting

  /** The running sums of one rollup. */
  datatype Roll = Roll(
    jobs: int,
    memoryTotal: real, memoryWeight: int, maxMemory: Option<real>,
    medianTotal: real, medianWeight: int,
    cpuTotal: real, cpuWeight: int,
    runtimeTotal: real, runtimeWeight: int)

  const EMPTY_ROLL := Roll(0, 0.0, 0, None, 0.0, 0, 0.0, 0, 0.0, 0)

  /** The averages merged into a rollup. */
  datatype Figures = Figures(avgMemory: Option<real>, maxMemory: Option<real>, medianMemory: Option<real>,
                             avgCpu: Option<real>, avgRuntime: Option<real>)

  function FiguresOf(d: Daily): Figures {
    Figures(d.avgMemory, d.maxMemory, d.medianMemory, d.avgCpu, d.avgRuntime)
  }

  function LargerOf(current: Option<real>, x: real): Option<real> {
    if current.None? then Some(x) else Some(if x > current.value then x else current.value)
  }

  /** Adding a weighted value to a total; nothing for a value that is not positive. */
  function Weighted(total: real, x: Option<real>, jobs: int): real {
    if Positive(x).Some? then total + x.value * jobs as real else total
  }

  function Weight(weight: int, x: Option<real>, jobs: int): int {
    if Positive(x).Some? then weight + jobs else weight
  }

  /** _merge_daily_row */
  function Merge(r: Roll, jobs: int, f: Figures): Roll {
    if jobs <= 0 then r
    else
      Roll(r.jobs + jobs,
           Weighted(r.memoryTotal, f.avgMemory, jobs), Weight(r.memoryWeight, f.avgMemory, jobs),
           if Positive(f.maxMemory).Some? then LargerOf(r.maxMemory, f.maxMemory.value) else r.maxMemory,
           Weighted(r.medianTotal, f.medianMemory, jobs), Weight(r.medianWeight, f.medianMemory, jobs),
           Weighted(r.cpuTotal, f.avgCpu, jobs), Weight(r.cpuWeight, f.avgCpu, jobs),
           Weighted(r.runtimeTotal, f.avgRuntime, jobs), Weight(r.runtimeWeight, f.avgRuntime, jobs))
  }

  /** The rollup of one tool's daily rows. */
  function ToolRoll(items: seq<Item>, tool: string): Roll {
    if items == [] then EMPTY_ROLL
    else
      var n := |items| - 1;
      var r := ToolRoll(items[..n], tool);
      if items[n].key.tool == tool then Merge(r, items[n].daily.jobs, FiguresOf(items[n].daily)) else r
  }

  function Quotient(total: real, weight: int): Option<real> {
    if weight <= 0 then None else Some(total / weight as real)
  }

  function AvgOf(r: Roll): Option<real> {
    Quotient(r.memoryTotal, r.memoryWeight)
  }

  /** The figures reported for a rollup. */
  function Reported(r: Roll): Figures {
    Figures(AvgOf(r), r.maxMemory, Quotient(r.medianTotal, r.medianWeight), Quotient(r.cpuTotal, r.cpuWeight),
            Quotient(r.runtimeTotal, r.runtimeWeight))
  }

  /** The summary _build_analysis_response merges from the rollups of these tools. */
  function Summary(items: seq<Item>, tools: seq<string>): Roll {
    if tools == [] then EMPTY_ROLL
    else
      var n := |tools| - 1;
      var s, r := Summary(items, tools[..n]), ToolRoll(items, tools[n]);
      if r.jobs <= 0 && r.memoryWeight <= 0 then s else Merge(s, r.jobs, Reported(r))
  }

  /** The jobs of the tool's daily rows with a positive figure. */
  function JobsWith(items: seq<Item>, tool: string, figure: Daily -> Option<real>): int {
    if items == [] then 0
    else
      var n := |items| - 1;
      JobsWith(items[..n], tool, figure)
      + if items[n].key.tool == tool && Positive(figure(items[n].daily)).Some? then items[n].daily.jobs else 0
  }

  /** Those figures, each times the jobs of its row, added up. */
  function SumOf(items: seq<Item>, tool: string, figure: Daily -> Option<real>): real {
    if items == [] then 0.0
    else
      var n := |items| - 1;
      SumOf(items[..n], tool, figure)
      + if items[n].key.tool == tool && Positive(figure(items[n].daily)).Some?
        then figure(items[n].daily).value * items[n].daily.jobs as real else 0.0
  }

  function AvgMemoryOf(d: Daily): Option<real> { d.avgMemory }

  function MedianMemoryOf(d: Daily): Option<real> { d.medianMemory }

  function AvgCpuOf(d: Daily): Option<real> { d.avgCpu }

  function AvgRuntimeOf(d: Daily): Option<real> { d.avgRuntime }

  lemma {:induction false} MemorySums(items: seq<Item>, tool: string)
    requires forall i | 0 <= i < |items| :: items[i].daily.jobs > 0
    ensures ToolRoll(items, tool).memoryTotal == SumOf(items, tool, AvgMemoryOf)
    ensures ToolRoll(items, tool).memoryWeight == JobsWith(items, tool, AvgMemoryOf)
  {
    if items != [] {
      MemorySums(items[..|items| - 1], tool);
      hide Positive, LargerOf;
    }
  }

  lemma {:induction false} MedianSums(items: seq<Item>, tool: string)
    requires forall i | 0 <= i < |items| :: items[i].daily.jobs > 0
    ensures ToolRoll(items, tool).medianTotal == SumOf(items, tool, MedianMemoryOf)
    ensures ToolRoll(items, tool).medianWeight == JobsWith(items, tool, MedianMemoryOf)
  {
    if items != [] {
      MedianSums(items[..|items| - 1], tool);
      hide Positive, LargerOf;
    }
  }

  lemma {:induction false} CpuSums(items: seq<Item>, tool: string)
    requires forall i | 0 <= i < |items| :: items[i].daily.jobs > 0
    ensures ToolRoll(items, tool).cpuTotal == SumOf(items, tool, AvgCpuOf)
    ensures ToolRoll(items, tool).cpuWeight == JobsWith(items, tool, AvgCpuOf)
  {
    if items != [] {
      CpuSums(items[..|items| - 1], tool);
      hide Positive, LargerOf;
    }
  }

  lemma {:induction false} RuntimeSums(items: seq<Item>, tool: string)
    requires forall i | 0 <= i < |items| :: items[i].daily.jobs > 0
    ensures ToolRoll(items, tool).runtimeTotal == SumOf(items, tool, AvgRuntimeOf)
    ensures ToolRoll(items, tool).runtimeWeight == JobsWith(items, tool, AvgRuntimeOf)
  {
    if items != [] {
      RuntimeSums(items[..|items| - 1], tool);
      hide Positive, LargerOf;
    }
  }

  /** A rollup holds, of each figure, the weighted sum over the tool's daily rows that have it and the jobs of those. */
  lemma RollIsSums(items: seq<Item>, tool: string)
    requires forall i | 0 <= i < |items| :: items[i].daily.jobs > 0
    ensures var r := ToolRoll(items, tool);
            && r.memoryTotal == SumOf(items, tool, AvgMemoryOf) && r.memoryWeight == JobsWith(items, tool, AvgMemoryOf)
            && r.medianTotal == SumOf(items, tool, MedianMemoryOf)
            && r.medianWeight == JobsWith(items, tool, MedianMemoryOf)
            && r.cpuTotal == SumOf(items, tool, AvgCpuOf) && r.cpuWeight == JobsWith(items, tool, AvgCpuOf)
            && r.runtimeTotal == SumOf(items, tool, AvgRuntimeOf)
            && r.runtimeWeight == JobsWith(items, tool, AvgRuntimeOf)
  {
    hide ToolRoll, SumOf, JobsWith;
    MemorySums(items, tool);
    MedianSums(items, tool);
    CpuSums(items, tool);
    RuntimeSums(items, tool);
  }

  /** A reported figure times its weight is its sum; a figure without weight is null. */
  lemma ReportedIs(r: Roll)
    ensures var f := Reported(r);
            && IsQuotient(f.avgMemory, r.memoryTotal, r.memoryWeight) && f.maxMemory == r.maxMemory
            && IsQuotient(f.medianMemory, r.medianTotal, r.medianWeight)
            && IsQuotient(f.avgCpu, r.cpuTotal, r.cpuWeight)
            && IsQuotient(f.avgRuntime, r.runtimeTotal, r.runtimeWeight)
  {
  }

  predicate IsQuotient(q: Option<real>, total: real, weight: int) {
    (q.Some? <==> weight > 0) && (q.Some? ==> q.value * weight as real == total)
  }

  method AggregateDailyStatRows(items: seq<Item>) returns (tools: map<string, Roll>)
    ensures forall t :: t in tools <==> exists i | 0 <= i < |items| :: items[i].key.tool == t
    ensures forall t | t in tools :: tools[t] == ToolRoll(items, t)
  {
    hide Merge;
    tools := map[];
    for i := 0 to |items|
      invariant forall t :: t in tools <==> exists j | 0 <= j < i :: items[j].key.tool == t
      invariant forall t | t in tools :: tools[t] == ToolRoll(items[..i], t)
      invariant forall t | t !in tools :: ToolRoll(items[..i], t) == EMPTY_ROLL
    {
      assert items[..i + 1][..i] == items[..i];
      var tool, d := items[i].key.tool, items[i].daily;
      var roll := if tool in tools then tools[tool] else EMPTY_ROLL;
      tools := tools[tool := Merge(roll, d.jobs, FiguresOf(d))];
    }
    assert items[..|items|] == items;
  }

  /** One line of the tool breakdown. */
  datatype ToolLine = ToolLine(tool: string, jobs: int, figures: Figures)

  function Lines(items: seq<Item>, tools: seq<string>): seq<ToolLine> {
    if tools == [] then []
    else
      var n := |tools| - 1;
      var r := ToolRoll(items, tools[n]);
      Lines(items, tools[..n])
      + if r.jobs <= 0 && r.memoryWeight <= 0 then [] else [ToolLine(tools[n], r.jobs, Reported(r))]
  }

  /** More jobs first, then the tool's name. */
  predicate Busier(a: ToolLine, b: ToolLine) {
    a.jobs > b.jobs || (a.jobs == b.jobs && LexLe(a.tool, b.tool))
  }

  /** The breakdown has one line for each tool with jobs, with its jobs and figures, in the order of the tools. */
  lemma {:induction false} LinesAre(items: seq<Item>, tools: seq<string>) returns (origin: seq<nat>)
    requires forall i | 0 <= i < |items| :: items[i].daily.jobs > 0
    ensures var lines := Lines(items, tools);
            && |origin| == |lines|
            && (forall k | 0 <= k < |lines| ::
                  && origin[k] < |tools| && ToolRoll(items, tools[origin[k]]).jobs > 0
                  && lines[k] == ToolLine(tools[origin[k]], ToolRoll(items, tools[origin[k]]).jobs,
                                          Reported(ToolRoll(items, tools[origin[k]]))))
            && (forall j, k | 0 <= j < k < |lines| :: origin[j] < origin[k])
            && (forall i | 0 <= i < |tools| && ToolRoll(items, tools[i]).jobs > 0 :: i in origin)
  {
    hide ToolRoll, Reported, Lines;
    LinesNext(items, tools);
    if tools == [] {
      origin := [];
    } else {
      var n := |tools| - 1;
      origin := LinesAre(items, tools[..n]);
      assert forall i | 0 <= i < n :: tools[..n][i] == tools[i];
      WeightsWithinJobs(items, tools[n]);
      if ToolRoll(items, tools[n]).jobs > 0 {
        origin := origin + [n];
      }
    }
  }

  lemma LinesNext(items: seq<Item>, tools: seq<string>)
    ensures tools == [] ==> Lines(items, tools) == []
    ensures tools != [] ==>
              var n := |tools| - 1;
              var r := ToolRoll(items, tools[n]);
              Lines(items, tools) ==
              Lines(items, tools[..n])
              + if r.jobs <= 0 && r.memoryWeight <= 0 then [] else [ToolLine(tools[n], r.jobs, Reported(r))]
  {
  }

  lemma {:induction false} WeightsWithinJobs(items: seq<Item>, tool: string)
    requires forall i | 0 <= i < |items| :: items[i].daily.jobs > 0
    ensures 0 <= ToolRoll(items, tool).memoryWeight <= ToolRoll(items, tool).jobs
  {
    if items != [] {
      WeightsWithinJobs(items[..|items| - 1], tool);
      hide Positive, Weighted;
    }
  }

  /** A busier line has more jobs, or as many and a name no later in the alphabet. */
  lemma BusierIs(a: ToolLine, b: ToolLine)
    ensures Busier(a, b) ==> a.jobs >= b.jobs && (a.jobs == b.jobs ==> LexLe(a.tool, b.tool))
  {
  }

  lemma BusierIsTotal()
    ensures TotalPreorder(Busier)
  {
    forall a, b ensures Busier(a, b) || Busier(b, a) {
      LexLeTotal(a.tool, b.tool);
    }
    forall a, b, c | Busier(a, b) && Busier(b, c) ensures Busier(a, c) {
      if a.jobs == b.jobs == c.jobs {
        LexLeTransitive(a.tool, b.tool, c.tool);
      }
    }
  }

  /** _build_analysis_response on the tools in dictionary order: the merged totals, the breakdown in order, and the
      busiest tool, which no other tool beats. */
  method BuildAnalysisResponse(items: seq<Item>, tools: seq<string>)
    returns (summary: Roll, breakdown: seq<ToolLine>, busiest: Option<ToolLine>)
    ensures summary == Summary(items, tools)
    ensures multiset(breakdown) == multiset(Lines(items, tools)) && Ordered(breakdown, Busier)
    ensures busiest.None? <==> Lines(items, tools) == []
    ensures busiest.Some? ==>
              busiest.value in Lines(items, tools)
              && forall line | line in Lines(items, tools) :: line == busiest.value || Busier(busiest.value, line)
  {
    hide Merge, ToolRoll, Reported, Busier;
    summary := EMPTY_ROLL;
    var lines: seq<ToolLine> := [];
    for i := 0 to |tools|
      invariant summary == Summary(items, tools[..i])
      invariant lines == Lines(items, tools[..i])
    {
      assert tools[..i + 1][..i] == tools[..i];
      var values := ToolRoll(items, tools[i]);
      if values.jobs <= 0 && values.memoryWeight <= 0 {
        assert Lines(items, tools[..i + 1]) == lines;
        continue;
      }
      lines := lines + [ToolLine(tools[i], values.jobs, Reported(values))];
      summary := Merge(summary, values.jobs, Reported(values));
    }
    assert tools[..|tools|] == tools;
    breakdown := StableSort(lines, Busier);
    BusierIsTotal();
    StableSortOrdered(lines, Busier);
    busiest := if breakdown == [] then None else Some(breakdown[0]);
    if breakdown != [] {
      SortedFirst(lines, breakdown);
    }
  }

  lemma SortedFirst(lines: seq<ToolLine>, sorted: seq<ToolLine>)
    requires sorted != [] && multiset(sorted) == multiset(lines) && Ordered(sorted, Busier)
    ensures sorted[0] in lines
    ensures forall line | line in lines :: line == sorted[0] || Busier(sorted[0], line)
  {
    hide Busier;
    assert sorted[0] in multiset(lines);
    forall line | line in lines ensures line == sorted[0] || Busier(sorted[0], line) {
      assert line in multiset(sorted);
      var i :| 0 <= i < |sorted| && sorted[i] == line;
    }
  }

  // ---------- Exact figures of the raw rows ----------

  /** The averaged metrics. */
  datatype Metric = Memory | Cpu | Runtime

  predicate OfTool(row: JobRow, tool: Option<string>) {
    Counts(row) && (tool.Some? ==> row.tool == tool.value)
  }

  /** What a counted row adds to its bucket's total. */
  function RowMetric(row: JobRow, m: Metric): real
    requires Counts(row)
  {
    match m
    case Memory => row.memory.value
    case Cpu => Zero(Positive(row.cpu))
    case Runtime => Zero(Positive(row.runtime))
  }

  function MetricTotal(b: Bucket, m: Metric): real {
    match m case Memory => b.memoryTotal case Cpu => b.cpuTotal case Runtime => b.runtimeTotal
  }

  /** How many counted rows, of one tool or of all. */
  function Count(rows: seq<JobRow>, tool: Option<string>): nat {
    if rows == [] then 0
    else Count(rows[..|rows| - 1], tool) + if OfTool(rows[|rows| - 1], tool) then 1 else 0
  }

  /** A metric of theirs added up. */
  function Total(rows: seq<JobRow>, tool: Option<string>, m: Metric): real {
    if rows == [] then 0.0
    else
      var n := |rows| - 1;
      Total(rows[..n], tool, m) + if OfTool(rows[n], tool) then RowMetric(rows[n], m) else 0.0
  }

  // ---------- Bucket sums are row sums ----------

  predicate KeyMatches(k: StatKey, tool: Option<string>) {
    tool.Some? ==> k.tool == tool.value
  }

  function BucketJobs(keys: seq<StatKey>, rows: seq<JobRow>, tool: Option<string>): nat {
    if keys == [] then 0
    else
      var n := |keys| - 1;
      BucketJobs(keys[..n], rows, tool) + if KeyMatches(keys[n], tool) then BucketOf(rows, keys[n]).jobs else 0
  }

  function BucketMetric(keys: seq<StatKey>, rows: seq<JobRow>, tool: Option<string>, m: Metric): real {
    if keys == [] then 0.0
    else
      var n := |keys| - 1;
      BucketMetric(keys[..n], rows, tool, m)
      + if KeyMatches(keys[n], tool) then MetricTotal(BucketOf(rows, keys[n]), m) else 0.0
  }

  /** A counted row in one of these buckets. */
  predicate InBuckets(row: JobRow, keys: seq<StatKey>, tool: Option<string>) {
    OfTool(row, tool) && KeyOf(row).value in keys
  }

  function CountIn(rows: seq<JobRow>, keys: seq<StatKey>, tool: Option<string>): nat {
    if rows == [] then 0
    else CountIn(rows[..|rows| - 1], keys, tool) + if InBuckets(rows[|rows| - 1], keys, tool) then 1 else 0
  }

  function TotalIn(rows: seq<JobRow>, keys: seq<StatKey>, tool: Option<string>, m: Metric): real {
    if rows == [] then 0.0
    else
      TotalIn(rows[..|rows| - 1], keys, tool, m)
      + if InBuckets(rows[|rows| - 1], keys, tool) then RowMetric(rows[|rows| - 1], m) else 0.0
  }

  ghost predicate DistinctKeys(keys: seq<StatKey>) {
    forall i, j | 0 <= i < j < |keys| :: keys[i] != keys[j]
  }

  lemma BucketOneMoreRow(rows: seq<JobRow>, row: JobRow, k: StatKey, m: Metric)
    ensures var hit := Counts(row) && KeyOf(row) == Some(k);
            && BucketOf(rows + [row], k).jobs == BucketOf(rows, k).jobs + (if hit then 1 else 0)
            && MetricTotal(BucketOf(rows + [row], k), m) ==
               MetricTotal(BucketOf(rows, k), m) + (if hit then RowMetric(row, m) else 0.0)
  {
    assert (rows + [row])[..|rows|] == rows;
  }

  /** One more row changes exactly the sums of its own bucket. */
  lemma {:induction false} OneMoreRow(keys: seq<StatKey>, rows: seq<JobRow>, row: JobRow, tool: Option<string>,
                                      m: Metric)
    requires DistinctKeys(keys)
    ensures var hit := InBuckets(row, keys, tool);
            && BucketJobs(keys, rows + [row], tool) == BucketJobs(keys, rows, tool) + (if hit then 1 else 0)
            && BucketMetric(keys, rows + [row], tool, m) ==
               BucketMetric(keys, rows, tool, m) + (if hit then RowMetric(row, m) else 0.0)
  {
    hide BucketOf, RowMetric, MetricTotal;
    if keys != [] {
      var n := |keys| - 1;
      OneMoreRow(keys[..n], rows, row, tool, m);
      BucketOneMoreRow(rows, row, keys[n], m);
      assert forall k :: k in keys <==> k in keys[..n] || k == keys[n];
      assert keys[n] !in keys[..n];
    }
  }

  lemma {:induction false} NoRows(keys: seq<StatKey>, tool: Option<string>, m: Metric)
    ensures BucketJobs(keys, [], tool) == 0 && BucketMetric(keys, [], tool, m) == 0.0
  {
    if keys != [] {
      NoRows(keys[..|keys| - 1], tool, m);
    }
  }

  /** Summed over distinct buckets, jobs and metrics are those of the counted rows in the buckets. */
  lemma {:induction false} BucketSums(keys: seq<StatKey>, rows: seq<JobRow>, tool: Option<string>, m: Metric)
    requires DistinctKeys(keys)
    ensures BucketJobs(keys, rows, tool) == CountIn(rows, keys, tool)
    ensures BucketMetric(keys, rows, tool, m) == TotalIn(rows, keys, tool, m)
    decreases |rows|
  {
    hide InBuckets, RowMetric;
    if rows == [] {
      NoRows(keys, tool, m);
    } else {
      var front, row := rows[..|rows| - 1], rows[|rows| - 1];
      assert rows == front + [row];
      BucketSums(keys, front, tool, m);
      OneMoreRow(keys, front, row, tool, m);
    }
  }

  /** Buckets that catch every counted row of a tool catch all of its figures. */
  lemma {:induction false} AllIn(rows: seq<JobRow>, keys: seq<StatKey>, tool: Option<string>, m: Metric)
    requires forall i | 0 <= i < |rows| && OfTool(rows[i], tool) :: KeyOf(rows[i]).value in keys
    ensures CountIn(rows, keys, tool) == Count(rows, tool)
    ensures TotalIn(rows, keys, tool, m) == Total(rows, tool, m)
  {
    hide RowMetric;
    if rows != [] {
      var n := |rows| - 1;
      assert forall i | 0 <= i < n :: rows[..n][i] == rows[i];
      AllIn(rows[..n], keys, tool, m);
    }
  }
}
