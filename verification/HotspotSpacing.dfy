/** When hotspot events of one series do not overlap in time, and the step the cluster query picks. */
module HotspotSpacing {
  import opened Common
  import opened Sorting
  import opened Hotspots

  /** The first instant after an event's stated duration, in milliseconds. */
  function Until(e: Event): int {
    e.start + 1000 * e.duration
  }

  function EventAt(s: seq<Sample>, r: Interval, step: int): Event
    requires r.lo <= r.hi < |s|
  {
    EventOf("", "", s, r, step)
  }

  /** No event of the series starts before an earlier one's duration is over. */
  ghost predicate NoOverlap(s: seq<Sample>, threshold: real, step: int) {
    var rs := RunsTo(s, threshold, step, |s|);
    forall j, k | 0 <= j < k < |rs| :: Until(EventAt(s, rs[j], step)) <= EventAt(s, rs[k], step).start
  }

  /** Samples two apart are at least a step apart. */
  ghost predicate Spaced(s: seq<Sample>, step: int) {
    forall i | 0 <= i < |s| - 2 :: s[i + 2].at - s[i].at >= 1000 * step
  }

  ghost predicate SameTimes(s: seq<Sample>, t: seq<Sample>) {
    |s| == |t| && forall i | 0 <= i < |s| :: s[i].at == t[i].at
  }

  lemma UntilBound(s: seq<Sample>, r: Interval, step: int)
    requires InTimeOrder(s) && r.lo <= r.hi < |s| && step > 0
    ensures Until(EventAt(s, r, step)) <= s[r.hi].at + 1000 * step
    ensures EventAt(s, r, step).duration >= step
  {
    assert s[r.lo].at <= s[r.hi].at;
    var d := s[r.hi].at - s[r.lo].at;
    assert 1000 * (d / 1000) <= d;
  }

  lemma SpacedSeries(s: seq<Sample>, threshold: real, step: int)
    requires InTimeOrder(s) && step > 0 && Spaced(s, step)
    ensures NoOverlap(s, threshold, step)
  {
    var rs := RunsTo(s, threshold, step, |s|);
    RunsToAreTheRuns(s, threshold, step, |s|);
    forall j, k | 0 <= j < k < |rs| ensures Until(EventAt(s, rs[j], step)) <= EventAt(s, rs[k], step).start {
      UntilBound(s, rs[j], step);
      ApartRuns(s, threshold, step, rs[j], rs[k]);
    }
  }

  lemma ApartRuns(s: seq<Sample>, threshold: real, step: int, q: Interval, r: Interval)
    requires InTimeOrder(s) && step > 0 && Spaced(s, step)
    requires IsMaximalRun(s, threshold, step, |s|, q) && IsMaximalRun(s, threshold, step, |s|, r)
    requires q.hi < r.lo
    ensures s[q.hi].at + 1000 * step <= s[r.lo].at
  {
    if r.lo == q.hi + 1 {
      assert IsHot(s[r.lo], threshold);
      assert GapBreak(s[q.hi], s[r.lo], step);
    } else {
      assert s[q.hi + 2].at - s[q.hi].at >= 1000 * step;
      assert s[q.hi + 2].at <= s[r.lo].at;
    }
  }

  /** Two hot samples around a cold one. */
  function Spike(s: seq<Sample>, threshold: real, i: nat): (t: seq<Sample>)
    ensures SameTimes(s, t)
  {
    seq(|s|, j requires 0 <= j < |s| => s[j].(value := if j == i || j == i + 2 then threshold else threshold - 1.0))
  }

  lemma CloseSpikesOverlap(s: seq<Sample>, threshold: real, step: int, i: nat)
    requires InTimeOrder(s) && step > 0 && i + 2 < |s|
    requires s[i + 2].at - s[i].at < 1000 * step
    ensures !NoOverlap(Spike(s, threshold, i), threshold, step)
  {
    hide RunsTo, IsMaximalRun, Spike, EventAt, Until, InTimeOrder;
    var t := Spike(s, threshold, i);
    var rs := RunsTo(t, threshold, step, |t|);
    RunsToAreTheRuns(t, threshold, step, |t|);
    var a, b := Interval(i, i), Interval(i + 2, i + 2);
    SpikeRuns(s, threshold, step, i);
    RunsAreUnique(t, threshold, step, rs, a);
    RunsAreUnique(t, threshold, step, rs, b);
    SingleEvent(t, i, step);
    SingleEvent(t, i + 2, step);
    var j :| 0 <= j < |rs| && rs[j] == a;
    var k :| 0 <= k < |rs| && rs[k] == b;
    RunOrder(rs, j, k);
  }

  lemma SingleEvent(t: seq<Sample>, i: nat, step: int)
    requires i < |t| && step > 0
    ensures EventAt(t, Interval(i, i), step).start == t[i].at
    ensures Until(EventAt(t, Interval(i, i), step)) == t[i].at + 1000 * step
  {
  }

  lemma RunOrder(rs: seq<Interval>, j: nat, k: nat)
    requires j < |rs| && k < |rs| && rs[j].lo <= rs[j].hi < rs[k].lo <= rs[k].hi
    requires forall j, k | 0 <= j < k < |rs| :: rs[j].hi < rs[k].lo
    ensures j < k
  {
  }

  lemma SpikeRuns(s: seq<Sample>, threshold: real, step: int, i: nat)
    requires i + 2 < |s|
    ensures IsMaximalRun(Spike(s, threshold, i), threshold, step, |s|, Interval(i, i))
    ensures IsMaximalRun(Spike(s, threshold, i), threshold, step, |s|, Interval(i + 2, i + 2))
  {
  }

  /** For samples at given times, events never overlap whatever the values are exactly when samples two
      apart are at least a step apart. */
  lemma NoOverlapIffSpaced(s: seq<Sample>, threshold: real, step: int)
    requires InTimeOrder(s) && step > 0
    ensures (forall t | SameTimes(s, t) :: NoOverlap(t, threshold, step)) <==> Spaced(s, step)
  {
    hide NoOverlap;
    if Spaced(s, step) {
      forall t | SameTimes(s, t) ensures NoOverlap(t, threshold, step) {
        assert InTimeOrder(t) && Spaced(t, step);
        SpacedSeries(t, threshold, step);
      }
    } else {
      var i :| 0 <= i < |s| - 2 && s[i + 2].at - s[i].at < 1000 * step;
      CloseSpikesOverlap(s, threshold, step, i);
    }
  }

  // ---------- Total duration ----------

  function TotalDuration(s: seq<Sample>, rs: seq<Interval>, step: int): int
    requires forall i | 0 <= i < |rs| :: rs[i].lo <= rs[i].hi < |s|
  {
    if rs == [] then 0
    else TotalDuration(s, rs[..|rs| - 1], step) + EventAt(s, rs[|rs| - 1], step).duration
  }

  lemma {:induction false} TotalUpTo(s: seq<Sample>, rs: seq<Interval>, step: int)
    requires InTimeOrder(s) && step > 0
    requires forall i | 0 <= i < |rs| :: rs[i].lo <= rs[i].hi < |s|
    requires forall j, k | 0 <= j < k < |rs| :: Until(EventAt(s, rs[j], step)) <= EventAt(s, rs[k], step).start
    ensures rs != [] ==> 1000 * TotalDuration(s, rs, step) <= Until(EventAt(s, rs[|rs| - 1], step)) - s[0].at
  {
    if rs != [] {
      var front, r := rs[..|rs| - 1], rs[|rs| - 1];
      TotalUpTo(s, front, step);
      assert s[0].at <= s[r.lo].at;
      if front != [] {
        assert Until(EventAt(s, rs[|rs| - 2], step)) <= EventAt(s, r, step).start;
      }
    }
  }

  /** The events of a spaced series together last at most from the first sample to one step past the last. */
  lemma TotalDurationBound(s: seq<Sample>, threshold: real, step: int)
    requires InTimeOrder(s) && step > 0 && Spaced(s, step) && s != []
    ensures 1000 * TotalDuration(s, RunsTo(s, threshold, step, |s|), step) <= s[|s| - 1].at - s[0].at + 1000 * step
  {
    var rs := RunsTo(s, threshold, step, |s|);
    SpacedSeries(s, threshold, step);
    TotalUpTo(s, rs, step);
    if rs != [] {
      UntilBound(s, rs[|rs| - 1], step);
      assert s[rs[|rs| - 1].hi].at <= s[|s| - 1].at;
    }
  }

  // ---------- The cluster query ----------

  /** A stored sample of one node; times in microseconds. */
  datatype Row = Row(at: int, node: string, cpu: Option<real>, memory: Option<real>)

  /** The distinct sample times in ascending order. */
  function TimesOf(rows: seq<Row>): (ts: seq<int>)
    ensures forall t :: t in ts <==> exists i | 0 <= i < |rows| :: rows[i].at == t
  {
    if rows == [] then []
    else
      var r := InsertTime(rows[|rows| - 1].at, TimesOf(rows[..|rows| - 1]));
      assert forall i | 0 <= i < |rows| - 1 :: rows[..|rows| - 1][i] == rows[i];
      r
  }

  function InsertTime(t: int, ts: seq<int>): (r: seq<int>)
    ensures forall u :: u in r <==> u == t || u in ts
  {
    if ts == [] then [t]
    else if t == ts[0] then ts
    else if t < ts[0] then [t] + ts
    else [ts[0]] + InsertTime(t, ts[1..])
  }

  ghost predicate Ascending(ts: seq<int>) {
    forall i, j | 0 <= i < j < |ts| :: ts[i] < ts[j]
  }

  lemma {:induction false} InsertTimeAscending(t: int, ts: seq<int>)
    requires Ascending(ts)
    ensures Ascending(InsertTime(t, ts))
  {
    if ts != [] && t > ts[0] {
      InsertTimeAscending(t, ts[1..]);
      var r := InsertTime(t, ts[1..]);
      forall j | 0 <= j < |r| ensures ts[0] < r[j] {
        assert r[j] in r;
      }
    }
  }

  lemma {:induction false} TimesAscending(rows: seq<Row>)
    ensures Ascending(TimesOf(rows))
  {
    if rows != [] {
      TimesAscending(rows[..|rows| - 1]);
      InsertTimeAscending(rows[|rows| - 1].at, TimesOf(rows[..|rows| - 1]));
    }
  }

  function Seconds(us: int): int {
    us / 1000000
  }

  /** The step the query uses: the smallest whole-second gap, at least one; the snapshot interval
      when there are not two sample times. */
  function StepOf(ts: seq<int>, snapshotInterval: int): int {
    var d := if |ts| >= 2 then MinDelta(ts, |ts|) else snapshotInterval;
    if d < 1 then 1 else d
  }

  function MinDelta(ts: seq<int>, n: nat): (d: int)
    requires 2 <= n <= |ts|
    ensures forall i | 0 < i < n :: d <= Seconds(ts[i] - ts[i - 1])
  {
    var d := Seconds(ts[n - 1] - ts[n - 2]);
    if n == 2 then d
    else
      var m := MinDelta(ts, n - 1);
      if d < m then d else m
  }

  /** The step fits the sample times: the least of their gaps, cut to whole seconds and at least one, and one that
      occurs; without two times, the snapshot interval, at least one. */
  ghost predicate FitsTimes(step: int, ts: seq<int>, snapshotInterval: int) {
    && step >= 1
    && (|ts| >= 2 ==>
          && (forall i | 0 < i < |ts| :: step == 1 || 1000000 * step <= ts[i] - ts[i - 1])
          && (exists i | 0 < i < |ts| :: ts[i] - ts[i - 1] < 1000000 * (step + 1)))
    && (|ts| < 2 ==> step == if snapshotInterval < 1 then 1 else snapshotInterval)
  }

  lemma {:induction false} LeastIsAttained(ts: seq<int>, n: nat)
    requires 2 <= n <= |ts|
    ensures exists i | 0 < i < n :: MinDelta(ts, n) == Seconds(ts[i] - ts[i - 1])
  {
    hide Seconds;
    if n > 2 && MinDelta(ts, n) != Seconds(ts[n - 1] - ts[n - 2]) {
      LeastIsAttained(ts, n - 1);
    } else {
      assert MinDelta(ts, n) == Seconds(ts[n - 1] - ts[n - 2]);
    }
  }

  /** The step is never smaller than the samples allow, nor larger. */
  lemma StepFitsTimes(ts: seq<int>, snapshotInterval: int)
    requires Ascending(ts)
    ensures FitsTimes(StepOf(ts, snapshotInterval), ts, snapshotInterval)
  {
    if |ts| >= 2 {
      LeastIsAttained(ts, |ts|);
      var i :| 0 < i < |ts| && MinDelta(ts, |ts|) == Seconds(ts[i] - ts[i - 1]);
      assert ts[i] - ts[i - 1] < 1000000 * (StepOf(ts, snapshotInterval) + 1);
    }
  }

  method ChooseStep(rows: seq<Row>, snapshotInterval: int) returns (step: int)
    ensures step == StepOf(TimesOf(rows), snapshotInterval)
    ensures Ascending(TimesOf(rows)) && FitsTimes(step, TimesOf(rows), snapshotInterval)
  {
    hide FitsTimes, Ascending, TimesOf, StepOf, MinDelta, Seconds;
    var ordered := TimesOf(rows);
    if |ordered| >= 2 {
      var least := Seconds(ordered[1] - ordered[0]);
      LeastOfTwo(ordered);
      for index := 2 to |ordered|
        invariant least == MinDelta(ordered, index)
      {
        LeastNext(ordered, index);
        var delta := Seconds(ordered[index] - ordered[index - 1]);
        if delta < least { least := delta; }
      }
      step := if least < 1 then 1 else least;
    } else {
      step := if snapshotInterval < 1 then 1 else snapshotInterval;
    }
    StepIs(ordered, snapshotInterval);
    TimesAscending(rows);
    StepFitsTimes(ordered, snapshotInterval);
  }

  lemma LeastOfTwo(ts: seq<int>)
    requires |ts| >= 2
    ensures MinDelta(ts, 2) == Seconds(ts[1] - ts[0])
  {
  }

  lemma LeastNext(ts: seq<int>, n: nat)
    requires 2 <= n < |ts|
    ensures var d, m := Seconds(ts[n] - ts[n - 1]), MinDelta(ts, n);
            MinDelta(ts, n + 1) == if d < m then d else m
  {
  }

  lemma StepIs(ts: seq<int>, snapshotInterval: int)
    ensures var d := if |ts| >= 2 then MinDelta(ts, |ts|) else snapshotInterval;
            StepOf(ts, snapshotInterval) == if d < 1 then 1 else d
  {
    hide MinDelta;
  }

  datatype Metric = Cpu | Memory

  function Reading(r: Row, m: Metric): Option<real> {
    match m case Cpu => r.cpu case Memory => r.memory
  }

  /** The series of one node and metric: its non-null readings, times cut to milliseconds. */
  function SamplesOf(rows: seq<Row>, node: string, m: Metric): seq<Sample> {
    if rows == [] then []
    else
      var r := rows[|rows| - 1];
      SamplesOf(rows[..|rows| - 1], node, m)
      + if r.node == node && Reading(r, m).Some? then [Sample(r.at / 1000, Reading(r, m).value)] else []
  }

  /** The row holds this sample of the metric for the node. */
  predicate Holds(r: Row, node: string, m: Metric, x: Sample) {
    var reading := if m == Cpu then r.cpu else r.memory;
    r.node == node && reading == Some(x.value) && x.at == r.at / 1000
  }

  /** A node's series has exactly the samples its rows hold, in their order: processor usage in one, memory in the
      other. */
  lemma {:induction false} SamplesAreHeld(rows: seq<Row>, node: string, m: Metric) returns (origin: seq<nat>)
    ensures var s := SamplesOf(rows, node, m);
            && |origin| == |s|
            && (forall k | 0 <= k < |s| :: origin[k] < |rows| && Holds(rows[origin[k]], node, m, s[k]))
            && (forall j, k | 0 <= j < k < |s| :: origin[j] < origin[k])
            && (forall i, x | 0 <= i < |rows| && Holds(rows[i], node, m, x) :: i in origin)
  {
    if rows == [] {
      origin := [];
    } else {
      var n := |rows| - 1;
      origin := SamplesAreHeld(rows[..n], node, m);
      assert forall i | 0 <= i < n :: rows[..n][i] == rows[i];
      if rows[n].node == node && Reading(rows[n], m).Some? {
        origin := origin + [n];
      }
    }
  }

  function Readings(rows: seq<Row>, m: Metric): (s: map<string, seq<Sample>>)
    ensures forall node | node in s :: s[node] == SamplesOf(rows, node, m)
    ensures forall node :: node !in s ==> SamplesOf(rows, node, m) == []
  {
    if rows == [] then map[]
    else
      var r := rows[|rows| - 1];
      var s := Readings(rows[..|rows| - 1], m);
      if Reading(r, m).Some? then s[r.node := SamplesOf(rows, r.node, m)] else s
  }

  /** metrics[...].setdefault(node, []).append(...) */
  function Appended(s: map<string, seq<Sample>>, node: string, x: Sample): map<string, seq<Sample>> {
    s[node := (if node in s then s[node] else []) + [x]]
  }

  /** The loop that fills the two dictionaries. */
  method CollectSeries(rows: seq<Row>) returns (cpu: map<string, seq<Sample>>, memory: map<string, seq<Sample>>)
    ensures cpu == Readings(rows, Cpu) && memory == Readings(rows, Memory)
  {
    cpu, memory := map[], map[];
    for i := 0 to |rows|
      invariant cpu == Readings(rows[..i], Cpu) && memory == Readings(rows[..i], Memory)
    {
      assert rows[..i + 1][..i] == rows[..i];
      var row := rows[i];
      if row.cpu.Some? {
        cpu := Appended(cpu, row.node, Sample(row.at / 1000, row.cpu.value));
      }
      if row.memory.Some? {
        memory := Appended(memory, row.node, Sample(row.at / 1000, row.memory.value));
      }
    }
    assert rows[..|rows|] == rows;
  }

  /** Rows as the query returns them: in time order, one row per node and time. */
  ghost predicate QueryRows(rows: seq<Row>) {
    forall i, j | 0 <= i < j < |rows| ::
      rows[i].at <= rows[j].at && (rows[i].node == rows[j].node ==> rows[i].at < rows[j].at)
  }

  /** Distinct sample times are at least half a second apart. */
  ghost predicate HalfSecondApart(ts: seq<int>) {
    forall i | 0 < i < |ts| :: ts[i] - ts[i - 1] >= 500000
  }

  lemma {:induction false} GapOfTwo(ts: seq<int>, snapshotInterval: int, i: nat, j: nat)
    requires Ascending(ts) && HalfSecondApart(ts) && i + 2 <= j < |ts|
    ensures ts[j] - ts[i] >= 1000000 * StepOf(ts, snapshotInterval)
  {
    assert ts[i + 2] <= ts[j];
    var step := MinDelta(ts, |ts|);
    assert step <= Seconds(ts[i + 1] - ts[i]) && step <= Seconds(ts[i + 2] - ts[i + 1]);
    assert ts[i + 1] - ts[i] >= 500000 && ts[i + 2] - ts[i + 1] >= 500000;
  }

  /** The uncut times of a series' samples. */
  function Origins(rows: seq<Row>, node: string, m: Metric): seq<int> {
    if rows == [] then []
    else
      var r := rows[|rows| - 1];
      Origins(rows[..|rows| - 1], node, m) + if r.node == node && Reading(r, m).Some? then [r.at] else []
  }

  lemma {:induction false} OriginsCut(rows: seq<Row>, node: string, m: Metric)
    ensures |SamplesOf(rows, node, m)| == |Origins(rows, node, m)|
    ensures forall i | 0 <= i < |Origins(rows, node, m)| ::
              SamplesOf(rows, node, m)[i].at == Origins(rows, node, m)[i] / 1000
  {
    if rows != [] {
      OriginsCut(rows[..|rows| - 1], node, m);
    }
  }

  /** The times of one node's rows, before t. */
  ghost predicate NodeTimeBefore(rows: seq<Row>, n: nat, node: string, t: int)
    requires n <= |rows|
  {
    exists k | 0 <= k < n :: rows[k].node == node && rows[k].at == t
  }

  lemma {:induction false} OriginsFromRows(rows: seq<Row>, n: nat, node: string, m: Metric)
    requires n <= |rows| && QueryRows(rows)
    ensures forall i | 0 <= i < |Origins(rows[..n], node, m)| ::
              NodeTimeBefore(rows, n, node, Origins(rows[..n], node, m)[i])
    ensures Ascending(Origins(rows[..n], node, m))
  {
    if n > 0 {
      OriginsFromRows(rows, n - 1, node, m);
      assert rows[..n][..n - 1] == rows[..n - 1];
      var before, all := Origins(rows[..n - 1], node, m), Origins(rows[..n], node, m);
      var r := rows[n - 1];
      forall i | 0 <= i < |all| ensures NodeTimeBefore(rows, n, node, all[i]) {
        if i < |before| {
          assert NodeTimeBefore(rows, n - 1, node, before[i]);
        } else {
          assert rows[n - 1].node == node && rows[n - 1].at == all[i];
        }
      }
      forall i | 0 <= i < |before| && r.node == node ensures before[i] < r.at {
        assert NodeTimeBefore(rows, n - 1, node, before[i]);
      }
    }
  }

  lemma AscendingIndex(ts: seq<int>, i: nat, k: nat)
    requires Ascending(ts) && i < |ts| && k < |ts| && ts[i] < ts[k]
    ensures i < k
  {
  }

  /** An ascending list of sample times skips at least as far as its indices do. */
  lemma IndexOfTime(ts: seq<int>, t: int, u: int, v: int) returns (i: nat, j: nat)
    requires Ascending(ts) && t in ts && u in ts && v in ts && t < u < v
    ensures i + 2 <= j < |ts| && ts[i] == t && ts[j] == v
  {
    i :| 0 <= i < |ts| && ts[i] == t;
    j :| 0 <= j < |ts| && ts[j] == v;
    var k :| 0 <= k < |ts| && ts[k] == u;
    AscendingIndex(ts, i, k);
    AscendingIndex(ts, k, j);
  }

  lemma CutGap(a: int, b: int, step: int)
    requires b - a >= 1000000 * step
    ensures b / 1000 - a / 1000 >= 1000 * step
  {
  }

  /** When distinct sample times are at least half a second apart, every series of the query is in order and spaced
      for the step the query picks. */
  lemma QuerySeriesSpaced(rows: seq<Row>, snapshotInterval: int, node: string, m: Metric)
    requires QueryRows(rows) && HalfSecondApart(TimesOf(rows))
    ensures var step := StepOf(TimesOf(rows), snapshotInterval);
            step > 0 && InTimeOrder(SamplesOf(rows, node, m)) && Spaced(SamplesOf(rows, node, m), step)
  {
    var ts, o, s := TimesOf(rows), Origins(rows, node, m), SamplesOf(rows, node, m);
    var step := StepOf(ts, snapshotInterval);
    TimesAscending(rows);
    OriginsCut(rows, node, m);
    assert rows[..|rows|] == rows;
    OriginsFromRows(rows, |rows|, node, m);
    hide SamplesOf, Origins, TimesOf, StepOf, Reading;
    forall i, j | 0 <= i < j < |s| ensures s[i].at <= s[j].at {
      assert o[i] < o[j];
    }
    forall i | 0 <= i < |s| - 2 ensures s[i + 2].at - s[i].at >= 1000 * step {
      forall k | i <= k <= i + 2 ensures o[k] in ts {
        assert NodeTimeBefore(rows, |rows|, node, o[k]);
      }
      var x, y := IndexOfTime(ts, o[i], o[i + 1], o[i + 2]);
      GapOfTwo(ts, snapshotInterval, x, y);
      CutGap(o[i], o[i + 2], step);
    }
  }

  function MetricName(m: Metric): string {
    match m case Cpu => "cpu" case Memory => "memory"
  }

  /** xs holds each series of the metric once, in some order. */
  ghost predicate ListsSeries(xs: seq<Series>, m: Metric, rows: seq<Row>) {
    && (forall i | 0 <= i < |xs| :: xs[i].metric == MetricName(m) && xs[i].values == SamplesOf(rows, xs[i].node, m))
    && (forall i, j | 0 <= i < j < |xs| :: xs[i].node != xs[j].node)
    && (forall node | SamplesOf(rows, node, m) != [] :: Listed(xs, node))
  }

  ghost predicate Listed(xs: seq<Series>, node: string) {
    exists i | 0 <= i < |xs| :: xs[i].node == node
  }

  lemma StillListed(xs: seq<Series>, x: Series)
    ensures Listed(xs + [x], x.node)
    ensures forall node | Listed(xs, node) :: Listed(xs + [x], node)
  {
    assert (xs + [x])[|xs|] == x;
    forall node | Listed(xs, node) ensures Listed(xs + [x], node) {
      var i :| 0 <= i < |xs| && xs[i].node == node;
      assert (xs + [x])[i].node == node;
    }
  }

  method ListSeries(m: Metric, s: map<string, seq<Sample>>, ghost rows: seq<Row>) returns (xs: seq<Series>)
    requires s == Readings(rows, m)
    ensures ListsSeries(xs, m, rows)
  {
    hide SamplesOf, Readings, Listed;
    var left := s.Keys;
    xs := [];
    while left != {}
      invariant left <= s.Keys
      invariant forall i | 0 <= i < |xs| ::
                  xs[i].metric == MetricName(m) && xs[i].values == SamplesOf(rows, xs[i].node, m)
      invariant forall i, j | 0 <= i < j < |xs| :: xs[i].node != xs[j].node
      invariant forall i | 0 <= i < |xs| :: xs[i].node !in left
      invariant forall node | node in s.Keys - left :: Listed(xs, node)
      decreases |left|
    {
      var node :| node in left;
      StillListed(xs, Series(MetricName(m), node, s[node]));
      xs := xs + [Series(MetricName(m), node, s[node])];
      left := left - {node};
    }
  }

  /** cluster_node_hotspots on the rows its query returned. */
  method ClusterNodeHotspots(rows: seq<Row>, start: int, end: int, threshold: real, limit: int, snapshotInterval: int)
    returns (o: Outcome, ghost series: seq<Series>)
    ensures start >= end ==> o == ValueError
    ensures start < end ==>
              && (exists cpu, memory ::
                    series == cpu + memory && ListsSeries(cpu, Cpu, rows) && ListsSeries(memory, Memory, rows))
              && o == Events(TopEvents(AllEvents(series, threshold, StepOf(TimesOf(rows), snapshotInterval)), limit))
  {
    series := [];
    if start >= end { return ValueError, series; }
    var cpu, memory := CollectSeries(rows);
    var cpuSeries := ListSeries(Cpu, cpu, rows);
    var memorySeries := ListSeries(Memory, memory, rows);
    var step := ChooseStep(rows, snapshotInterval);
    o := BuildHotspotEvents(cpuSeries + memorySeries, threshold, step, limit);
    series := cpuSeries + memorySeries;
  }
}
