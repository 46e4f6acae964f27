/** The events the cluster query returns: those of one node and metric never overlap. */
module HotspotQuery {
  import opened Common
  import opened Sorting
  import opened Hotspots
  import opened HotspotSpacing

  /** Two events of one node and metric do not overlap. */
  ghost predicate Apart(a: Event, b: Event) {
    a.node == b.node && a.metric == b.metric ==> Until(a) <= b.start || Until(b) <= a.start
  }

  ghost predicate PairwiseApart(es: seq<Event>) {
    forall i, j | 0 <= i < j < |es| :: Apart(es[i], es[j])
  }

  ghost predicate Lasting(es: seq<Event>) {
    forall i | 0 <= i < |es| :: es[i].duration > 0
  }

  function Durations(es: seq<Event>): int {
    if es == [] then 0 else Durations(es[..|es| - 1]) + es[|es| - 1].duration
  }

  // ---------- One series ----------

  lemma EventsLikeRuns(node: string, metric: string, s: seq<Sample>, rs: seq<Interval>, step: int, i: nat)
    requires forall k | 0 <= k < |rs| :: rs[k].lo <= rs[k].hi < |s|
    requires i < |rs|
    ensures var e, plain := EventsOf(node, metric, s, rs, step)[i], EventAt(s, rs[i], step);
            e.node == node && e.metric == metric && e.start == plain.start && e.duration == plain.duration
  {
  }

  lemma {:induction false} DurationsAre(node: string, metric: string, s: seq<Sample>, rs: seq<Interval>, step: int)
    requires forall k | 0 <= k < |rs| :: rs[k].lo <= rs[k].hi < |s|
    ensures Durations(EventsOf(node, metric, s, rs, step)) == TotalDuration(s, rs, step)
  {
    if rs != [] {
      var n := |rs| - 1;
      var es := EventsOf(node, metric, s, rs, step);
      DurationsAre(node, metric, s, rs[..n], step);
      EventsLikeRuns(node, metric, s, rs, step, n);
      assert es[..n] == EventsOf(node, metric, s, rs[..n], step);
    }
  }

  /** A series of the query: its events are in order, each over before the next begins, and together they last at
      most from the first sample to one step past the last. */
  lemma SeriesEventsApart(rows: seq<Row>, threshold: real, snapshotInterval: int, node: string, m: Metric)
    requires QueryRows(rows) && HalfSecondApart(TimesOf(rows))
    ensures var step, s := StepOf(TimesOf(rows), snapshotInterval), SamplesOf(rows, node, m);
            var es := SeriesEvents(Series(MetricName(m), node, s), threshold, step);
            && (forall j, k | 0 <= j < k < |es| :: Until(es[j]) <= es[k].start)
            && (forall j | 0 <= j < |es| :: es[j].node == node && es[j].metric == MetricName(m) && es[j].duration > 0)
            && (s != [] ==> 1000 * Durations(es) <= s[|s| - 1].at - s[0].at + 1000 * step)
  {
    var step, s := StepOf(TimesOf(rows), snapshotInterval), SamplesOf(rows, node, m);
    QuerySeriesSpaced(rows, snapshotInterval, node, m);
    hide SamplesOf, StepOf, TimesOf, RunsTo, EventsOf, EventAt, Until, TotalDuration, Durations, Spaced, MetricName;
    SortedSeries(s);
    StableSortOfOrdered(s, NotAfter);
    SpacedSeries(s, threshold, step);
    EventsOver(node, MetricName(m), s, threshold, step);
    DurationsAre(node, MetricName(m), s, RunsTo(s, threshold, step, |s|), step);
    if s != [] {
      TotalDurationBound(s, threshold, step);
    }
  }

  lemma SortedSeries(s: seq<Sample>)
    requires InTimeOrder(s)
    ensures Ordered(s, NotAfter)
  {
  }

  lemma EventsOver(node: string, metric: string, s: seq<Sample>, threshold: real, step: int)
    requires InTimeOrder(s) && step > 0 && NoOverlap(s, threshold, step)
    ensures var es := EventsOf(node, metric, s, RunsTo(s, threshold, step, |s|), step);
            && (forall j, k | 0 <= j < k < |es| :: Until(es[j]) <= es[k].start)
            && (forall j | 0 <= j < |es| :: es[j].node == node && es[j].metric == metric && es[j].duration > 0)
  {
    var rs := RunsTo(s, threshold, step, |s|);
    hide RunsTo, EventsOf, EventAt;
    forall i | 0 <= i < |rs|
      ensures var e := EventsOf(node, metric, s, rs, step)[i];
              && e.node == node && e.metric == metric && e.duration > 0
              && e.start == EventAt(s, rs[i], step).start && Until(e) == Until(EventAt(s, rs[i], step))
    {
      EventsLikeRuns(node, metric, s, rs, step, i);
      UntilBound(s, rs[i], step);
    }
  }

  // ---------- All series ----------

  ghost predicate OneSeriesEach(xs: seq<Series>) {
    forall i, j | 0 <= i < j < |xs| :: xs[i].node != xs[j].node || xs[i].metric != xs[j].metric
  }

  /** The series' events are its own, last, and are apart. */
  ghost predicate GoodSeries(x: Series, threshold: real, step: int) {
    var es := SeriesEvents(x, threshold, step);
    && PairwiseApart(es) && Lasting(es)
    && forall j | 0 <= j < |es| :: Names(x, es[j])
  }

  predicate Names(x: Series, e: Event) {
    x.node == e.node && x.metric == e.metric
  }

  ghost predicate Named(xs: seq<Series>, e: Event) {
    exists i | 0 <= i < |xs| :: Names(xs[i], e)
  }

  ghost predicate OfSeries(es: seq<Event>, xs: seq<Series>) {
    forall j | 0 <= j < |es| :: Named(xs, es[j])
  }

  lemma NamedMore(xs: seq<Series>, x: Series, e: Event)
    ensures Named(xs, e) || Names(x, e) ==> Named(xs + [x], e)
  {
    var all := xs + [x];
    hide Names;
    assert all[|xs|] == x;
    if Named(xs, e) {
      var i :| 0 <= i < |xs| && Names(xs[i], e);
      assert all[i] == xs[i];
    }
  }

  lemma ConcatOfSeries(a: seq<Event>, b: seq<Event>, xs: seq<Series>, x: Series)
    requires OfSeries(a, xs) && forall j | 0 <= j < |b| :: Names(x, b[j])
    ensures OfSeries(a + b, xs + [x])
  {
    hide Names, Named;
    var both := a + b;
    forall j | 0 <= j < |both| ensures Named(xs + [x], both[j]) {
      NamedMore(xs, x, both[j]);
      assert if j < |a| then both[j] == a[j] else both[j] == b[j - |a|];
    }
  }

  lemma ConcatApart(a: seq<Event>, b: seq<Event>, xs: seq<Series>, x: Series)
    requires PairwiseApart(a) && PairwiseApart(b) && OfSeries(a, xs)
    requires forall j | 0 <= j < |b| :: Names(x, b[j])
    requires forall i | 0 <= i < |xs| :: xs[i].node != x.node || xs[i].metric != x.metric
    ensures PairwiseApart(a + b)
  {
    var both := a + b;
    forall i, j | 0 <= i < j < |both| ensures Apart(both[i], both[j]) {
      if i < |a| <= j {
        assert both[j] == b[j - |a|] && both[i] == a[i];
        var k :| 0 <= k < |xs| && Names(xs[k], a[i]);
      } else if |a| <= i {
        assert both[i] == b[i - |a|] && both[j] == b[j - |a|];
      } else {
        assert both[i] == a[i] && both[j] == a[j];
      }
    }
  }

  lemma {:induction false} AllEventsApart(xs: seq<Series>, threshold: real, step: int)
    requires OneSeriesEach(xs) && forall i | 0 <= i < |xs| :: GoodSeries(xs[i], threshold, step)
    ensures PairwiseApart(AllEvents(xs, threshold, step)) && Lasting(AllEvents(xs, threshold, step))
    ensures OfSeries(AllEvents(xs, threshold, step), xs)
  {
    hide SeriesEvents, Apart, Names;
    if xs != [] {
      var n := |xs| - 1;
      AllEventsApart(xs[..n], threshold, step);
      assert xs == xs[..n] + [xs[n]];
      hide PairwiseApart, OfSeries;
      ConcatApart(AllEvents(xs[..n], threshold, step), SeriesEvents(xs[n], threshold, step), xs[..n], xs[n]);
      ConcatOfSeries(AllEvents(xs[..n], threshold, step), SeriesEvents(xs[n], threshold, step), xs[..n], xs[n]);
    }
  }

  // ---------- What is returned ----------

  lemma NoTwins(es: seq<Event>, i: nat, j: nat)
    requires PairwiseApart(es) && Lasting(es) && i < j < |es|
    ensures es[i] != es[j]
  {
    assert Apart(es[i], es[j]);
  }

  lemma {:induction false} OncePlaced(es: seq<Event>, e: Event)
    requires forall i, j | 0 <= i < j < |es| :: es[i] != es[j]
    ensures multiset(es)[e] <= 1
    ensures e in es <==> multiset(es)[e] == 1
  {
    if es != [] {
      var n := |es| - 1;
      assert es == es[..n] + [es[n]];
      OncePlaced(es[..n], e);
    }
  }

  lemma CountedTwice(top: seq<Event>, i: nat, j: nat)
    requires i < j < |top|
    ensures top[i] == top[j] ==> multiset(top)[top[i]] >= 2
    ensures multiset(top)[top[i]] >= 1 && multiset(top)[top[j]] >= 1
  {
    assert top == top[..j] + [top[j]] + top[j + 1..];
    assert top[..j][i] == top[i];
    assert top[i] in multiset(top[..j]);
  }

  /** Any selection of apart events is apart. */
  lemma SelectedApart(es: seq<Event>, top: seq<Event>)
    requires PairwiseApart(es) && Lasting(es) && multiset(top) <= multiset(es)
    ensures PairwiseApart(top)
  {
    forall i, j | 0 <= i < j < |es| ensures es[i] != es[j] {
      NoTwins(es, i, j);
    }
    forall i, j | 0 <= i < j < |top| ensures Apart(top[i], top[j]) {
      CountedTwice(top, i, j);
      OncePlaced(es, top[i]);
      OncePlaced(es, top[j]);
      var p :| 0 <= p < |es| && es[p] == top[i];
      var q :| 0 <= q < |es| && es[q] == top[j];
      assert top[i] != top[j];
      assert if p < q then Apart(es[p], es[q]) else Apart(es[q], es[p]);
    }
  }

  lemma TopWithin(events: seq<Event>, limit: int)
    ensures multiset(TopEvents(events, limit)) <= multiset(events)
  {
    TopEventsAreTheTop(events, limit);
    hide TopEvents, NotBelow;
    var rest: seq<Event> :| multiset(TopEvents(events, limit)) + multiset(rest) == multiset(events)
                            && forall t, r | t in TopEvents(events, limit) && r in rest :: NotBelow(t, r);
  }

  lemma ListedSeries(cpu: seq<Series>, memory: seq<Series>, rows: seq<Row>)
    requires ListsSeries(cpu, Cpu, rows) && ListsSeries(memory, Memory, rows)
    ensures OneSeriesEach(cpu + memory)
  {
    hide SamplesOf, Listed;
  }

  lemma QuerySeriesGood(x: Series, m: Metric, rows: seq<Row>, threshold: real, snapshotInterval: int)
    requires QueryRows(rows) && HalfSecondApart(TimesOf(rows))
    requires x.metric == MetricName(m) && x.values == SamplesOf(rows, x.node, m)
    ensures GoodSeries(x, threshold, StepOf(TimesOf(rows), snapshotInterval))
  {
    SeriesEventsApart(rows, threshold, snapshotInterval, x.node, m);
    hide SeriesEvents, SamplesOf, StepOf, TimesOf, MetricName;
    assert x == Series(MetricName(m), x.node, SamplesOf(rows, x.node, m));
  }

  /** In what the cluster query returns, no two events of one node and metric overlap, whatever the readings, the
      threshold and the limit, when distinct sample times are at least half a second apart. */
  lemma QueryEventsApart(rows: seq<Row>, threshold: real, limit: int, snapshotInterval: int, cpu: seq<Series>,
                         memory: seq<Series>)
    requires QueryRows(rows) && HalfSecondApart(TimesOf(rows))
    requires ListsSeries(cpu, Cpu, rows) && ListsSeries(memory, Memory, rows)
    ensures PairwiseApart(TopEvents(AllEvents(cpu + memory, threshold, StepOf(TimesOf(rows), snapshotInterval)), limit))
  {
    var xs, step := cpu + memory, StepOf(TimesOf(rows), snapshotInterval);
    ListedSeries(cpu, memory, rows);
    hide GoodSeries, SamplesOf, StepOf, TimesOf, AllEvents, TopEvents, OneSeriesEach, PairwiseApart, Listed, Lasting,
      OfSeries;
    forall i | 0 <= i < |xs| ensures GoodSeries(xs[i], threshold, step) {
      if i < |cpu| {
        QuerySeriesGood(cpu[i], Cpu, rows, threshold, snapshotInterval);
      } else {
        QuerySeriesGood(memory[i - |cpu|], Memory, rows, threshold, snapshotInterval);
      }
    }
    AllEventsApart(xs, threshold, step);
    TopWithin(AllEvents(xs, threshold, step), limit);
    SelectedApart(AllEvents(xs, threshold, step), TopEvents(AllEvents(xs, threshold, step), limit));
  }
}
