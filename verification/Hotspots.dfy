/** Hotspot events: the maximal hot runs of a sampled series, as one pass over the samples finds them. */
module Hotspots {
  import opened Common
  import opened Sorting

  /** A sample: time in milliseconds, usage in percent. */
  datatype Sample = Sample(at: int, value: real)

  datatype Event = Event(node: string, metric: string, start: int, end: int, duration: int, peak: real)

  predicate IsHot(s: Sample, threshold: real) {
    s.value >= threshold
  }

  /** Two neighbouring samples more than two steps apart, in whole seconds. */
  predicate GapBreak(a: Sample, b: Sample, step: int) {
    (b.at - a.at) / 1000 > 2 * step
  }

  predicate NotAfter(a: Sample, b: Sample) {
    a.at <= b.at
  }

  ghost predicate InTimeOrder(s: seq<Sample>) {
    forall i, j | 0 <= i < j < |s| :: s[i].at <= s[j].at
  }

  // ---------- Runs ----------

  /** The samples lo..hi, both included. */
  datatype Interval = Interval(lo: nat, hi: nat)

  /** The hot runs of the first n samples. */
  function RunsTo(s: seq<Sample>, threshold: real, step: int, n: nat): (rs: seq<Interval>)
    requires n <= |s|
    ensures forall i | 0 <= i < |rs| :: rs[i].lo <= rs[i].hi < n
  {
    if n == 0 then []
    else
      var rs := RunsTo(s, threshold, step, n - 1);
      var i := n - 1;
      if !IsHot(s[i], threshold) then rs
      else if i > 0 && rs != [] && rs[|rs| - 1].hi == i - 1 && !GapBreak(s[i - 1], s[i], step) then
        rs[|rs| - 1 := rs[|rs| - 1].(hi := i)]
      else rs + [Interval(i, i)]
  }

  /** A run that is hot and unbroken throughout, and cannot grow within the first n samples. */
  ghost predicate IsMaximalRun(s: seq<Sample>, threshold: real, step: int, n: nat, r: Interval)
    requires n <= |s|
  {
    && r.lo <= r.hi < n
    && (forall i | r.lo <= i <= r.hi :: IsHot(s[i], threshold))
    && (forall i | r.lo < i <= r.hi :: !GapBreak(s[i - 1], s[i], step))
    && (r.lo > 0 ==> !IsHot(s[r.lo - 1], threshold) || GapBreak(s[r.lo - 1], s[r.lo], step))
    && (r.hi + 1 < n ==> !IsHot(s[r.hi + 1], threshold) || GapBreak(s[r.hi], s[r.hi + 1], step))
  }

  ghost predicate InSomeRun(rs: seq<Interval>, i: nat) {
    exists k | 0 <= k < |rs| :: rs[k].lo <= i <= rs[k].hi
  }

  /** The runs are in order and disjoint, maximal, and cover every hot sample. */
  ghost predicate AreTheRuns(s: seq<Sample>, threshold: real, step: int, n: nat, rs: seq<Interval>)
    requires n <= |s|
  {
    && (forall k | 0 <= k < |rs| :: IsMaximalRun(s, threshold, step, n, rs[k]))
    && (forall j, k | 0 <= j < k < |rs| :: rs[j].hi < rs[k].lo)
    && (forall i | 0 <= i < n && IsHot(s[i], threshold) :: InSomeRun(rs, i))
  }

  lemma {:induction false} RunsToAreTheRuns(s: seq<Sample>, threshold: real, step: int, n: nat)
    requires n <= |s|
    ensures AreTheRuns(s, threshold, step, n, RunsTo(s, threshold, step, n))
  {
    hide AreTheRuns;
    if n == 0 {
      NoRunsAtAll(s, threshold, step);
    } else {
      hide RunsTo;
      RunsToAreTheRuns(s, threshold, step, n - 1);
      NextSampleRuns(s, threshold, step, n);
    }
  }

  lemma NoRunsAtAll(s: seq<Sample>, threshold: real, step: int)
    ensures AreTheRuns(s, threshold, step, 0, RunsTo(s, threshold, step, 0))
  {
  }

  /** A hot last sample is the end of the last run. */
  lemma HotEndIsLastRun(s: seq<Sample>, threshold: real, step: int, n: nat, rs: seq<Interval>)
    requires 0 < n <= |s| && AreTheRuns(s, threshold, step, n, rs) && IsHot(s[n - 1], threshold)
    ensures rs != [] && rs[|rs| - 1].hi == n - 1
  {
    hide GapBreak, IsHot;
    var k :| 0 <= k < |rs| && rs[k].lo <= n - 1 <= rs[k].hi;
    assert IsMaximalRun(s, threshold, step, n, rs[k]);
    assert IsMaximalRun(s, threshold, step, n, rs[|rs| - 1]);
  }

  lemma StillCovered(s: seq<Sample>, threshold: real, n: nat, before: seq<Interval>, after: seq<Interval>)
    requires 0 < n <= |s| && |before| <= |after|
    requires forall i | 0 <= i < n - 1 && IsHot(s[i], threshold) :: InSomeRun(before, i)
    requires forall k | 0 <= k < |before| :: after[k].lo == before[k].lo && before[k].hi <= after[k].hi
    requires IsHot(s[n - 1], threshold) ==> InSomeRun(after, n - 1)
    ensures forall i | 0 <= i < n && IsHot(s[i], threshold) :: InSomeRun(after, i)
  {
    hide IsHot;
    forall i | 0 <= i < n && IsHot(s[i], threshold) ensures InSomeRun(after, i) {
      if i < n - 1 {
        var k :| 0 <= k < |before| && before[k].lo <= i <= before[k].hi;
        assert after[k].lo <= i <= after[k].hi;
      }
    }
  }

  lemma ColdRuns(s: seq<Sample>, threshold: real, step: int, n: nat, rs: seq<Interval>)
    requires 0 < n <= |s| && AreTheRuns(s, threshold, step, n - 1, rs) && !IsHot(s[n - 1], threshold)
    ensures AreTheRuns(s, threshold, step, n, rs)
  {
    hide IsHot, GapBreak, InSomeRun, IsMaximalRun;
    forall k | 0 <= k < |rs| ensures IsMaximalRun(s, threshold, step, n, rs[k]) {
      RunStays(s, threshold, step, n, rs[k]);
    }
  }

  lemma GrownRuns(s: seq<Sample>, threshold: real, step: int, n: nat, rs: seq<Interval>)
    requires 1 < n <= |s| && AreTheRuns(s, threshold, step, n - 1, rs)
    requires IsHot(s[n - 1], threshold) && !GapBreak(s[n - 2], s[n - 1], step)
    requires rs != [] && rs[|rs| - 1].hi == n - 2
    ensures AreTheRuns(s, threshold, step, n, rs[|rs| - 1 := rs[|rs| - 1].(hi := n - 1)])
  {
    hide IsHot, GapBreak, InSomeRun, IsMaximalRun;
    RunBounds(s, threshold, step, n - 1, rs[|rs| - 1]);
    GrownCover(s, threshold, n, rs);
    GrownMaximal(s, threshold, step, n, rs);
  }

  lemma GrownMaximal(s: seq<Sample>, threshold: real, step: int, n: nat, rs: seq<Interval>)
    requires 1 < n <= |s| && rs != [] && rs[|rs| - 1].hi == n - 2
    requires forall k | 0 <= k < |rs| :: IsMaximalRun(s, threshold, step, n - 1, rs[k])
    requires forall j, k | 0 <= j < k < |rs| :: rs[j].hi < rs[k].lo
    requires IsHot(s[n - 1], threshold) && !GapBreak(s[n - 2], s[n - 1], step)
    ensures var after := rs[|rs| - 1 := rs[|rs| - 1].(hi := n - 1)];
            forall k | 0 <= k < |after| :: IsMaximalRun(s, threshold, step, n, after[k])
  {
    hide IsHot, GapBreak, IsMaximalRun;
    var m := |rs| - 1;
    RunBounds(s, threshold, step, n - 1, rs[m]);
    assert rs[m] == Interval(rs[m].lo, n - 2);
    RunGrows(s, threshold, step, n, rs[m].lo);
    forall k | 0 <= k < m ensures IsMaximalRun(s, threshold, step, n, rs[k]) {
      assert rs[k].hi < rs[m].lo;
      RunStays(s, threshold, step, n, rs[k]);
    }
  }

  lemma GrownCover(s: seq<Sample>, threshold: real, n: nat, rs: seq<Interval>)
    requires 1 < n <= |s| && rs != [] && rs[|rs| - 1].lo <= rs[|rs| - 1].hi == n - 2
    requires forall i | 0 <= i < n - 1 && IsHot(s[i], threshold) :: InSomeRun(rs, i)
    ensures var after := rs[|rs| - 1 := rs[|rs| - 1].(hi := n - 1)];
            forall i | 0 <= i < n && IsHot(s[i], threshold) :: InSomeRun(after, i)
  {
    hide IsHot, InSomeRun;
    var after := rs[|rs| - 1 := rs[|rs| - 1].(hi := n - 1)];
    EndsInLast(after, n - 1);
    StillCovered(s, threshold, n, rs, after);
  }

  lemma StartedRuns(s: seq<Sample>, threshold: real, step: int, n: nat, rs: seq<Interval>)
    requires 0 < n <= |s| && AreTheRuns(s, threshold, step, n - 1, rs) && IsHot(s[n - 1], threshold)
    requires n > 1 ==> !IsHot(s[n - 2], threshold) || GapBreak(s[n - 2], s[n - 1], step)
    ensures AreTheRuns(s, threshold, step, n, rs + [Interval(n - 1, n - 1)])
  {
    var after := rs + [Interval(n - 1, n - 1)];
    RunStarts(s, threshold, step, n);
    forall k | 0 <= k < |rs| ensures IsMaximalRun(s, threshold, step, n, rs[k]) && rs[k].lo <= rs[k].hi < n - 1 {
      RunBounds(s, threshold, step, n - 1, rs[k]);
      assert rs[k].hi == n - 2 ==> IsHot(s[n - 2], threshold);
      RunStays(s, threshold, step, n, rs[k]);
    }
    hide IsHot, GapBreak, InSomeRun, IsMaximalRun;
    EndsInLast(after, n - 1);
    StillCovered(s, threshold, n, rs, after);
  }

  lemma NextSampleRuns(s: seq<Sample>, threshold: real, step: int, n: nat)
    requires 0 < n <= |s|
    requires AreTheRuns(s, threshold, step, n - 1, RunsTo(s, threshold, step, n - 1))
    ensures AreTheRuns(s, threshold, step, n, RunsTo(s, threshold, step, n))
  {
    var i := n - 1;
    var before := RunsTo(s, threshold, step, i);
    if i > 0 && IsHot(s[i - 1], threshold) {
      HotEndIsLastRun(s, threshold, step, i, before);
    }
    hide GapBreak, IsHot, AreTheRuns;
    if !IsHot(s[i], threshold) {
      ColdRuns(s, threshold, step, n, before);
    } else if i > 0 && before != [] && before[|before| - 1].hi == i - 1 && !GapBreak(s[i - 1], s[i], step) {
      GrownRuns(s, threshold, step, n, before);
    } else {
      StartedRuns(s, threshold, step, n, before);
    }
  }

  lemma RunBounds(s: seq<Sample>, threshold: real, step: int, n: nat, r: Interval)
    requires n <= |s| && IsMaximalRun(s, threshold, step, n, r)
    ensures r.lo <= r.hi < n
  {
  }

  /** One more sample that does not join it leaves a run maximal. */
  lemma RunStays(s: seq<Sample>, threshold: real, step: int, n: nat, r: Interval)
    requires 0 < n <= |s| && IsMaximalRun(s, threshold, step, n - 1, r)
    requires r.hi == n - 2 ==> !IsHot(s[n - 1], threshold) || GapBreak(s[n - 2], s[n - 1], step)
    ensures IsMaximalRun(s, threshold, step, n, r)
  {
    hide IsHot, GapBreak;
  }

  lemma RunGrows(s: seq<Sample>, threshold: real, step: int, n: nat, lo: nat)
    requires 1 < n <= |s| && IsMaximalRun(s, threshold, step, n - 1, Interval(lo, n - 2))
    requires IsHot(s[n - 1], threshold) && !GapBreak(s[n - 2], s[n - 1], step)
    ensures IsMaximalRun(s, threshold, step, n, Interval(lo, n - 1))
  {
    hide IsHot, GapBreak;
  }

  lemma RunStarts(s: seq<Sample>, threshold: real, step: int, n: nat)
    requires 0 < n <= |s| && IsHot(s[n - 1], threshold)
    requires n > 1 ==> !IsHot(s[n - 2], threshold) || GapBreak(s[n - 2], s[n - 1], step)
    ensures IsMaximalRun(s, threshold, step, n, Interval(n - 1, n - 1))
  {
    hide IsHot, GapBreak;
  }

  lemma ColdStays(s: seq<Sample>, threshold: real, step: int, i: nat)
    requires i < |s| && !IsHot(s[i], threshold)
    ensures RunsTo(s, threshold, step, i + 1) == RunsTo(s, threshold, step, i)
  {
  }

  lemma HotContinues(s: seq<Sample>, threshold: real, step: int, i: nat, lo: nat)
    requires 0 < i < |s| && lo < i && IsHot(s[i], threshold) && !GapBreak(s[i - 1], s[i], step)
    requires OpenRun(s, threshold, step, i, lo)
    ensures RunsTo(s, threshold, step, i + 1) ==
            RunsTo(s, threshold, step, i)[|RunsTo(s, threshold, step, i)| - 1 := Interval(lo, i)]
    ensures RunsTo(s, threshold, step, i + 1) == ClosedRuns(s, threshold, step, i) + [Interval(lo, i)]
    ensures OpenRun(s, threshold, step, i + 1, lo)
    ensures ClosedRuns(s, threshold, step, i + 1) == ClosedRuns(s, threshold, step, i)
  {
  }

  lemma HotStarts(s: seq<Sample>, threshold: real, step: int, i: nat)
    requires i < |s| && IsHot(s[i], threshold)
    requires var rs := RunsTo(s, threshold, step, i);
             rs != [] && rs[|rs| - 1].hi == i - 1 ==> GapBreak(s[i - 1], s[i], step)
    ensures RunsTo(s, threshold, step, i + 1) == RunsTo(s, threshold, step, i) + [Interval(i, i)]
    ensures OpenRun(s, threshold, step, i + 1, i)
    ensures ClosedRuns(s, threshold, step, i + 1) == RunsTo(s, threshold, step, i)
  {
  }

  lemma EndsInLast(rs: seq<Interval>, i: nat)
    requires rs != [] && rs[|rs| - 1].lo <= i <= rs[|rs| - 1].hi
    ensures InSomeRun(rs, i)
  {
  }

  /** Two maximal runs that meet are one. */
  lemma MeetingRuns(s: seq<Sample>, threshold: real, step: int, q: Interval, r: Interval)
    requires IsMaximalRun(s, threshold, step, |s|, q) && IsMaximalRun(s, threshold, step, |s|, r)
    requires q.lo <= r.lo <= q.hi
    ensures q == r
  {
    hide GapBreak, IsHot;
  }

  /** The runs are the only intervals with these properties. */
  lemma {:induction false} RunsAreUnique(s: seq<Sample>, threshold: real, step: int, rs: seq<Interval>, r: Interval)
    requires AreTheRuns(s, threshold, step, |s|, rs)
    requires IsMaximalRun(s, threshold, step, |s|, r)
    ensures r in rs
  {
    StartIsHot(s, threshold, step, r);
    hide IsMaximalRun, IsHot;
    var k :| 0 <= k < |rs| && rs[k].lo <= r.lo <= rs[k].hi;
    MeetingRuns(s, threshold, step, rs[k], r);
  }

  lemma StartIsHot(s: seq<Sample>, threshold: real, step: int, r: Interval)
    requires IsMaximalRun(s, threshold, step, |s|, r)
    ensures r.lo < |s| && IsHot(s[r.lo], threshold)
  {
    hide IsHot, GapBreak;
  }

  // ---------- Events ----------

  function Larger(a: real, b: real): real {
    if b > a then b else a
  }

  /** The largest value of a run. */
  function PeakOf(s: seq<Sample>, r: Interval): real
    requires r.lo <= r.hi < |s|
    decreases r.hi
  {
    if r.lo == r.hi then s[r.lo].value else Larger(PeakOf(s, r.(hi := r.hi - 1)), s[r.hi].value)
  }

  lemma {:induction false} PeakIsMaximum(s: seq<Sample>, r: Interval)
    requires r.lo <= r.hi < |s|
    ensures forall i | r.lo <= i <= r.hi :: s[i].value <= PeakOf(s, r)
    ensures exists i | r.lo <= i <= r.hi :: s[i].value == PeakOf(s, r)
    decreases r.hi
  {
    if r.lo == r.hi {
      assert s[r.lo].value == PeakOf(s, r);
    } else {
      var q := r.(hi := r.hi - 1);
      PeakIsMaximum(s, q);
      var i :| q.lo <= i <= q.hi && s[i].value == PeakOf(s, q);
      var j := if s[r.hi].value > s[i].value then r.hi else i;
      assert s[j].value == PeakOf(s, r);
    }
  }

  /** Python's round(x, 1) on exact reals: ties to the even tenth. */
  function RoundTenth(x: real): real {
    var n := (x * 10.0).Floor;
    var rest := x * 10.0 - n as real;
    (if rest < 0.5 || (rest == 0.5 && n % 2 == 0) then n else n + 1) as real / 10.0
  }

  function Duration(start: int, end: int, step: int): int {
    var d := (end - start) / 1000 + step;
    if d < step then step else d
  }

  function EventOf(node: string, metric: string, s: seq<Sample>, r: Interval, step: int): Event
    requires r.lo <= r.hi < |s|
  {
    Event(node, metric, s[r.lo].at, s[r.hi].at, Duration(s[r.lo].at, s[r.hi].at, step), RoundTenth(PeakOf(s, r)))
  }

  function EventsOf(node: string, metric: string, s: seq<Sample>, rs: seq<Interval>, step: int): (es: seq<Event>)
    requires forall i | 0 <= i < |rs| :: rs[i].lo <= rs[i].hi < |s|
    ensures |es| == |rs|
  {
    seq(|rs|, i requires 0 <= i < |rs| => EventOf(node, metric, s, rs[i], step))
  }

  // ---------- What an event says ----------

  /** Two neighbouring samples at most two steps apart, in whole seconds. */
  predicate Close(a: Sample, b: Sample, step: int) {
    b.at - a.at < 2000 * step + 1000
  }

  /** x is n tenths, the nearest number of tenths to v, and the even one when two are as near. */
  predicate TenthsOf(n: int, x: real, v: real) {
    && x * 10.0 == n as real
    && -0.5 <= v * 10.0 - n as real <= 0.5
    && (v * 10.0 - n as real == 0.5 || n as real - v * 10.0 == 0.5 ==> n % 2 == 0)
  }

  ghost predicate IsTenthOf(x: real, v: real) {
    exists n :: TenthsOf(n, x, v)
  }

  /** The samples lo..hi are all at or above the threshold, each close to the one before it, and neither neighbour
      belongs to them. */
  ghost predicate Stretch(s: seq<Sample>, threshold: real, step: int, lo: nat, hi: nat)
    requires lo <= hi < |s|
  {
    && (forall i | lo <= i <= hi :: s[i].value >= threshold)
    && (forall i | lo < i <= hi :: Close(s[i - 1], s[i], step))
    && (lo > 0 ==> s[lo - 1].value < threshold || !Close(s[lo - 1], s[lo], step))
    && (hi + 1 < |s| ==> s[hi + 1].value < threshold || !Close(s[hi], s[hi + 1], step))
  }

  /** The event is that of the samples lo..hi. */
  ghost predicate Describes(e: Event, node: string, metric: string, s: seq<Sample>, threshold: real, step: int,
                            lo: nat, hi: nat)
  {
    && lo <= hi < |s| && Stretch(s, threshold, step, lo, hi)
    && e.node == node && e.metric == metric && e.start == s[lo].at && e.end == s[hi].at
    && e.duration == (e.end - e.start) / 1000 + step
    && exists p | lo <= p <= hi ::
         (forall i | lo <= i <= hi :: s[i].value <= s[p].value) && IsTenthOf(e.peak, s[p].value)
  }

  lemma RoundsToTenth(v: real)
    ensures IsTenthOf(RoundTenth(v), v)
  {
    var n := (v * 10.0).Floor;
    var rest := v * 10.0 - n as real;
    var m := if rest < 0.5 || (rest == 0.5 && n % 2 == 0) then n else n + 1;
    assert TenthsOf(m, RoundTenth(v), v);
  }

  ghost predicate OfStretch(e: Event, node: string, metric: string, s: seq<Sample>, threshold: real, step: int) {
    exists lo, hi :: Describes(e, node, metric, s, threshold, step, lo, hi)
  }

  /** A run's samples, in the terms an event speaks of. */
  lemma RunIsStretch(s: seq<Sample>, threshold: real, step: int, r: Interval)
    requires step > 0 && IsMaximalRun(s, threshold, step, |s|, r)
    ensures r.lo <= r.hi < |s| && Stretch(s, threshold, step, r.lo, r.hi)
  {
    assert forall i | 0 < i < |s| :: Close(s[i - 1], s[i], step) <==> !GapBreak(s[i - 1], s[i], step);
    hide Close, GapBreak;
  }

  lemma EventDescribes(node: string, metric: string, s: seq<Sample>, threshold: real, step: int, r: Interval)
    requires InTimeOrder(s) && step > 0 && IsMaximalRun(s, threshold, step, |s|, r)
    ensures r.hi < |s| && Describes(EventOf(node, metric, s, r, step), node, metric, s, threshold, step, r.lo, r.hi)
  {
    RunIsStretch(s, threshold, step, r);
    PeakIsMaximum(s, r);
    var p :| r.lo <= p <= r.hi && s[p].value == PeakOf(s, r);
    RoundsToTenth(s[p].value);
    hide PeakOf, RoundTenth, IsTenthOf, IsMaximalRun, Stretch;
  }

  /** The events are those of unbroken hot stretches, in order, and every hot sample lies in one. */
  ghost predicate StretchEvents(es: seq<Event>, node: string, metric: string, s: seq<Sample>, threshold: real,
                                step: int)
  {
    && (forall k | 0 <= k < |es| :: OfStretch(es[k], node, metric, s, threshold, step))
    && (forall j, k | 0 <= j < k < |es| :: es[j].start <= es[j].end <= es[k].start)
    && (forall i | 0 <= i < |s| && s[i].value >= threshold :: Lies(s[i].at, es))
  }

  /** A series' events are those of its stretches. */
  lemma EventsAreTheStretches(node: string, metric: string, s: seq<Sample>, threshold: real, step: int)
    requires InTimeOrder(s) && step > 0
    ensures StretchEvents(EventsOf(node, metric, s, RunsTo(s, threshold, step, |s|), step),
                          node, metric, s, threshold, step)
  {
    hide RunsTo, IsMaximalRun, Describes, PeakOf, RoundTenth, Duration, Lies;
    var rs := RunsTo(s, threshold, step, |s|);
    var es := EventsOf(node, metric, s, rs, step);
    RunsToAreTheRuns(s, threshold, step, |s|);
    forall k | 0 <= k < |es| ensures OfStretch(es[k], node, metric, s, threshold, step) {
      EventDescribes(node, metric, s, threshold, step, rs[k]);
      assert es[k] == EventOf(node, metric, s, rs[k], step);
      assert Describes(es[k], node, metric, s, threshold, step, rs[k].lo, rs[k].hi);
    }
    forall i | 0 <= i < |s| && s[i].value >= threshold ensures Lies(s[i].at, es) {
      HotSampleLies(node, metric, s, threshold, step, rs, i);
    }
  }

  /** The time lies within an event. */
  ghost predicate Lies(at: int, es: seq<Event>) {
    exists k | 0 <= k < |es| :: es[k].start <= at <= es[k].end
  }

  lemma HotSampleLies(node: string, metric: string, s: seq<Sample>, threshold: real, step: int, rs: seq<Interval>,
                      i: nat)
    requires InTimeOrder(s) && AreTheRuns(s, threshold, step, |s|, rs) && i < |s| && s[i].value >= threshold
    requires forall k | 0 <= k < |rs| :: rs[k].lo <= rs[k].hi < |s|
    ensures Lies(s[i].at, EventsOf(node, metric, s, rs, step))
  {
    hide IsMaximalRun, PeakOf, RoundTenth, Duration;
    assert IsHot(s[i], threshold);
    var k :| 0 <= k < |rs| && rs[k].lo <= i <= rs[k].hi;
    assert EventsOf(node, metric, s, rs, step)[k] == EventOf(node, metric, s, rs[k], step);
  }

  /** The series of one node and metric, as a value. */
  datatype Series = Series(metric: string, node: string, values: seq<Sample>)

  function SeriesEvents(x: Series, threshold: real, step: int): seq<Event> {
    var s := StableSort(x.values, NotAfter);
    EventsOf(x.node, x.metric, s, RunsTo(s, threshold, step, |s|), step)
  }

  function AllEvents(xs: seq<Series>, threshold: real, step: int): seq<Event> {
    if xs == [] then []
    else AllEvents(xs[..|xs| - 1], threshold, step) + SeriesEvents(xs[|xs| - 1], threshold, step)
  }

  /** Descending order on (start, duration, peak). */
  predicate NotBelow(a: Event, b: Event) {
    || a.start > b.start
    || (a.start == b.start && a.duration > b.duration)
    || (a.start == b.start && a.duration == b.duration && a.peak >= b.peak)
  }

  function TopEvents(events: seq<Event>, limit: int): seq<Event> {
    var sorted := StableSort(events, NotBelow);
    if limit <= 0 then [] else if limit < |sorted| then sorted[..limit] else sorted
  }

  lemma Prefix<T(!new)>(sorted: seq<T>, n: nat, le: (T, T) -> bool)
    requires Ordered(sorted, le) && n <= |sorted|
    ensures Ordered(sorted[..n], le)
    ensures multiset(sorted[..n]) + multiset(sorted[n..]) == multiset(sorted)
    ensures forall t, r | t in sorted[..n] && r in sorted[n..] :: le(t, r)
  {
    assert sorted == sorted[..n] + sorted[n..];
    forall t, r | t in sorted[..n] && r in sorted[n..] ensures le(t, r) {
      var i :| 0 <= i < n && sorted[..n][i] == t;
      var j :| 0 <= j < |sorted| - n && sorted[n..][j] == r;
      assert sorted[i] == t && sorted[n + j] == r;
    }
  }

  lemma NotBelowIsTotal()
    ensures TotalPreorder(NotBelow)
  {
  }

  /** The result is the top of the events in descending order: what is left out is not above it. */
  lemma TopEventsAreTheTop(events: seq<Event>, limit: int)
    ensures var top := TopEvents(events, limit);
            && Ordered(top, NotBelow)
            && |top| == (if limit <= 0 then 0 else if limit < |events| then limit else |events|)
            && exists rest: seq<Event> ::
                 && multiset(top) + multiset(rest) == multiset(events)
                 && forall t, r | t in top && r in rest :: NotBelow(t, r)
  {
    hide StableSort, NotBelow, Ordered, TotalPreorder;
    var sorted := StableSort(events, NotBelow);
    NotBelowIsTotal();
    StableSortOrdered(events, NotBelow);
    var top := TopEvents(events, limit);
    var n := |top|;
    assert top == sorted[..n];
    Prefix(sorted, n, NotBelow);
    var rest := sorted[n..];
    assert multiset(top) + multiset(rest) == multiset(events);
  }

  /** Newest first: the later start, then the longer duration, then the higher peak. */
  predicate Precedes(a: Event, b: Event) {
    && a.start >= b.start
    && (a.start == b.start ==> a.duration >= b.duration)
    && (a.start == b.start && a.duration == b.duration ==> a.peak >= b.peak)
  }

  /** The events returned are the newest ones, newest first. */
  lemma TopEventsAreTheNewest(events: seq<Event>, limit: int)
    ensures var top := TopEvents(events, limit);
            && (forall i, j | 0 <= i < j < |top| :: Precedes(top[i], top[j]))
            && exists rest: seq<Event> ::
                 && multiset(top) + multiset(rest) == multiset(events)
                 && forall t, r | t in top && r in rest :: Precedes(t, r)
  {
    TopEventsAreTheTop(events, limit);
    hide TopEvents;
    assert forall a, b :: NotBelow(a, b) <==> Precedes(a, b);
  }

  // ---------- The loop ----------

  lemma PeakOfOne(s: seq<Sample>, i: nat)
    requires i < |s|
    ensures PeakOf(s, Interval(i, i)) == s[i].value
  {
  }

  lemma PeakGrows(s: seq<Sample>, lo: nat, i: nat)
    requires lo < i < |s|
    ensures PeakOf(s, Interval(lo, i)) == Larger(PeakOf(s, Interval(lo, i - 1)), s[i].value)
  {
    hide Larger;
  }

  /** Ending the open run adds its event. */
  lemma CloseOpenRun(node: string, metric: string, s: seq<Sample>, threshold: real, step: int, n: nat, lo: nat)
    requires lo < n <= |s| && OpenRun(s, threshold, step, n, lo)
    ensures EventsOf(node, metric, s, RunsTo(s, threshold, step, n), step) ==
            EventsOf(node, metric, s, ClosedRuns(s, threshold, step, n), step)
            + [Event(node, metric, s[lo].at, s[n - 1].at, Duration(s[lo].at, s[n - 1].at, step),
                     RoundTenth(PeakOf(s, Interval(lo, n - 1))))]
  {
    hide PeakOf, RoundTenth, Duration, RunsTo, ClosedRuns, OpenRun, EventsOf;
    OpenIsLast(s, threshold, step, n, lo);
    EventsSnoc(node, metric, s, ClosedRuns(s, threshold, step, n), Interval(lo, n - 1), step);
  }

  /** The loop over one series, on samples already in time order. */
  method ExtractEvents(node: string, metric: string, s: seq<Sample>, threshold: real, step: int)
    returns (events: seq<Event>)
    ensures events == EventsOf(node, metric, s, RunsTo(s, threshold, step, |s|), step)
  {
    hide GapBreak, RoundTenth, Duration, RunsTo, ClosedRuns, OpenRun, EventsOf, Larger, PeakOf, IsHot, EventOf;
    events := [];
    var eventStart: Option<int> := None;
    var eventEnd := 0;
    var peak := threshold;
    ghost var lo: nat := 0;
    NoRuns(node, metric, s, threshold, step);
    for i := 0 to |s|
      invariant eventStart.None? ==> events == EventsOf(node, metric, s, RunsTo(s, threshold, step, i), step)
      invariant eventStart.None? && 0 < i < |s| ==> !IsHot(s[i - 1], threshold)
      invariant eventStart.Some? ==>
          && 0 < i < |s| && lo < i && eventStart.value == s[lo].at && eventEnd == s[i - 1].at
          && peak == PeakOf(s, Interval(lo, i - 1))
          && OpenRun(s, threshold, step, i, lo)
          && events == EventsOf(node, metric, s, ClosedRuns(s, threshold, step, i), step)
    {
      var ts := s[i].at;
      var gapBreak := i > 0 && GapBreak(s[i - 1], s[i], step);
      var isHot := IsHot(s[i], threshold);
      RunsBefore(s, threshold, step, i);
      if gapBreak && eventStart.Some? {
        CloseOpenRun(node, metric, s, threshold, step, i, lo);
        events := events + [Event(node, metric, eventStart.value, eventEnd,
                                  Duration(eventStart.value, eventEnd, step), RoundTenth(peak))];
        eventStart := None;
        peak := threshold;
      }
      if isHot && eventStart.None? {
        HotStarts(s, threshold, step, i);
        PeakOfOne(s, i);
        eventStart := Some(ts);
        eventEnd := ts;
        peak := s[i].value;
        lo := i;
      } else if isHot {
        HotContinues(s, threshold, step, i, lo);
        PeakGrows(s, lo, i);
        eventEnd := ts;
        peak := Larger(peak, s[i].value);
      } else {
        ColdStays(s, threshold, step, i);
      }
      if (!isHot || i == |s| - 1) && eventStart.Some? {
        if isHot {
          eventEnd := ts;
        }
        ghost var hi := if isHot then i else i - 1;
        CloseOpenRun(node, metric, s, threshold, step, hi + 1, lo);
        events := events + [Event(node, metric, eventStart.value, eventEnd,
                                  Duration(eventStart.value, eventEnd, step), RoundTenth(peak))];
        eventStart := None;
        peak := threshold;
      }
    }
  }

  lemma NoRuns(node: string, metric: string, s: seq<Sample>, threshold: real, step: int)
    ensures RunsTo(s, threshold, step, 0) == [] && EventsOf(node, metric, s, [], step) == []
  {
  }

  lemma OpenIsLast(s: seq<Sample>, threshold: real, step: int, n: nat, lo: nat)
    requires 0 < n <= |s| && OpenRun(s, threshold, step, n, lo)
    ensures RunsTo(s, threshold, step, n) == ClosedRuns(s, threshold, step, n) + [Interval(lo, n - 1)]
  {
  }

  /** The last run of the first n samples starts at lo and reaches the last of them. */
  ghost predicate OpenRun(s: seq<Sample>, threshold: real, step: int, n: nat, lo: nat)
    requires n <= |s|
  {
    var rs := RunsTo(s, threshold, step, n);
    rs != [] && rs[|rs| - 1] == Interval(lo, n - 1)
  }

  ghost function ClosedRuns(s: seq<Sample>, threshold: real, step: int, n: nat): (rs: seq<Interval>)
    requires n <= |s|
    ensures forall i | 0 <= i < |rs| :: rs[i].lo <= rs[i].hi < n
  {
    var rs := RunsTo(s, threshold, step, n);
    if rs == [] then [] else rs[..|rs| - 1]
  }

  lemma RunsBefore(s: seq<Sample>, threshold: real, step: int, n: nat)
    requires n <= |s|
    ensures var rs := RunsTo(s, threshold, step, n);
            0 < n && !IsHot(s[n - 1], threshold) && rs != [] ==> rs[|rs| - 1].hi < n - 1
  {
  }

  lemma EventsSnoc(node: string, metric: string, s: seq<Sample>, rs: seq<Interval>, r: Interval, step: int)
    requires forall i | 0 <= i < |rs| :: rs[i].lo <= rs[i].hi < |s|
    requires r.lo <= r.hi < |s|
    ensures EventsOf(node, metric, s, rs + [r], step) ==
            EventsOf(node, metric, s, rs, step) + [EventOf(node, metric, s, r, step)]
  {
  }

  datatype Outcome = Events(events: seq<Event>) | ValueError

  method BuildHotspotEvents(series: seq<Series>, threshold: real, step: int, limit: int) returns (o: Outcome)
    ensures o == if step <= 0 then ValueError else Events(TopEvents(AllEvents(series, threshold, step), limit))
  {
    if step <= 0 { return ValueError; }
    var events: seq<Event> := [];
    for i := 0 to |series|
      invariant events == AllEvents(series[..i], threshold, step)
    {
      assert series[..i + 1][..i] == series[..i];
      var x := series[i];
      var ordered := StableSort(x.values, NotAfter);
      var more := ExtractEvents(x.node, x.metric, ordered, threshold, step);
      events := events + more;
    }
    assert series[..|series|] == series;
    return Events(TopEvents(events, limit));
  }
}
