/** Bucketed job timelines: the window and bucket size, and the series the align-and-step loop makes
    of the counts grouped by UTC bucket. Times are milliseconds since the epoch. */
module Timeline {
  import opened Common
  import opened Division

  datatype Resolution = Minute | Hour | Day | Week

  const MINUTE: int := 60000
  const HOUR: int := 3600000
  const DAY: int := 86400000
  const WEEK: int := 604800000
  const FIRST_MONDAY: int := 345600000 // 1970-01-05

  function Size(res: Resolution): (q: int)
    ensures q > 0
  {
    match res case Minute => MINUTE case Hour => HOUR case Day => DAY case Week => WEEK
  }

  /** Weeks start on Monday. */
  function Phase(res: Resolution): int {
    if res == Week then FIRST_MONDAY else 0
  }

  /** date_trunc in UTC. */
  function Trunc(t: int, res: Resolution): int {
    (t - Phase(res)) / Size(res) * Size(res) + Phase(res)
  }

  /** _align_bucket: the fields of the local time are cut, the offset stays. */
  function Align(t: int, offset: int, res: Resolution): int {
    Trunc(t + offset, res) - offset
  }

  lemma TruncBounds(t: int, res: Resolution)
    ensures Trunc(t, res) <= t < Trunc(t, res) + Size(res)
  {
    var q := Size(res);
    var x := t - Phase(res);
    assert x == q * (x / q) + x % q;
  }

  lemma CutToUnit(t: int, q: int)
    requires q > 0
    ensures (t / q * q) % q == 0 && 0 <= t - t / q * q < q
  {
    assert t == t / q * q + t % q;
    AddMultiple(0, q, t / q);
    assert t / q * q == q * (t / q) + 0;
  }

  /** Where buckets start: at whole minutes, hours and days. */
  lemma BucketStarts(t: int)
    ensures Trunc(t, Minute) % 60000 == 0 && 0 <= t - Trunc(t, Minute) < 60000
    ensures Trunc(t, Hour) % 3600000 == 0 && 0 <= t - Trunc(t, Hour) < 3600000
    ensures Trunc(t, Day) % 86400000 == 0 && 0 <= t - Trunc(t, Day) < 86400000
  {
    CutToUnit(t, 60000);
    CutToUnit(t, 3600000);
    CutToUnit(t, 86400000);
    assert Trunc(t, Minute) == t / 60000 * 60000;
    assert Trunc(t, Hour) == t / 3600000 * 3600000;
    assert Trunc(t, Day) == t / 86400000 * 86400000;
  }

  /** Weeks start at midnight on Mondays, 1970-01-01 having been a Thursday. */
  lemma WeekStarts(t: int)
    ensures var days := Trunc(t, Week) / 86400000;
            Trunc(t, Week) == 86400000 * days && (days + 3) % 7 == 0
    ensures 0 <= t - Trunc(t, Week) < 7 * 86400000
  {
    CutToUnit(t - 345600000, 604800000);
    var w := (t - 345600000) / 604800000;
    assert Trunc(t, Week) == w * 604800000 + 345600000;
    hide Trunc;
    MondayDays(Trunc(t, Week), w);
  }

  lemma MondayDays(at: int, w: int)
    requires at == w * 604800000 + 345600000
    ensures at / 86400000 == 7 * w + 4 && at == 86400000 * (at / 86400000) && (at / 86400000 + 3) % 7 == 0
  {
    DivisionIsUnique(at, 86400000, 7 * w + 4, 0);
    DivisionIsUnique(7 * w + 7, 7, w + 1, 0);
  }

  // ---------- Window ----------

  datatype Window = Window(start: int, end: int, res: Resolution) | ValueError

  datatype Range = LastHour | LastDay | LastWeek | Unsupported

  /** _resolve_history_window_and_bucket; the two clock readings are parameters. */
  function ResolveWindow(range: Option<Range>, start: Option<int>, end: Option<int>, now: int, later: int): Window {
    if start.Some? || end.Some? then
      if start.None? || end.None? then ValueError
      else if start.value >= end.value then ValueError
      else
        var duration := end.value - start.value;
        if duration <= 48 * HOUR then Window(start.value, end.value, Hour)
        else if duration <= 62 * DAY then Window(start.value, end.value, Day)
        else Window(start.value, end.value, Week)
    else
      match if range.Some? then range.value else LastHour
      case LastHour => Window(now - HOUR, later, Minute)
      case LastDay => Window(now - DAY, later, Hour)
      case LastWeek => Window(now - WEEK, later, Day)
      case Unsupported => ValueError
  }

  /** Which window a request gets: an explicit one needs both ends in order, and its length picks the bucket; a named
      range ends now and starts an hour, a day or a week before. */
  lemma WindowIs(range: Option<Range>, start: Option<int>, end: Option<int>, now: int, later: int)
    ensures var w := ResolveWindow(range, start, end, now, later);
            && (start.Some? || end.Some? ==>
                  && (w == ValueError <==> !(start.Some? && end.Some? && start.value < end.value))
                  && (w.Window? ==>
                        && w.start == start.value && w.end == end.value
                        && (w.res == Hour <==> w.end - w.start <= 172800000)
                        && (w.res == Week <==> w.end - w.start > 5356800000)
                        && w.res != Minute))
            && (start.None? && end.None? ==>
                  && (w == ValueError <==> range == Some(Unsupported))
                  && (w.Window? ==>
                        && w.end == later
                        && (range in {None, Some(LastHour)} ==> w.start == now - 3600000 && w.res == Minute)
                        && (range == Some(LastDay) ==> w.start == now - 86400000 && w.res == Hour)
                        && (range == Some(LastWeek) ==> w.start == now - 604800000 && w.res == Day)))
  {
  }

  // ---------- Counts ----------

  /** How many of these times fall into the bucket starting at b. */
  function CountAt(times: seq<int>, res: Resolution, b: int): nat {
    if times == [] then 0
    else CountAt(times[..|times| - 1], res, b) + if Trunc(times[|times| - 1], res) == b then 1 else 0
  }

  /** SELECT bucket, COUNT(*) ... GROUP BY bucket */
  function Grouped(times: seq<int>, res: Resolution): (values: map<int, nat>)
    ensures forall b :: (if b in values then values[b] else 0) == CountAt(times, res, b)
  {
    if times == [] then map[]
    else
      var values := Grouped(times[..|times| - 1], res);
      var b := Trunc(times[|times| - 1], res);
      values[b := (if b in values then values[b] else 0) + 1]
  }

  datatype Point = Point(bucket: int, count: nat)

  /** The bucket starts from c on, up to end. */
  function Cursors(c: int, end: int, res: Resolution): seq<int>
    decreases end - c
  {
    if c > end then [] else [c] + Cursors(c + Size(res), end, res)
  }

  function SeriesAt(cursors: seq<int>, times: seq<int>, res: Resolution): (s: seq<Point>)
    ensures |s| == |cursors|
  {
    seq(|cursors|, i requires 0 <= i < |cursors| => Point(cursors[i], CountAt(times, res, cursors[i])))
  }

  function SumCounts(s: seq<Point>): nat {
    if s == [] then 0 else SumCounts(s[..|s| - 1]) + s[|s| - 1].count
  }

  /** The loop of the timeline methods. */
  method BuildSeries(times: seq<int>, start: int, end: int, offset: int, res: Resolution) returns (series: seq<Point>)
    ensures series == SeriesAt(Cursors(Align(start, offset, res), end, res), times, res)
  {
    hide Trunc, CountAt;
    var values := Grouped(times, res);
    var cursor := Align(start, offset, res);
    ghost var all := Cursors(cursor, end, res);
    ghost var done: seq<int> := [];
    series := [];
    while cursor <= end
      invariant done + Cursors(cursor, end, res) == all
      invariant series == SeriesAt(done, times, res)
      decreases end - cursor
    {
      series := series + [Point(cursor, if cursor in values then values[cursor] else 0)];
      done := done + [cursor];
      cursor := cursor + Size(res);
    }
    assert done == all;
  }

  // ---------- No job is lost ----------

  lemma {:induction false} CursorMembers(c: int, end: int, res: Resolution, b: int)
    ensures b in Cursors(c, end, res) <==> c <= b <= end && (b - c) % Size(res) == 0
    decreases end - c
  {
    if c <= end {
      CursorMembers(c + Size(res), end, res, b);
      SameResidue(b - c, res);
    }
  }

  lemma SameResidue(d: int, res: Resolution)
    ensures (d - Size(res)) % Size(res) == 0 <==> d % Size(res) == 0
    ensures 0 < d < Size(res) ==> d % Size(res) != 0
  {
    var q := Size(res);
    AddMultiple(d, q, -1);
    if 0 < d < q {
      DivisionIsUnique(d, q, 0, d);
    }
  }

  lemma {:induction false} CursorsAscend(c: int, end: int, res: Resolution)
    ensures forall i | 0 <= i < |Cursors(c, end, res)| :: Cursors(c, end, res)[i] >= c
    ensures forall i, j | 0 <= i < j < |Cursors(c, end, res)| :: Cursors(c, end, res)[i] < Cursors(c, end, res)[j]
    decreases end - c
  {
    if c <= end {
      CursorsAscend(c + Size(res), end, res);
    }
  }

  lemma SumSnoc(cursors: seq<int>, times: seq<int>, res: Resolution)
    requires cursors != []
    ensures var n := |cursors| - 1;
            SumCounts(SeriesAt(cursors, times, res)) ==
            SumCounts(SeriesAt(cursors[..n], times, res)) + CountAt(times, res, cursors[n])
  {
    var n := |cursors| - 1;
    hide CountAt;
    assert SeriesAt(cursors, times, res)[..n] == SeriesAt(cursors[..n], times, res);
  }

  /** One more job adds one to the series exactly when its bucket is a point of it. */
  lemma {:induction false} SumOneMore(cursors: seq<int>, times: seq<int>, t: int, res: Resolution)
    requires forall i, j | 0 <= i < j < |cursors| :: cursors[i] < cursors[j]
    ensures SumCounts(SeriesAt(cursors, times + [t], res)) ==
            SumCounts(SeriesAt(cursors, times, res)) + if Trunc(t, res) in cursors then 1 else 0
  {
    if cursors != [] {
      var n := |cursors| - 1;
      SumOneMore(cursors[..n], times, t, res);
      SumSnoc(cursors, times + [t], res);
      SumSnoc(cursors, times, res);
      assert (times + [t])[..|times|] == times;
      hide Trunc, SumCounts, SeriesAt;
      assert Trunc(t, res) in cursors <==> Trunc(t, res) in cursors[..n] || Trunc(t, res) == cursors[n];
    }
  }

  lemma {:induction false} SumNone(cursors: seq<int>, res: Resolution)
    ensures SumCounts(SeriesAt(cursors, [], res)) == 0
  {
    if cursors != [] {
      SumSnoc(cursors, [], res);
      SumNone(cursors[..|cursors| - 1], res);
    }
  }

  /** A bucket of a time in the window is a point of the series exactly when the window's offset is a
      whole number of buckets. */
  lemma BucketIsPoint(t: int, start: int, end: int, offset: int, res: Resolution)
    requires start <= t <= end
    ensures Trunc(t, res) in Cursors(Align(start, offset, res), end, res) <==> offset % Size(res) == 0
  {
    var b, c := Trunc(t, res), Align(start, offset, res);
    CursorMembers(c, end, res, b);
    TruncBounds(t, res);
    TruncBounds(start + offset, res);
    OffsetResidue(t, start, offset, res);
    if offset % Size(res) == 0 {
      NotBefore(t, start, offset, res);
    }
  }

  lemma OffsetResidue(t: int, start: int, offset: int, res: Resolution)
    ensures (Trunc(t, res) - Align(start, offset, res)) % Size(res) == 0 <==> offset % Size(res) == 0
  {
    var q, p := Size(res), Phase(res);
    var k := (t - p) / q - (start + offset - p) / q;
    assert Trunc(t, res) - Align(start, offset, res) == q * k + offset;
    AddMultiple(offset, q, k);
  }

  lemma NotBefore(t: int, start: int, offset: int, res: Resolution)
    requires start <= t && offset % Size(res) == 0
    ensures Align(start, offset, res) <= Trunc(t, res)
  {
    var q, p := Size(res), Phase(res);
    var m := offset / q;
    assert offset == q * m;
    AddMultiple(start - p, q, m);
    assert start + offset - p == q * m + (start - p);
    assert (m + (start - p) / q) * q == m * q + (start - p) / q * q;
    assert Align(start, offset, res) == Trunc(start, res);
    DivisionMonotone(start - p, t - p, q);
  }

  /** The series total: every job when the window's offset is a whole number of buckets, none otherwise. */
  lemma {:induction false} SeriesTotal(times: seq<int>, start: int, end: int, offset: int, res: Resolution)
    requires forall i | 0 <= i < |times| :: start <= times[i] <= end
    ensures SumCounts(SeriesAt(Cursors(Align(start, offset, res), end, res), times, res)) ==
            if offset % Size(res) == 0 then |times| else 0
  {
    var cursors := Cursors(Align(start, offset, res), end, res);
    if times == [] {
      SumNone(cursors, res);
    } else {
      var n := |times| - 1;
      SeriesTotal(times[..n], start, end, offset, res);
      CursorsAscend(Align(start, offset, res), end, res);
      SumOneMore(cursors, times[..n], times[n], res);
      assert times == times[..n] + [times[n]];
      BucketIsPoint(times[n], start, end, offset, res);
    }
  }

  /** The windows the program asks for are in UTC, and such a timeline never loses a job. */
  lemma UtcTimelineLosesNoJob(times: seq<int>, start: int, end: int, res: Resolution)
    requires forall i | 0 <= i < |times| :: start <= times[i] <= end
    ensures SumCounts(SeriesAt(Cursors(Align(start, 0, res), end, res), times, res)) == |times|
  {
    SeriesTotal(times, start, end, 0, res);
  }

  /** A timeline loses no job exactly when there is none or its window's offset is a whole number of
      buckets; so any other offset loses them all. */
  lemma TimelineLosesNoJob(times: seq<int>, start: int, end: int, offset: int, res: Resolution)
    requires forall i | 0 <= i < |times| :: start <= times[i] <= end
    ensures SumCounts(SeriesAt(Cursors(Align(start, offset, res), end, res), times, res)) == |times| <==>
            times == [] || offset % Size(res) == 0
  {
    SeriesTotal(times, start, end, offset, res);
  }

  // ---------- How many points ----------

  lemma {:induction false} CursorCount(c: int, end: int, res: Resolution, n: nat)
    requires end - c < n * Size(res)
    ensures |Cursors(c, end, res)| <= n
    decreases n
  {
    if c <= end {
      assert n > 0;
      CursorCount(c + Size(res), end, res, n - 1);
    }
  }

  /** An explicit window of up to 48 hours has at most 49 points, one of up to 62 days at most 63. */
  lemma ExplicitWindowPoints(range: Option<Range>, start: int, end: int, now: int, later: int, offset: int)
    requires start < end && end - start <= 62 * DAY
    ensures var w := ResolveWindow(range, Some(start), Some(end), now, later);
            w.Window? &&
            |Cursors(Align(w.start, offset, w.res), w.end, w.res)| <= if end - start <= 48 * HOUR then 49 else 63
  {
    var res := if end - start <= 48 * HOUR then Hour else Day;
    TruncBounds(start + offset, res);
    var n := if end - start <= 48 * HOUR then 49 else 63;
    CursorCount(Align(start, offset, res), end, res, n);
  }
}
