/** The step system's queue, read as rows: its locked steps are those of the JobsStore methods. */
module JobsQueueRows {
  import opened JobRecords
  import opened JobsQueue
  import opened JobsReconcile
  import opened JobsStoreObject

  function RowsOf(s: State, vs: seq<nat>): (rows: seq<Row>)
    requires Known(s, vs)
    ensures |rows| == |vs| && forall i | 0 <= i < |vs| :: rows[i] == s.submitted[vs[i]]
  {
    seq(|vs|, i requires 0 <= i < |vs| => s.submitted[vs[i]])
  }

  /** self._pending as the program holds it. */
  function PendingRows(s: State): (m: map<Key, Row>)
    requires WellFormed(s)
  {
    map k | k in s.pending :: s.submitted[s.pending[k]]
  }

  /** The rows with these versions, by key. */
  ghost predicate Images(submitted: seq<Row>, versions: map<Key, nat>, rows: map<Key, Row>) {
    && versions.Keys == rows.Keys
    && forall k | k in versions :: versions[k] < |submitted| && submitted[versions[k]] == rows[k]
  }

  lemma ImagesAdd(submitted: seq<Row>, versions: map<Key, nat>, rows: map<Key, Row>, k: Key, v: nat)
    requires Images(submitted, versions, rows) && v < |submitted|
    ensures Images(submitted, versions[k := v], rows[k := submitted[v]])
  {
  }

  lemma ImagesLonger(submitted: seq<Row>, row: Row, versions: map<Key, nat>, rows: map<Key, Row>)
    requires Images(submitted, versions, rows)
    ensures Images(submitted + [row], versions, rows)
  {
  }

  lemma ImagesUnique(submitted: seq<Row>, versions: map<Key, nat>, rows: map<Key, Row>, others: map<Key, Row>)
    requires Images(submitted, versions, rows) && Images(submitted, versions, others)
    ensures rows == others
  {
  }

  lemma PendingImages(s: State)
    requires WellFormed(s)
    ensures Images(s.submitted, s.pending, PendingRows(s))
  {
    hide Known;
  }

  lemma VersionsNext(s: State, vs: seq<nat>, n: nat)
    requires Known(s, vs) && |vs| == n + 1
    ensures Known(s, vs[..n])
    ensures ByVersion(s, vs) == ByVersion(s, vs[..n])[s.submitted[vs[n]].key := vs[n]]
  {
  }

  lemma RowsNext(s: State, vs: seq<nat>, n: nat)
    requires Known(s, vs) && |vs| == n + 1
    ensures Known(s, vs[..n])
    ensures ByKey(RowsOf(s, vs)) == ByKey(RowsOf(s, vs[..n]))[s.submitted[vs[n]].key := s.submitted[vs[n]]]
  {
    hide ByKey;
    assert RowsOf(s, vs)[..n] == RowsOf(s, vs[..n]);
    ByKeyNext(RowsOf(s, vs), n);
    assert RowsOf(s, vs)[..n + 1] == RowsOf(s, vs);
  }

  lemma {:induction false} VersionsAreRows(s: State, vs: seq<nat>)
    requires Known(s, vs)
    ensures Images(s.submitted, ByVersion(s, vs), ByKey(RowsOf(s, vs)))
  {
    if vs == [] {
      assert RowsOf(s, vs) == [];
    } else {
      hide ByKey, ByVersion, RowsOf, Images;
      var n := |vs| - 1;
      VersionsNext(s, vs, n);
      RowsNext(s, vs, n);
      VersionsAreRows(s, vs[..n]);
      ImagesAdd(s.submitted, ByVersion(s, vs[..n]), ByKey(RowsOf(s, vs[..n])), s.submitted[vs[n]].key, vs[n]);
    }
  }

  lemma QueuedOne(pending: map<Key, Row>, row: Row)
    ensures Queued(pending, [row]) == pending[row.key := row]
  {
    ByKeyNone();
    ByKeySnoc([], row);
    hide ByKey;
    assert [] + [row] == [row];
  }

  lemma SubmittedState(s: State, row: Row)
    requires WellFormed(s) && Enabled(s, Submit(row))
    ensures var t := Apply(s, Submit(row));
            t.submitted == s.submitted + [row] && t.pending == s.pending[row.key := |s.submitted|]
  {
    hide WellFormed;
  }

  lemma SubmitIsQueueRows(s: State, row: Row)
    requires WellFormed(s) && Enabled(s, Submit(row)) && WellFormed(Apply(s, Submit(row)))
    ensures PendingRows(Apply(s, Submit(row))) == Queued(PendingRows(s), [row])
  {
    hide WellFormed, Enabled, Apply, PendingRows, Images, Queued;
    var t := Apply(s, Submit(row));
    SubmittedState(s, row);
    QueuedOne(PendingRows(s), row);
    PendingImages(s);
    PendingImages(t);
    ImagesLonger(s.submitted, row, s.pending, PendingRows(s));
    ImagesAdd(t.submitted, s.pending, PendingRows(s), row.key, |s.submitted|);
    ImagesUnique(t.submitted, t.pending, PendingRows(t), PendingRows(s)[row.key := row]);
  }

  /** What the flusher takes: each queued row once, the queue left empty. */
  lemma TakeIsTakeBatch(s: State, order: seq<nat>)
    requires WellFormed(s) && Enabled(s, Take(order)) && WellFormed(Apply(s, Take(order)))
    ensures PendingRows(Apply(s, Take(order))) == map[]
    ensures Known(s, order) && DistinctKeys(RowsOf(s, order)) && ByKey(RowsOf(s, order)) == PendingRows(s)
  {
    forall i | 0 <= i < |order| ensures order[i] < |s.submitted| {
      assert order[i] in order;
    }
    TakenKeys(s, order);
    VersionsAreRows(s, order);
    TakenVersions(s, order);
    SameRows(s, order);
    assert Apply(s, Take(order)).pending == map[];
    hide ByKey, ByVersion, Apply, Lists, DistinctKeys;
  }

  lemma SameRows(s: State, vs: seq<nat>)
    requires WellFormed(s) && Known(s, vs) && ByVersion(s, vs) == s.pending
    ensures ByKey(RowsOf(s, vs)) == PendingRows(s)
  {
    hide ByKey, ByVersion, Known, RowsOf, Images, PendingRows;
    VersionsAreRows(s, vs);
    PendingImages(s);
    ImagesUnique(s.submitted, s.pending, ByKey(RowsOf(s, vs)), PendingRows(s));
  }

  lemma TakenKeys(s: State, order: seq<nat>)
    requires WellFormed(s) && Lists(order, s.pending) && Known(s, order)
    ensures DistinctKeys(RowsOf(s, order))
  {
    forall i, j | 0 <= i < j < |order|
      ensures s.submitted[order[i]].key != s.submitted[order[j]].key
    {
      assert order[i] in order && order[j] in order;
      var k :| k in s.pending && s.pending[k] == order[i];
      var l :| l in s.pending && s.pending[l] == order[j];
    }
  }

  lemma TakenVersions(s: State, order: seq<nat>)
    requires WellFormed(s) && Lists(order, s.pending) && Known(s, order)
    ensures ByVersion(s, order) == s.pending
  {
    var m := ByVersion(s, order);
    forall k | k in m ensures k in s.pending && s.pending[k] == m[k] {
      var l :| l in s.pending && s.pending[l] == m[k];
    }
    forall k | k in s.pending ensures k in m {
      var i :| 0 <= i < |order| && order[i] == s.pending[k];
    }
  }

  lemma RequeuedState(s: State)
    requires WellFormed(s) && Enabled(s, Requeue)
    ensures var t := Apply(s, Requeue);
            t.pending == ByVersion(s, s.failed) + s.pending && t.submitted == s.submitted
  {
    hide ByVersion;
  }

  /** Failed rows go back under the rows queued meanwhile. */
  lemma RequeueIsRequeue(s: State)
    requires WellFormed(s) && Enabled(s, Requeue) && WellFormed(Apply(s, Requeue))
    ensures PendingRows(Apply(s, Requeue)) == ByKey(RowsOf(s, s.failed)) + PendingRows(s)
  {
    assert Known(s, s.failed);
    hide ByKey, ByVersion, Apply, Enabled, WellFormed, Known, RowsOf, Images, PendingRows;
    var t := Apply(s, Requeue);
    VersionsAreRows(s, s.failed);
    RequeuedState(s);
    PendingImages(s);
    PendingImages(t);
    ImagesOver(s.submitted, ByVersion(s, s.failed), s.pending, ByKey(RowsOf(s, s.failed)), PendingRows(s));
    ImagesUnique(s.submitted, t.pending, PendingRows(t), ByKey(RowsOf(s, s.failed)) + PendingRows(s));
  }

  lemma ImagesOver(submitted: seq<Row>, first: map<Key, nat>, second: map<Key, nat>, rows: map<Key, Row>,
                   over: map<Key, Row>)
    requires Images(submitted, first, rows) && Images(submitted, second, over)
    ensures Images(submitted, first + second, rows + over)
  {
  }
}
