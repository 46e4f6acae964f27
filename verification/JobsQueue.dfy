/** The write-behind queue as a step system: request threads queue rows at any moment while one
    flusher takes the queue, writes it chunk by chunk with a row-by-row fallback, and puts failed
    rows back under newer ones. Every queued row has a version: its position in `submitted`. */
module JobsQueue {
  import opened Common
  import opened JobRecords

  const BATCH_CHUNK: nat := 500

  datatype Phase =
    | Idle
    | Chunks              // between chunks of the batch
    | RowByRow(left: nat) // this many rows of the current chunk still to be tried one by one

  /** One committed change of the table. */
  datatype Event = Wrote(version: nat, at: int) | Purged(cutoff: int)

  datatype State = State(
    pending: map<Key, nat>, // self._pending, by version
    todo: seq<nat>,         // rows of the batch not yet tried
    failed: seq<nat>,       // rows of the batch that failed
    phase: Phase,
    db: Table,
    submitted: seq<Row>,    // history: every row ever queued
    log: seq<Event>)        // history: every committed change

  datatype Action =
    | Submit(row: Row)
    | Take(order: seq<nat>)
    | BulkOk(at: int)
    | BulkFail
    | RowOk(at: int)
    | RowFail
    | Requeue
    | Purge(cutoff: int)

  function ChunkSize(s: State): (n: nat)
    ensures n <= |s.todo|
  {
    if |s.todo| < BATCH_CHUNK then |s.todo| else BATCH_CHUNK
  }

  predicate NoRepeats(vs: seq<nat>) {
    forall i, j | 0 <= i < j < |vs| :: vs[i] != vs[j]
  }

  /** order lists the values of the queue, each once. */
  predicate Lists(order: seq<nat>, pending: map<Key, nat>) {
    && NoRepeats(order)
    && (forall k | k in pending :: pending[k] in order)
    && (forall v | v in order :: exists k :: k in pending && pending[k] == v)
  }

  predicate Enabled(s: State, a: Action) {
    match a
    case Submit(row) => Consistent(row)
    case Take(order) => s.phase == Idle && Lists(order, s.pending)
    case BulkOk(_) => s.phase == Chunks && s.todo != []
    case BulkFail => s.phase == Chunks && s.todo != []
    case RowOk(_) => s.phase.RowByRow?
    case RowFail => s.phase.RowByRow?
    case Requeue => s.phase == Chunks && s.todo == []
    case Purge(_) => s.phase == Idle
  }

  /** What may happen when: a request thread queues a row at any moment; the flusher, when idle, takes the queue or
      cleans up; with rows left it tries a chunk, and in the fallback a row, and either may fail; at the end it
      requeues. */
  lemma StepsEnabled(s: State)
    ensures forall row | Consistent(row) :: Enabled(s, Submit(row))
    ensures forall order :: Enabled(s, Take(order)) <==> s.phase == Idle && Lists(order, s.pending)
    ensures forall cutoff :: Enabled(s, Purge(cutoff)) <==> s.phase == Idle
    ensures forall at :: Enabled(s, BulkOk(at)) <==> s.phase == Chunks && s.todo != []
    ensures Enabled(s, BulkFail) <==> s.phase == Chunks && s.todo != []
    ensures forall at :: Enabled(s, RowOk(at)) <==> s.phase.RowByRow?
    ensures Enabled(s, RowFail) <==> s.phase.RowByRow?
    ensures Enabled(s, Requeue) <==> s.phase == Chunks && s.todo == []
  {
    hide Lists;
  }

  /** The queue of a well-formed state can be taken in some order. */
  lemma {:induction false} SomeOrder(pending: map<Key, nat>, submitted: seq<Row>)
    requires forall k | k in pending :: pending[k] < |submitted| && submitted[pending[k]].key == k
    ensures exists order :: Lists(order, pending)
    decreases |pending|
  {
    if pending == map[] {
      assert Lists([], pending);
    } else {
      var k :| k in pending;
      var rest := pending - {k};
      SomeOrder(rest, submitted);
      var order :| Lists(order, rest);
      assert pending[k] !in order;
      assert Lists(order + [pending[k]], pending) by {
        forall l | l in pending ensures pending[l] in order + [pending[k]] {
          assert l != k ==> l in rest && rest[l] in order;
        }
        forall v | v in order + [pending[k]] ensures exists l :: l in pending && pending[l] == v {
          if v in order {
            var l :| l in rest && rest[l] == v;
            assert l in pending && pending[l] == v;
          }
        }
      }
    }
  }

  // ---------- Well-formed states ----------

  ghost predicate Known(s: State, vs: seq<nat>) {
    forall i | 0 <= i < |vs| :: vs[i] < |s.submitted|
  }

  /** Every version mentioned was queued; the batch bookkeeping fits the phase. */
  ghost predicate WellFormed(s: State) {
    && Known(s, s.todo) && Known(s, s.failed)
    && (forall k | k in s.pending :: s.pending[k] < |s.submitted| && s.submitted[s.pending[k]].key == k)
    && (forall i | 0 <= i < |s.log| :: s.log[i].Wrote? ==> s.log[i].version < |s.submitted|)
    && (s.phase == Idle ==> s.todo == [] && s.failed == [])
    && (s.phase.RowByRow? ==> 0 < s.phase.left <= |s.todo|)
  }

  // ---------- Steps ----------

  /** The first row of the batch is committed. */
  function WriteFirst(s: State, at: int): State
    requires WellFormed(s) && s.todo != []
  {
    s.(todo := s.todo[1..],
       phase := Chunks,
       db := Upsert(s.db, Settled(s.submitted[s.todo[0]]), at),
       log := s.log + [Wrote(s.todo[0], at)])
  }

  lemma WriteFirstWellFormed(s: State, at: int)
    requires WellFormed(s) && s.todo != [] && s.phase != Idle
    ensures WellFormed(WriteFirst(s, at))
  {
  }

  /** The first n rows of the batch are committed together. */
  function WriteMany(s: State, n: nat, at: int): (r: State)
    requires WellFormed(s) && n <= |s.todo| && s.phase != Idle
    ensures WellFormed(r)
    decreases n
  {
    if n == 0 then s.(phase := Chunks)
    else
      WriteFirstWellFormed(s, at);
      WriteMany(WriteFirst(s, at), n - 1, at)
  }

  /** The phase after one row of the fallback. */
  function NextPhase(p: Phase): Phase
    requires p.RowByRow? && p.left > 0
  {
    if p.left == 1 then Chunks else RowByRow(p.left - 1)
  }

  function ByVersion(s: State, vs: seq<nat>): (m: map<Key, nat>)
    requires Known(s, vs)
    ensures forall k | k in m :: m[k] in vs
    ensures forall k | k in m :: m[k] < |s.submitted| && s.submitted[m[k]].key == k
    ensures forall i | 0 <= i < |vs| :: s.submitted[vs[i]].key in m
  {
    if vs == [] then map[] else ByVersion(s, vs[..|vs| - 1])[s.submitted[vs[|vs| - 1]].key := vs[|vs| - 1]]
  }

  function Apply(s: State, a: Action): State
    requires WellFormed(s) && Enabled(s, a)
  {
    match a
    case Submit(row) =>
      s.(submitted := s.submitted + [row], pending := s.pending[row.key := |s.submitted|])
    case Take(order) => s.(todo := order, pending := map[], phase := Chunks)
    case BulkOk(at) => WriteMany(s, ChunkSize(s), at)
    case BulkFail => s.(phase := RowByRow(ChunkSize(s)))
    case RowOk(at) => WriteFirst(s, at).(phase := NextPhase(s.phase))
    case RowFail => s.(todo := s.todo[1..], failed := s.failed + [s.todo[0]], phase := NextPhase(s.phase))
    case Requeue => s.(pending := ByVersion(s, s.failed) + s.pending, failed := [], phase := Idle)
    case Purge(cutoff) =>
      s.(db := map k | k in s.db && k.submitTime >= cutoff :: s.db[k], log := s.log + [Purged(cutoff)])
  }

  lemma ApplyWellFormed(s: State, a: Action)
    requires WellFormed(s) && Enabled(s, a)
    ensures WellFormed(Apply(s, a))
  {
    match a
    case Take(order) =>
      forall i | 0 <= i < |order| ensures order[i] < |s.submitted| {
        assert order[i] in order;
      }
    case _ =>
  }

  /** An action sequence the system can perform from s. */
  ghost predicate CanRun(s: State, actions: seq<Action>)
    requires WellFormed(s)
    decreases |actions|
  {
    actions == [] ||
    (Enabled(s, actions[0]) && (ApplyWellFormed(s, actions[0]); CanRun(Apply(s, actions[0]), actions[1..])))
  }

  ghost function Run(s: State, actions: seq<Action>): (r: State)
    requires WellFormed(s) && CanRun(s, actions)
    ensures WellFormed(r)
    decreases |actions|
  {
    if actions == [] then s
    else
      ApplyWellFormed(s, actions[0]);
      Run(Apply(s, actions[0]), actions[1..])
  }

  /** An empty queue in front of some table. */
  function Initial(db: Table): (s: State)
    ensures WellFormed(s)
  {
    State(map[], [], [], Idle, db, [], [])
  }

  // ---------- The invariant ----------

  function KeyOf(s: State, v: nat): Key
    requires v < |s.submitted|
  {
    s.submitted[v].key
  }

  predicate InFlight(s: State, v: nat) {
    v in s.todo || v in s.failed
  }

  predicate Pending(s: State, v: nat) {
    exists k :: k in s.pending && s.pending[k] == v
  }

  ghost predicate Written(s: State, v: nat) {
    exists i | 0 <= i < |s.log| :: s.log[i].Wrote? && s.log[i].version == v
  }

  /** No later row was queued for the same job. */
  ghost predicate Newest(s: State, v: nat) {
    v < |s.submitted| && forall w | v < w < |s.submitted| :: KeyOf(s, w) != KeyOf(s, v)
  }

  /** Two rows in flight belong to different jobs. */
  ghost predicate FlightDistinct(s: State)
    requires WellFormed(s)
  {
    var vs := s.todo + s.failed;
    forall i, j | 0 <= i < j < |vs| :: KeyOf(s, vs[i]) != KeyOf(s, vs[j])
  }

  /** A pending row is newer than the row in flight for the same job. */
  ghost predicate PendingNewer(s: State)
    requires WellFormed(s)
  {
    forall k, v | k in s.pending && InFlight(s, v) :: KeyOf(s, v) == k ==> v < s.pending[k]
  }

  /** Everything committed for a job is older than what is still on its way. */
  ghost predicate WrittenOlder(s: State)
    requires WellFormed(s)
  {
    forall i, v | 0 <= i < |s.log| && s.log[i].Wrote? && (InFlight(s, v) || Pending(s, v)) ::
      KeyOf(s, s.log[i].version) == KeyOf(s, v) ==> s.log[i].version < v
  }

  /** The versions committed for one job strictly increase. */
  ghost predicate LogIncreasing(s: State)
    requires WellFormed(s)
  {
    forall i, j | 0 <= i < j < |s.log| && s.log[i].Wrote? && s.log[j].Wrote? ::
      KeyOf(s, s.log[i].version) == KeyOf(s, s.log[j].version) ==> s.log[i].version < s.log[j].version
  }

  /** The newest row of every job is pending, in flight, or committed. */
  ghost predicate NewestKept(s: State)
    requires WellFormed(s)
  {
    forall v: nat | Newest(s, v) :: Pending(s, v) || InFlight(s, v) || Written(s, v)
  }

  ghost predicate Inv(s: State) {
    && WellFormed(s)
    && FlightDistinct(s)
    && PendingNewer(s)
    && WrittenOlder(s)
    && LogIncreasing(s)
    && NewestKept(s)
  }
}
