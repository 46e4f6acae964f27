/** The caching layer over slurmrestd: reads kept under string keys, writes that delete the keys they outdate. */
module CachedReader {
  import Decimal

  datatype Read =
    | Jobs | JobsUnfiltered | Job(id: nat)
    | Nodes | NodesUnfiltered | Node(name: string)
    | Partitions | Accounts | Associations | Reservations | Qos

  /** `main` is the key in Redis, `count` the label of the hit and miss counters. */
  datatype CacheKey = CacheKey(main: string, count: string)

  function KeyOf(r: Read): CacheKey {
    match r
    case Jobs => CacheKey("jobs", "jobs")
    case JobsUnfiltered => CacheKey("jobs-unfiltered", "jobs")
    case Job(id) => CacheKey("job-" + Decimal.Show(id), "individual-job")
    case Nodes => CacheKey("nodes", "nodes")
    case NodesUnfiltered => CacheKey("nodes-unfiltered", "nodes")
    case Node(name) => CacheKey("node-" + name, "individual-node")
    case Partitions => CacheKey("partitions", "partitions")
    case Accounts => CacheKey("accounts", "accounts")
    case Associations => CacheKey("associations", "associations")
    case Reservations => CacheKey("reservations", "reservations")
    case Qos => CacheKey("qos", "qos")
  }

  lemma {:induction false} ShowInjective(m: nat, n: nat)
    requires Decimal.Show(m) == Decimal.Show(n)
    ensures m == n
  {
    var a, b := Decimal.Show(m), Decimal.Show(n);
    if m >= 10 && n >= 10 {
      assert a[..|a| - 1] == Decimal.Show(m / 10) && b[..|b| - 1] == Decimal.Show(n / 10);
      ShowInjective(m / 10, n / 10);
    }
    assert Decimal.DigitValue(a[|a| - 1]) == m % 10;
    assert Decimal.DigitValue(b[|b| - 1]) == n % 10;
  }

  lemma PrefixInjective(p: string, a: string, b: string)
    requires p + a == p + b
    ensures a == b
  {
    assert (p + a)[|p|..] == a;
    assert (p + b)[|p|..] == b;
  }

  /** No key starts like the key of one job or of one node unless it is that key. */
  lemma KeyShape(r: Read)
    ensures var k := KeyOf(r).main;
            && |k| >= 3
            && (r.Job? <==> |k| >= 4 && k[..4] == "job-")
            && (r.Node? <==> |k| >= 5 && k[..5] == "node-")
  {
    var k := KeyOf(r).main;
    if r.Job? {
      assert k[..4] == "job-";
      assert k[0] == 'j';
    } else if r.Node? {
      assert k[..5] == "node-";
      assert k[0] == 'n';
    } else {
      assert k[0] == 'j' ==> k[3] == 's';
      assert k[0] == 'n' ==> k[4] == 's';
      assert |k| >= 4 ==> k[..4][0] == k[0] && k[..4][3] == k[3];
      assert |k| >= 5 ==> k[..5][0] == k[0] && k[..5][4] == k[4];
    }
  }

  /** Two reads share a Redis key only if they are the same read. */
  lemma KeysDistinct(a: Read, b: Read)
    ensures KeyOf(a).main == KeyOf(b).main ==> a == b
  {
    if KeyOf(a).main == KeyOf(b).main {
      KeyShape(a);
      KeyShape(b);
      if a.Job? {
        PrefixInjective("job-", Decimal.Show(a.id), Decimal.Show(b.id));
        ShowInjective(a.id, b.id);
      } else if a.Node? {
        PrefixInjective("node-", a.name, b.name);
      } else {
        PlainKeysDistinct(a, b);
      }
    }
  }

  lemma PlainKeysDistinct(a: Read, b: Read)
    requires !a.Job? && !a.Node? && !b.Job? && !b.Node? && KeyOf(a).main == KeyOf(b).main
    ensures a == b
  {
    var k, l := KeyOf(a).main, KeyOf(b).main;
    assert |k| == |l|;
    assert k[0] == l[0] && k[1] == l[1];
  }

  // ---------- Values ----------

  /** What a read returns: None is a value Redis cannot tell from an absent key. */
  datatype Data = Null | Value(v: nat)
  datatype Reply = Got(data: Data) | Raised(error: string)
  type Backend = Read -> Reply
  type Cache = map<string, Data>

  /** SlurmwebCacheError from get or put, or the Redis exception the counters let through. */
  const CACHE_ERROR := Raised("cache")

  /** Which cache operation of one read fails, if any. */
  datatype Fault = NoFault | GetFault | PutFault | CountFault

  /** The calls of count_hit and count_miss. */
  datatype Count = CountHit(counter: string) | CountMiss(counter: string)

  predicate IsHit(cache: Cache, r: Read) {
    KeyOf(r).main in cache && cache[KeyOf(r).main].Value?
  }

  /** Whether the read reaches the end of the fetch and the put that follows it. */
  predicate Stores(cache: Cache, answer: Reply, r: Read, fault: Fault) {
    !fault.GetFault? && !IsHit(cache, r) && answer.Got? && !fault.PutFault?
  }

  /** Entries after one read. */
  function CacheAfterRead(enabled: bool, cache: Cache, answer: Reply, r: Read, fault: Fault): Cache {
    if enabled && Stores(cache, answer, r, fault) then cache[KeyOf(r).main := answer.data] else cache
  }

  /** What one read returns when slurmrestd would give `answer`. */
  function ReplyOf(enabled: bool, cache: Cache, answer: Reply, r: Read, fault: Fault): Reply {
    if !enabled then answer
    else if fault.GetFault? then CACHE_ERROR
    else if IsHit(cache, r) then if fault.CountFault? then CACHE_ERROR else Got(cache[KeyOf(r).main])
    else if answer.Raised? then answer
    else if fault.NoFault? then answer else CACHE_ERROR
  }

  function CountsOf(enabled: bool, cache: Cache, answer: Reply, r: Read, fault: Fault): seq<Count> {
    if !enabled || fault.GetFault? || fault.CountFault? then []
    else if IsHit(cache, r) then [CountHit(KeyOf(r).count)]
    else if answer.Raised? || fault.PutFault? then []
    else [CountMiss(KeyOf(r).count)]
  }

  /** The fault hits an operation the read performs: get always, put after a fetch that returned, count once a value
      is at hand. */
  predicate Struck(cache: Cache, answer: Reply, r: Read, fault: Fault) {
    || fault.GetFault?
    || (fault.PutFault? && !IsHit(cache, r) && answer.Got?)
    || (fault.CountFault? && (IsHit(cache, r) || answer.Got?))
  }

  /** A read through an enabled cache: a fault is raised exactly when it strikes; a fetched value is kept unless get or
      put failed; exactly one hit or miss is counted for a value returned, none for an error. */
  lemma ReadIs(cache: Cache, answer: Reply, r: Read, fault: Fault)
    ensures IsHit(cache, r) <==> KeyOf(r).main in cache && cache[KeyOf(r).main] != Null
    ensures ReplyOf(true, cache, answer, r, fault) ==
            if Struck(cache, answer, r, fault) then CACHE_ERROR
            else if IsHit(cache, r) then Got(cache[KeyOf(r).main])
            else answer
    ensures CacheAfterRead(true, cache, answer, r, fault) ==
            if !IsHit(cache, r) && answer.Got? && !fault.GetFault? && !fault.PutFault?
            then cache[KeyOf(r).main := answer.data] else cache
    ensures CountsOf(true, cache, answer, r, fault) ==
            if Struck(cache, answer, r, fault) || (!IsHit(cache, r) && answer.Raised?) then []
            else if IsHit(cache, r) then [CountHit(KeyOf(r).count)] else [CountMiss(KeyOf(r).count)]
    ensures ReplyOf(false, cache, answer, r, fault) == answer
    ensures CacheAfterRead(false, cache, answer, r, fault) == cache && CountsOf(false, cache, answer, r, fault) == []
  {
  }

  /** Reads counted together: both job lists, both node lists, all lookups of one job, all of one node. */
  predicate SameCounter(a: Read, b: Read) {
    || a == b
    || (a.Job? && b.Job?) || (a.Node? && b.Node?)
    || (a in {Jobs, JobsUnfiltered} && b in {Jobs, JobsUnfiltered})
    || (a in {Nodes, NodesUnfiltered} && b in {Nodes, NodesUnfiltered})
  }

  /** How one can tell a counter's label: by its length and some of its letters. */
  lemma LabelShape(r: Read)
    ensures var c := KeyOf(r).count;
            && |c| >= 3 && c[0] != 't' && c[0] != 'k'
            && (r in {Jobs, JobsUnfiltered} <==> |c| == 4)
            && (r in {Nodes, NodesUnfiltered} <==> |c| == 5)
            && (r.Job? <==> |c| == 14) && (r.Node? <==> |c| == 15)
            && (r == Partitions <==> |c| == 10) && (r == Accounts <==> |c| == 8)
            && (r in {Associations, Reservations} <==> |c| == 12)
            && (r == Associations <==> |c| == 12 && c[0] == 'a') && (r == Qos <==> |c| == 3)
  {
  }

  /** Two reads share a counter only when they are counted together, and no counter is named "total" or "keys". */
  lemma CountersShared(a: Read, b: Read)
    ensures KeyOf(a).count == KeyOf(b).count <==> SameCounter(a, b)
    ensures KeyOf(a).count != "total" && KeyOf(a).count != "keys"
  {
    LabelShape(a);
    LabelShape(b);
    if SameCounter(a, b) {
      SameLabel(a, b);
    }
    hide KeyOf;
    assert KeyOf(a).count[0] != "total"[0] && KeyOf(a).count[0] != "keys"[0];
  }

  lemma SameLabel(a: Read, b: Read)
    requires SameCounter(a, b)
    ensures KeyOf(a).count == KeyOf(b).count
  {
  }

  // ---------- Writes ----------

  datatype Write =
    | JobSubmit | JobUpdate(id: nat) | JobCancel(id: nat)
    | NodeUpdate(name: string) | NodeDelete(name: string)
    | AccountsUpdate | AccountDelete | UsersUpdate | UserDelete
    | AssociationsUpdate | AssociationsDelete
    | QosUpdate | QosDelete
    | ReservationCreate | ReservationUpdate | ReservationDelete

  /** The reads whose keys a write deletes, in order. */
  function Outdated(w: Write): seq<Read> {
    match w
    case JobSubmit => [Jobs, JobsUnfiltered]
    case JobUpdate(id) => [Jobs, JobsUnfiltered, Job(id)]
    case JobCancel(id) => [Jobs, JobsUnfiltered, Job(id)]
    case NodeUpdate(name) => [Nodes, NodesUnfiltered, Node(name)]
    case NodeDelete(name) => [Nodes, NodesUnfiltered, Node(name)]
    case AccountsUpdate => [Accounts, Associations]
    case AccountDelete => [Accounts, Associations]
    case UsersUpdate => [Associations]
    case UserDelete => [Associations]
    case AssociationsUpdate => [Accounts, Associations]
    case AssociationsDelete => [Accounts, Associations]
    case QosUpdate => [Qos, Associations]
    case QosDelete => [Qos, Associations]
    case ReservationCreate => [Reservations]
    case ReservationUpdate => [Reservations]
    case ReservationDelete => [Reservations]
  }

  /** Whether what a read answers depends on what a write changes: the job lists on every job and a job's lookup on
      that job alone, likewise for nodes; associations name accounts, users and qos. */
  predicate Touches(w: Write, r: Read) {
    match r
    case Jobs => w.JobSubmit? || w.JobUpdate? || w.JobCancel?
    case JobsUnfiltered => w.JobSubmit? || w.JobUpdate? || w.JobCancel?
    case Job(id) => w == JobUpdate(id) || w == JobCancel(id)
    case Nodes => w.NodeUpdate? || w.NodeDelete?
    case NodesUnfiltered => w.NodeUpdate? || w.NodeDelete?
    case Node(name) => w == NodeUpdate(name) || w == NodeDelete(name)
    case Partitions => false
    case Accounts => w.AccountsUpdate? || w.AccountDelete? || w.AssociationsUpdate? || w.AssociationsDelete?
    case Associations =>
      || w.AccountsUpdate? || w.AccountDelete? || w.UsersUpdate? || w.UserDelete?
      || w.AssociationsUpdate? || w.AssociationsDelete? || w.QosUpdate? || w.QosDelete?
    case Reservations => w.ReservationCreate? || w.ReservationUpdate? || w.ReservationDelete?
    case Qos => w.QosUpdate? || w.QosDelete?
  }

  /** A write deletes the keys of exactly the reads it touches. */
  lemma OutdatedIffTouched(w: Write, r: Read)
    ensures r in Outdated(w) <==> Touches(w, r)
  {
  }

  /** The write changes only reads it touches; a submission may also create jobs, whose lookup used to fail. */
  ghost predicate Affects(w: Write, before: Backend, after: Backend) {
    forall r :: after(r) == before(r) || Touches(w, r) || (w.JobSubmit? && r.Job? && before(r).Raised?)
  }

  lemma AffectsOutdated(w: Write, before: Backend, after: Backend, r: Read)
    requires Affects(w, before, after)
    ensures after(r) == before(r) || r in Outdated(w) || before(r).Raised?
  {
    OutdatedIffTouched(w, r);
    hide Outdated, Touches;
  }

  lemma OnlyOutdatedAffects(w: Write, before: Backend, after: Backend)
    requires forall r :: after(r) == before(r) || r in Outdated(w)
    ensures Affects(w, before, after)
  {
    forall r ensures r in Outdated(w) <==> Touches(w, r) {
      OutdatedIffTouched(w, r);
    }
    hide Outdated, Touches;
  }

  function KeysOf(rs: seq<Read>): (keys: set<string>)
    ensures forall r | r in rs :: KeyOf(r).main in keys
    ensures forall k | k in keys :: exists r :: r in rs && KeyOf(r).main == k
  {
    set r | r in rs :: KeyOf(r).main
  }

  // ---------- Agreement of cache and backend ----------

  /** Every entry, apart from those under some reads' keys, is what slurmrestd would answer now. */
  ghost predicate AgreesExcept(cache: Cache, backend: Backend, stale: set<Read>) {
    forall r :: KeyOf(r).main in cache && r !in stale ==> backend(r) == Got(cache[KeyOf(r).main])
  }

  ghost predicate Agrees(cache: Cache, backend: Backend) {
    forall r :: KeyOf(r).main in cache ==> backend(r) == Got(cache[KeyOf(r).main])
  }

  /** A read through an agreeing cache returns what slurmrestd would, unless Redis itself fails. */
  lemma AgreeingRead(cache: Cache, backend: Backend, r: Read, fault: Fault)
    requires Agrees(cache, backend)
    ensures ReplyOf(true, cache, backend(r), r, fault) == backend(r)
            || (!fault.NoFault? && ReplyOf(true, cache, backend(r), r, fault) == CACHE_ERROR)
  {
  }

  lemma KeyInOutdated(rs: seq<Read>, r: Read)
    ensures KeyOf(r).main in KeysOf(rs) <==> r in rs
  {
    if KeyOf(r).main in KeysOf(rs) {
      var x :| x in rs && KeyOf(x).main == KeyOf(r).main;
      KeysDistinct(x, r);
    }
  }

  /** What a write leaves cached when its first `n` keys were deleted. */
  function LeftBy(cache: Cache, w: Write, n: nat): Cache
    requires n <= |Outdated(w)|
  {
    cache - KeysOf(Outdated(w)[..n])
  }

  /** The reads a write outdates whose entries it leaves. */
  function Undeleted(cache: Cache, w: Write, n: nat): (rs: set<Read>)
    requires n <= |Outdated(w)|
    ensures forall r :: r in rs <==> r in Outdated(w)[n..] && KeyOf(r).main in LeftBy(cache, w, n)
  {
    set r | r in Outdated(w)[n..] && KeyOf(r).main in LeftBy(cache, w, n)
  }

  /** A backend that answers one read differently. */
  ghost function Changed(before: Backend, r: Read, answer: Reply): Backend {
    x => if x == r then answer else before(x)
  }

  /** A value other than this one. */
  function Other(d: Data): Data {
    if d == Value(0) then Value(1) else Value(0)
  }

  /** The write may have changed what an entry it left stands for. */
  lemma UndeletedMayBeStale(cache: Cache, before: Backend, w: Write, n: nat, r: Read)
    requires n <= |Outdated(w)| && r in Undeleted(cache, w, n)
    ensures var left := LeftBy(cache, w, n);
            var after := Changed(before, r, Got(Other(left[KeyOf(r).main])));
            Affects(w, before, after) && !Agrees(left, after)
  {
    hide KeyOf, KeysOf, LeftBy, Touches;
    assert r in Outdated(w);
    OnlyOutdatedAffects(w, before, Changed(before, r, Got(Other(LeftBy(cache, w, n)[KeyOf(r).main]))));
  }

  /** When the program can rely on the cache after a write whose deletes stopped after `n` keys: the cache agrees
      with the backend whatever the write did to the reads it outdates, if and only if none of the keys left
      over is cached. */
  lemma WriteKeepsAgreementIff(cache: Cache, before: Backend, w: Write, n: nat)
    requires Agrees(cache, before) && n <= |Outdated(w)|
    ensures (forall after | Affects(w, before, after) :: Agrees(LeftBy(cache, w, n), after)) <==>
            forall r | r in Outdated(w)[n..] :: KeyOf(r).main !in LeftBy(cache, w, n)
  {
    if forall r | r in Outdated(w)[n..] :: KeyOf(r).main !in LeftBy(cache, w, n) {
      forall after | Affects(w, before, after) ensures Agrees(LeftBy(cache, w, n), after) {
        WriteKeepsExcept(cache, before, after, {}, w, n);
        hide KeyOf, KeysOf, LeftBy, Outdated, Affects;
        assert Undeleted(cache, w, n) == {};
      }
    } else {
      var r :| r in Outdated(w)[n..] && KeyOf(r).main in LeftBy(cache, w, n);
      UndeletedMayBeStale(cache, before, w, n, r);
    }
  }

  /** A hit on an entry a write left returns the value from before the write, which need be neither today's answer
      nor a cache error. */
  lemma UndeletedIsServed(cache: Cache, before: Backend, w: Write, n: nat, r: Read)
    requires Agrees(cache, before) && n <= |Outdated(w)| && r in Undeleted(cache, w, n) && before(r) != Got(Null)
    ensures exists after ::
              && Affects(w, before, after)
              && ReplyOf(true, LeftBy(cache, w, n), after(r), r, NoFault) == before(r)
              && before(r) != after(r) && before(r) != CACHE_ERROR
  {
    var left := LeftBy(cache, w, n);
    var after := Changed(before, r, Got(Other(left[KeyOf(r).main])));
    UndeletedMayBeStale(cache, before, w, n, r);
    hide KeyOf, KeysOf, Outdated;
    assert before(r) == Got(left[KeyOf(r).main]);
  }

  lemma WriteKeepsExcept(cache: Cache, before: Backend, after: Backend, stale: set<Read>, w: Write, n: nat)
    requires AgreesExcept(cache, before, stale) && Affects(w, before, after) && n <= |Outdated(w)|
    ensures AgreesExcept(LeftBy(cache, w, n), after, stale + Undeleted(cache, w, n))
    ensures AgreesExcept(LeftBy(cache, w, n), after, (stale + Undeleted(cache, w, n)) - DeletedBy(w, n))
  {
    var left := LeftBy(cache, w, n);
    forall r | KeyOf(r).main in left && r !in (stale + Undeleted(cache, w, n)) - DeletedBy(w, n)
      ensures after(r) == Got(left[KeyOf(r).main])
    {
      KeyInOutdated(Outdated(w)[..n], r);
      AffectsOutdated(w, before, after, r);
      hide KeyOf, KeysOf, Touches, Affects;
      assert Outdated(w) == Outdated(w)[..n] + Outdated(w)[n..];
    }
    hide KeyOf, LeftBy, Undeleted, Affects, DeletedBy;
  }

  function DeletedBy(w: Write, n: nat): set<Read>
    requires n <= |Outdated(w)|
  {
    set r | r in Outdated(w)[..n]
  }

  // ---------- Whole runs ----------

  /** A write deletes its first `deleted` keys: all of them, fewer when Redis fails, none when the request raised,
      which may still have changed the backend. */
  datatype Event =
    | ReadEvent(read: Read, fault: Fault)
    | WriteEvent(write: Write, after: Backend, deleted: nat)
    | Expire(keys: set<string>)

  ghost predicate Possible(backend: Backend, e: Event) {
    e.WriteEvent? ==> Affects(e.write, backend, e.after) && e.deleted <= |Outdated(e.write)|
  }

  function BackendAfter(backend: Backend, e: Event): Backend {
    if e.WriteEvent? then e.after else backend
  }

  ghost function CacheAfter(enabled: bool, cache: Cache, backend: Backend, e: Event): Cache
    requires Possible(backend, e)
  {
    match e
    case ReadEvent(r, fault) => CacheAfterRead(enabled, cache, backend(r), r, fault)
    case WriteEvent(w, _, n) => if enabled then LeftBy(cache, w, n) else cache
    case Expire(keys) => cache - keys
  }

  /** The cached reads a write outdated without deleting them, until they are fetched again, deleted or expire. */
  ghost function StaleAfter(stale: set<Read>, cache: Cache, backend: Backend, e: Event): set<Read>
    requires Possible(backend, e)
  {
    match e
    case ReadEvent(r, fault) => if Stores(cache, backend(r), r, fault) then stale - {r} else stale
    case WriteEvent(w, _, n) => (stale + Undeleted(cache, w, n)) - DeletedBy(w, n)
    case Expire(keys) => set r | r in stale && KeyOf(r).main !in keys
  }

  function Replies(enabled: bool, cache: Cache, backend: Backend, e: Event): seq<Reply> {
    if e.ReadEvent? then [ReplyOf(enabled, cache, backend(e.read), e.read, e.fault)] else []
  }

  ghost predicate AllPossible(backend: Backend, events: seq<Event>)
    decreases |events|
  {
    events != [] ==> Possible(backend, events[0]) && AllPossible(BackendAfter(backend, events[0]), events[1..])
  }

  /** Every reply of a run. */
  ghost function Trace(enabled: bool, cache: Cache, backend: Backend, events: seq<Event>): seq<Reply>
    requires AllPossible(backend, events)
    decreases |events|
  {
    if events == [] then []
    else Replies(enabled, cache, backend, events[0])
         + Trace(enabled, CacheAfter(enabled, cache, backend, events[0]), BackendAfter(backend, events[0]), events[1..])
  }

  /** For every reply of a run through the cache, whether the read was left stale by a write. */
  ghost function Doubts(stale: set<Read>, cache: Cache, backend: Backend, events: seq<Event>): seq<bool>
    requires AllPossible(backend, events)
    decreases |events|
  {
    if events == [] then []
    else (if events[0].ReadEvent? then [events[0].read in stale] else [])
         + Doubts(StaleAfter(stale, cache, backend, events[0]), CacheAfter(true, cache, backend, events[0]),
                  BackendAfter(backend, events[0]), events[1..])
  }

  lemma ReadKeepsExcept(cache: Cache, backend: Backend, stale: set<Read>, r: Read, fault: Fault)
    requires AgreesExcept(cache, backend, stale)
    ensures AgreesExcept(CacheAfterRead(true, cache, backend(r), r, fault), backend,
                         if Stores(cache, backend(r), r, fault) then stale - {r} else stale)
  {
    var left := CacheAfterRead(true, cache, backend(r), r, fault);
    forall x | KeyOf(x).main in left && (x !in stale || (x == r && Stores(cache, backend(r), r, fault)))
      ensures backend(x) == Got(left[KeyOf(x).main])
    {
      KeysDistinct(x, r);
      hide KeyOf;
    }
  }

  lemma EventKeepsExcept(cache: Cache, backend: Backend, stale: set<Read>, e: Event)
    requires AgreesExcept(cache, backend, stale) && Possible(backend, e)
    ensures AgreesExcept(CacheAfter(true, cache, backend, e), BackendAfter(backend, e),
                         StaleAfter(stale, cache, backend, e))
  {
    match e
    case ReadEvent(r, fault) => ReadKeepsExcept(cache, backend, stale, r, fault);
    case Expire(keys) => {
      hide KeyOf;
    }
    case WriteEvent(w, after, n) => {
      WriteKeepsExcept(cache, backend, after, stale, w, n);
    }
  }

  /** A reply the cached reader may give where the direct one gives `direct`. */
  predicate Stands(cached: Reply, direct: Reply) {
    cached == direct || cached == CACHE_ERROR
  }

  lemma ReadStands(cache: Cache, backend: Backend, stale: set<Read>, r: Read, fault: Fault)
    requires AgreesExcept(cache, backend, stale) && r !in stale
    ensures Stands(ReplyOf(true, cache, backend(r), r, fault), backend(r))
    ensures fault.NoFault? ==> ReplyOf(true, cache, backend(r), r, fault) == backend(r)
  {
    hide KeyOf;
  }

  ghost predicate NoFaults(events: seq<Event>) {
    forall i | 0 <= i < |events| && events[i].ReadEvent? :: events[i].fault.NoFault?
  }

  /** Reply by reply: doubtful, or the direct one, or, unless `exact`, a cache error. */
  ghost predicate Explained(cached: seq<Reply>, direct: seq<Reply>, doubts: seq<bool>, exact: bool) {
    && |cached| == |direct| == |doubts|
    && forall i | 0 <= i < |cached| :: doubts[i] || cached[i] == direct[i] || (!exact && cached[i] == CACHE_ERROR)
  }

  lemma ExplainedConcat(c: seq<Reply>, d: seq<Reply>, b: seq<bool>, c': seq<Reply>, d': seq<Reply>, b': seq<bool>,
                        exact: bool)
    requires Explained(c, d, b, exact) && Explained(c', d', b', exact)
    ensures Explained(c + c', d + d', b + b', exact)
  {
  }

  /** What one event adds to the replies and to the doubts. */
  lemma EventExplained(cache: Cache, backend: Backend, stale: set<Read>, e: Event, exact: bool)
    requires AgreesExcept(cache, backend, stale) && (exact && e.ReadEvent? ==> e.fault.NoFault?)
    ensures Explained(Replies(true, cache, backend, e), Replies(false, map[], backend, e),
                      if e.ReadEvent? then [e.read in stale] else [], exact)
  {
    DisabledAnswers(backend, e);
    if e.ReadEvent? && e.read !in stale {
      ReadStands(cache, backend, stale, e.read, e.fault);
    }
    hide ReplyOf, AgreesExcept;
  }

  /** Over any run of reads, writes and expiries, with Redis failing and requests raising anywhere: every reply
      equals the one given with the cache disabled, or is a cache error, or is about a read that a write
      outdated without deleting its entry. With no failure during reads there is no cache error either. */
  lemma {:induction false} RepliesStandOrDoubt(cache: Cache, backend: Backend, stale: set<Read>, events: seq<Event>,
                                               exact: bool)
    requires AgreesExcept(cache, backend, stale) && AllPossible(backend, events) && (exact ==> NoFaults(events))
    ensures Explained(Trace(true, cache, backend, events), Trace(false, map[], backend, events),
                      Doubts(stale, cache, backend, events), exact)
    decreases |events|
  {
    if events != [] {
      var e := events[0];
      hide CacheAfter, StaleAfter, Replies, AgreesExcept, NoFaults, Explained, BackendAfter, Possible;
      EventKeepsExcept(cache, backend, stale, e);
      NoFaultsRest(events);
      DisabledKeepsEmpty(backend, e);
      EventExplained(cache, backend, stale, e, exact);
      var next, now, left := CacheAfter(true, cache, backend, e), BackendAfter(backend, e),
        StaleAfter(stale, cache, backend, e);
      RepliesStandOrDoubt(next, now, left, events[1..], exact);
      ExplainedConcat(Replies(true, cache, backend, e), Replies(false, map[], backend, e),
                      if e.ReadEvent? then [e.read in stale] else [],
                      Trace(true, next, now, events[1..]), Trace(false, map[], now, events[1..]),
                      Doubts(left, next, now, events[1..]), exact);
    }
  }

  lemma NoFaultsRest(events: seq<Event>)
    requires events != []
    ensures NoFaults(events) ==> NoFaults(events[1..]) && (events[0].ReadEvent? ==> events[0].fault.NoFault?)
  {
  }

  lemma DisabledKeepsEmpty(backend: Backend, e: Event)
    requires Possible(backend, e)
    ensures CacheAfter(false, map[], backend, e) == map[]
  {
  }

  lemma DisabledAnswers(backend: Backend, e: Event)
    ensures e.ReadEvent? ==> ReplyOf(false, map[], backend(e.read), e.read, e.fault) == backend(e.read)
  {
  }

  /** Every write deletes all its keys or changes nothing. */
  ghost predicate WritesComplete(backend: Backend, events: seq<Event>)
    decreases |events|
  {
    events != [] ==>
      && (events[0].WriteEvent? ==>
            events[0].deleted == |Outdated(events[0].write)| || forall r :: events[0].after(r) == backend(r))
      && WritesComplete(BackendAfter(backend, events[0]), events[1..])
  }

  lemma CompleteEvent(cache: Cache, backend: Backend, e: Event)
    requires Agrees(cache, backend) && Possible(backend, e)
    requires e.WriteEvent? ==> e.deleted == |Outdated(e.write)| || forall r :: e.after(r) == backend(r)
    ensures Agrees(CacheAfter(true, cache, backend, e), BackendAfter(backend, e))
  {
    EventKeepsExcept(cache, backend, {}, e);
    hide KeyOf, KeysOf, Outdated, Affects, CacheAfterRead;
  }

  /** Cached reads refine direct reads: when every write deletes all its keys or changes nothing, every reply of any
      run equals the one given with the cache disabled, save that a Redis failure may show as a cache error; with
      no failure during reads the two replies are the same throughout. */
  lemma {:induction false} CachedRefinesDirect(cache: Cache, backend: Backend, events: seq<Event>)
    requires Agrees(cache, backend) && AllPossible(backend, events) && WritesComplete(backend, events)
    ensures |Trace(true, cache, backend, events)| == |Trace(false, map[], backend, events)|
    ensures forall i | 0 <= i < |Trace(true, cache, backend, events)| ::
              Stands(Trace(true, cache, backend, events)[i], Trace(false, map[], backend, events)[i])
    ensures NoFaults(events) ==> Trace(true, cache, backend, events) == Trace(false, map[], backend, events)
    decreases |events|
  {
    if events != [] {
      var e := events[0];
      hide CacheAfter, ReplyOf, NoFaults, Agrees, AgreesExcept;
      CompleteEvent(cache, backend, e);
      CachedRefinesDirect(CacheAfter(true, cache, backend, e), BackendAfter(backend, e), events[1..]);
      if e.ReadEvent? {
        AgreeingIsExcept(cache, backend);
        ReadStands(cache, backend, {}, e.read, e.fault);
      }
      DisabledKeepsEmpty(backend, e);
      DisabledAnswers(backend, e);
      NoFaultsRest(events);
    }
  }

  lemma AgreeingIsExcept(cache: Cache, backend: Backend)
    requires Agrees(cache, backend)
    ensures AgreesExcept(cache, backend, {})
  {
  }

  // ---------- The reader ----------

  class SlurmrestdFilteredCached {
    const enabled: bool
    var backend: Backend
    var entries: Cache
    var counts: seq<Count>

    constructor (enabled: bool, backend: Backend)
      ensures this.enabled == enabled && this.backend == backend && entries == map[] && counts == []
    {
      this.enabled := enabled;
      this.backend := backend;
      entries := map[];
      counts := [];
    }

    method Cached(read: Read, fault: Fault) returns (reply: Reply)
      modifies this`entries, this`counts
      ensures reply == ReplyOf(enabled, old(entries), backend(read), read, fault)
      ensures entries == CacheAfterRead(enabled, old(entries), backend(read), read, fault)
      ensures counts == old(counts) + CountsOf(enabled, old(entries), backend(read), read, fault)
    {
      hide KeyOf;
      if !enabled {
        return backend(read);
      }
      var key := KeyOf(read);
      if fault.GetFault? {
        return CACHE_ERROR;
      }
      var data := if key.main in entries then entries[key.main] else Null;
      if data == Null {
        var fetched := backend(read);
        if fetched.Raised? {
          return fetched;
        }
        data := fetched.data;
        if fault.PutFault? {
          return CACHE_ERROR;
        }
        entries := entries[key.main := data];
        if fault.CountFault? {
          return CACHE_ERROR;
        }
        counts := counts + [CountMiss(key.count)];
      } else {
        if fault.CountFault? {
          return CACHE_ERROR;
        }
        counts := counts + [CountHit(key.count)];
      }
      return Got(data);
    }

    /** _invalidate_cached_keys, Redis failing at the delete of index `failAt`. */
    method InvalidateCachedKeys(rs: seq<Read>, failAt: nat) returns (done: bool)
      modifies this`entries
      ensures done == (!enabled || failAt >= |rs|)
      ensures entries == if !enabled then old(entries)
                         else old(entries) - KeysOf(rs[..if failAt < |rs| then failAt else |rs|])
    {
      if !enabled {
        return true;
      }
      for i := 0 to |rs|
        invariant i <= failAt
        invariant entries == old(entries) - KeysOf(rs[..i])
      {
        if i == failAt {
          return false;
        }
        assert rs[..i + 1] == rs[..i] + [rs[i]];
        KeysSnoc(rs[..i], rs[i]);
        hide KeyOf, KeysOf;
        entries := entries - {KeyOf(rs[i]).main};
      }
      assert rs[..|rs|] == rs;
      return true;
    }

    /** One write method: the request, then the invalidation when the request did not raise. */
    method PerformWrite(write: Write, raised: bool, after: Backend, failAt: nat) returns (ok: bool)
      modifies this`entries, this`backend
      ensures backend == after
      ensures var deleted := if raised then 0 else if failAt < |Outdated(write)| then failAt else |Outdated(write)|;
              && entries == (if enabled then LeftBy(old(entries), write, deleted) else old(entries))
              && ok == (!raised && (!enabled || deleted == |Outdated(write)|))
    {
      hide KeyOf, KeysOf, Outdated;
      backend := after;
      if raised {
        NothingDeleted(entries, write);
        return false;
      }
      ok := InvalidateCachedKeys(Outdated(write), failAt);
    }
  }

  lemma NothingDeleted(cache: Cache, w: Write)
    ensures LeftBy(cache, w, 0) == cache
  {
    assert Outdated(w)[..0] == [];
  }

  lemma KeysSnoc(rs: seq<Read>, r: Read)
    ensures KeysOf(rs + [r]) == KeysOf(rs) + {KeyOf(r).main}
  {
    hide KeyOf;
  }
}
