/** Job queries answered from the cache: the unfiltered job list is read through the cache and filtered here. */
module JobFilters {
  import opened Text
  import opened CachedReader

  /** A query value: missing, a text of comma-separated items, or a list. */
  datatype QueryValue = Absent | Csv(text: string) | Items(items: seq<string>)

  datatype Query = Query(user: QueryValue, users: QueryValue, state: QueryValue, states: QueryValue,
                         account: QueryValue, accounts: QueryValue, qos: QueryValue,
                         partition: QueryValue, partitions: QueryValue)

  /** The fields a query looks at, as text, empty when the job has none. */
  datatype JobView = JobView(user: string, account: string, qos: string, partition: string, states: seq<string>)

  function LowerChar(c: char): char {
    if 'A' <= c <= 'Z' then c + ('a' - 'A') else c
  }

  /** str.lower() */
  function Lower(s: string): string {
    seq(|s|, i requires 0 <= i < |s| => LowerChar(s[i]))
  }

  /** The stripped, lower-case items, blank ones dropped. */
  function Cleaned(items: seq<string>): (r: seq<string>)
    ensures forall x | x in r :: x != ""
  {
    if items == [] then []
    else
      var last := Strip(items[|items| - 1]);
      Cleaned(items[..|items| - 1]) + if last == "" then [] else [Lower(last)]
  }

  /** _split_query_values */
  function Values(v: QueryValue): seq<string> {
    match v
    case Absent => []
    case Csv(text) => if text == "" then [] else Cleaned(Split(text, ','))
    case Items(items) => Cleaned(items)
  }

  predicate Truthy(v: QueryValue) {
    match v case Absent => false case Csv(text) => text != "" case Items(items) => items != []
  }

  /** query.get(one) or query.get(many) */
  function Either(one: QueryValue, many: QueryValue): QueryValue {
    if Truthy(one) then one else many
  }

  predicate Admits(values: seq<string>, field: string) {
    values == [] || Lower(field) in values
  }

  predicate AdmitsSome(values: seq<string>, fields: seq<string>) {
    values == [] || exists i | 0 <= i < |fields| :: Lower(fields[i]) in values
  }

  predicate Matches(q: Query, job: JobView) {
    && Admits(Values(Either(q.user, q.users)), job.user)
    && Admits(Values(Either(q.account, q.accounts)), job.account)
    && Admits(Values(q.qos), job.qos)
    && Admits(Values(Either(q.partition, q.partitions)), job.partition)
    && AdmitsSome(Values(Either(q.state, q.states)), job.states)
  }

  /** _filter_cached_jobs */
  function Filtered(jobs: seq<JobView>, q: Query): seq<JobView> {
    if jobs == [] then []
    else Filtered(jobs[..|jobs| - 1], q) + if Matches(q, jobs[|jobs| - 1]) then [jobs[|jobs| - 1]] else []
  }

  lemma {:induction false} CleanedConcat(a: seq<string>, b: seq<string>)
    ensures Cleaned(a + b) == Cleaned(a) + Cleaned(b)
  {
    hide Strip, Lower;
    if b == [] {
      assert a + b == a;
    } else {
      assert (a + b)[..|a + b| - 1] == a + b[..|b| - 1];
      CleanedConcat(a, b[..|b| - 1]);
    }
  }

  /** The items of two texts joined by a comma are the items of both. */
  lemma ValuesOfJoined(a: string, b: string)
    ensures Values(Csv(a + "," + b)) == Values(Csv(a)) + Values(Csv(b))
  {
    hide Split, Cleaned;
    SplitConcat(a, b, ',');
    assert a + [','] + b == a + "," + b;
    CleanedConcat(Split(a, ','), Split(b, ','));
    BlankItems();
  }

  lemma BlankItems()
    ensures Cleaned(Split("", ',')) == []
  {
    assert Split("", ',') == [""];
    assert [""][..0] == [];
  }

  /** Joining two criteria with a comma admits what either admits, except that a blank one drops out instead
      of admitting everything. */
  lemma CommaIsUnion(a: string, b: string, field: string)
    ensures var va, vb := Values(Csv(a)), Values(Csv(b));
            Admits(Values(Csv(a + "," + b)), field) <==>
            if va == [] then Admits(vb, field)
            else if vb == [] then Admits(va, field)
            else Admits(va, field) || Admits(vb, field)
  {
    ValuesOfJoined(a, b);
    hide Values, Lower;
  }

  /** Filtering keeps exactly the matching jobs, as often as they come. */
  lemma {:induction false} FilteredIsExact(jobs: seq<JobView>, q: Query, job: JobView)
    ensures multiset(Filtered(jobs, q))[job] == if Matches(q, job) then multiset(jobs)[job] else 0
  {
    hide Matches;
    if jobs != [] {
      FilteredIsExact(jobs[..|jobs| - 1], q, job);
      assert jobs == jobs[..|jobs| - 1] + [jobs[|jobs| - 1]];
    }
  }

  lemma {:induction false} FilteredSnoc(jobs: seq<JobView>, job: JobView, q: Query)
    ensures Filtered(jobs + [job], q) == Filtered(jobs, q) + if Matches(q, job) then [job] else []
  {
    assert (jobs + [job])[..|jobs|] == jobs;
  }

  /** Two filters can be applied in either order, and applying one twice is applying it once. */
  lemma {:induction false} FiltersCommute(jobs: seq<JobView>, p: Query, q: Query)
    ensures Filtered(Filtered(jobs, p), q) == Filtered(Filtered(jobs, q), p)
    ensures Filtered(Filtered(jobs, p), p) == Filtered(jobs, p)
  {
    hide Matches;
    if jobs != [] {
      var front, job := jobs[..|jobs| - 1], jobs[|jobs| - 1];
      FiltersCommute(front, p, q);
      FilteredSnoc(Filtered(front, p), job, q);
      FilteredSnoc(Filtered(front, q), job, p);
      FilteredSnoc(Filtered(front, p), job, p);
      assert Filtered(front, p) + [] == Filtered(front, p) && Filtered(front, q) + [] == Filtered(front, q);
      assert Filtered(Filtered(front, p), q) + [] == Filtered(Filtered(front, p), q);
    }
  }

  // ---------- What a query asks for ----------

  /** A capital becomes the letter 32 code points after it, anything else stays. */
  lemma LowerIs(s: string, i: nat)
    requires i < |s|
    ensures |Lower(s)| == |s|
    ensures Lower(s)[i] as int == s[i] as int + if 65 <= s[i] as int <= 90 then 32 else 0
  {
  }

  /** The items of a query value as it was written. */
  function Parts(v: QueryValue): seq<string> {
    match v
    case Absent => []
    case Csv(text) => Split(text, ',')
    case Items(items) => items
  }

  /** Some item of the value that is not blank reads like the text, letter case and surrounding blanks aside. */
  ghost predicate Asks(v: QueryValue, text: string) {
    exists item :: item in Parts(v) && Strip(item) != "" && Lower(Strip(item)) == text
  }

  ghost predicate AsksNothing(v: QueryValue) {
    forall item | item in Parts(v) :: Strip(item) == ""
  }

  /** The value puts no condition on the field, or asks for it. */
  ghost predicate Wants(v: QueryValue, field: string) {
    AsksNothing(v) || Asks(v, Lower(field))
  }

  ghost predicate WantsSome(v: QueryValue, fields: seq<string>) {
    AsksNothing(v) || exists f :: f in fields && Asks(v, Lower(f))
  }

  /** The value is there and not empty. */
  predicate Given(v: QueryValue) {
    v != Absent && v != Csv("") && v != Items([])
  }

  /** A criterion under its singular name, or under its plural one when the singular is not given. */
  ghost predicate WantsEither(one: QueryValue, many: QueryValue, field: string) {
    (Given(one) ==> Wants(one, field)) && (!Given(one) ==> Wants(many, field))
  }

  lemma {:induction false} CleanedMember(items: seq<string>, x: string)
    ensures x in Cleaned(items) <==> exists item :: item in items && Strip(item) != "" && Lower(Strip(item)) == x
  {
    hide Strip, Lower;
    if items != [] {
      var front, last := items[..|items| - 1], items[|items| - 1];
      CleanedMember(front, x);
      assert forall item :: item in items <==> item in front || item == last;
    }
  }

  lemma ValuesMember(v: QueryValue, x: string)
    ensures x in Values(v) <==> Asks(v, x)
  {
    CleanedMember(Parts(v), x);
    if v == Csv("") {
      BlankItems();
    }
    hide Strip, Lower, Split, Cleaned;
  }

  lemma NoValues(v: QueryValue)
    ensures Values(v) == [] <==> AsksNothing(v)
  {
    hide Strip, Lower, Values, Parts;
    if Values(v) != [] {
      ValuesMember(v, Values(v)[0]);
    }
    forall item | item in Parts(v) && Strip(item) != "" ensures Values(v) != [] {
      ValuesMember(v, Lower(Strip(item)));
    }
  }

  lemma AdmitsIff(v: QueryValue, field: string)
    ensures Admits(Values(v), field) <==> Wants(v, field)
  {
    ValuesMember(v, Lower(field));
    NoValues(v);
    hide Lower, Values, Asks, AsksNothing;
  }

  lemma AdmitsSomeIff(v: QueryValue, fields: seq<string>)
    ensures AdmitsSome(Values(v), fields) <==> WantsSome(v, fields)
  {
    NoValues(v);
    forall f ensures Lower(f) in Values(v) <==> Asks(v, Lower(f)) {
      ValuesMember(v, Lower(f));
    }
    hide Lower, Values, Asks, AsksNothing;
    if exists f :: f in fields && Asks(v, Lower(f)) {
      var f :| f in fields && Asks(v, Lower(f));
      var i :| 0 <= i < |fields| && fields[i] == f;
      assert Lower(fields[i]) in Values(v);
    }
  }

  lemma EitherIs(one: QueryValue, many: QueryValue)
    ensures Either(one, many) == if Given(one) then one else many
  {
  }

  /** Which jobs a query matches: those that have what each of its five criteria asks for. */
  lemma MatchesIff(q: Query, job: JobView)
    ensures Matches(q, job) <==>
            && WantsEither(q.user, q.users, job.user)
            && WantsEither(q.account, q.accounts, job.account)
            && WantsEither(q.partition, q.partitions, job.partition)
            && Wants(q.qos, job.qos)
            && WantsSome(if Given(q.state) then q.state else q.states, job.states)
  {
    EitherIs(q.user, q.users);
    EitherIs(q.account, q.accounts);
    EitherIs(q.partition, q.partitions);
    EitherIs(q.state, q.states);
    hide Admits, AdmitsSome, Values, Either, Given, Wants, WantsSome;
    AdmitsIff(Either(q.user, q.users), job.user);
    AdmitsIff(Either(q.account, q.accounts), job.account);
    AdmitsIff(Either(q.partition, q.partitions), job.partition);
    AdmitsIff(q.qos, job.qos);
    AdmitsSomeIff(Either(q.state, q.states), job.states);
  }

  /** Filtering keeps the order of the jobs it keeps. */
  lemma {:induction false} FilteredInOrder(jobs: seq<JobView>, q: Query) returns (origin: seq<nat>)
    ensures var kept := Filtered(jobs, q);
            && |origin| == |kept| && (forall k | 0 <= k < |kept| :: origin[k] < |jobs| && kept[k] == jobs[origin[k]])
            && (forall j, k | 0 <= j < k < |kept| :: origin[j] < origin[k])
  {
    hide Matches;
    if jobs == [] {
      origin := [];
    } else {
      var n := |jobs| - 1;
      origin := FilteredInOrder(jobs[..n], q);
      if Matches(q, jobs[n]) {
        origin := origin + [n];
      }
    }
  }

  // ---------- Queries ----------

  datatype QueryReply = Listed(jobs: seq<JobView>) | Failed(error: string)

  /** jobs(query=...) with the cache enabled; `view` reads the job list a value stands for. */
  function Answer(reply: Reply, view: Data -> seq<JobView>, q: Query): QueryReply {
    if reply.Raised? then Failed(reply.error) else Listed(Filtered(view(reply.data), q))
  }

  /** Through an agreeing cache a query returns the matching ones among the jobs slurmrestd lists now. */
  lemma QueryThroughCache(cache: Cache, backend: Backend, view: Data -> seq<JobView>, q: Query)
    requires Agrees(cache, backend)
    ensures Answer(ReplyOf(true, cache, backend(Jobs), Jobs, NoFault), view, q) == Answer(backend(Jobs), view, q)
    ensures backend(Jobs).Got? ==>
              forall job :: multiset(Answer(ReplyOf(true, cache, backend(Jobs), Jobs, NoFault), view, q).jobs)[job]
                            == if Matches(q, job) then multiset(view(backend(Jobs).data))[job] else 0
  {
    AgreeingRead(cache, backend, Jobs, NoFault);
    if backend(Jobs).Got? {
      forall job ensures multiset(Filtered(view(backend(Jobs).data), q))[job]
                         == if Matches(q, job) then multiset(view(backend(Jobs).data))[job] else 0 {
        FilteredIsExact(view(backend(Jobs).data), q, job);
      }
    }
    hide Matches, Filtered, ReplyOf, Agrees;
  }
}
