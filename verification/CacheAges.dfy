/** The cached reader under a clock: readers interleave between their get, fetch and put, entries expire, keys
    are deleted, and the backend changes at any time. How old can a returned value be? */
module CacheAges {
  import opened CachedReader

  /** What slurmrestd answers at each instant. */
  type World = (nat, Read) -> Reply

  /** Configured expiration of each read, in the clock's unit. */
  type Expirations = Read -> nat

  datatype Entry = Entry(read: Read, value: Data, fetched: nat, put: nat)

  datatype Phase =
    | Missed(read: Read)
    | Fetched(read: Read, value: Data, at: nat)

  /** A value returned to a caller at `at`, fetched and put at the given times. */
  datatype Returned = Returned(read: Read, value: Data, fetched: nat, put: nat, at: nat)

  datatype State = State(now: nat, entries: map<string, Entry>, readers: map<nat, Phase>, returned: seq<Returned>)

  const START := State(0, map[], map[], [])

  datatype Action =
    | Tick(elapsed: nat)
    | Get(reader: nat, read: Read)
    | Fetch(reader: nat)
    | Put(reader: nat)
    | Delete(key: string)

  predicate Live(s: State, r: Read, ttl: Expirations) {
    KeyOf(r).main in s.entries && s.now < s.entries[KeyOf(r).main].put + ttl(r)
    && s.entries[KeyOf(r).main].value.Value?
  }

  predicate CanApply(s: State, a: Action) {
    match a
    case Get(reader, _) => reader !in s.readers
    case Fetch(reader) => reader in s.readers && s.readers[reader].Missed?
    case Put(reader) => reader in s.readers && s.readers[reader].Fetched?
    case _ => true
  }

  function Apply(s: State, a: Action, world: World, ttl: Expirations): State
    requires CanApply(s, a)
  {
    match a
    case Tick(elapsed) => s.(now := s.now + elapsed)
    case Delete(key) => s.(entries := s.entries - {key})
    case Get(reader, r) =>
      if Live(s, r, ttl) then
        var e := s.entries[KeyOf(r).main];
        s.(returned := s.returned + [Returned(r, e.value, e.fetched, e.put, s.now)])
      else s.(readers := s.readers[reader := Missed(r)])
    case Fetch(reader) =>
      var r := s.readers[reader].read;
      var answer := world(s.now, r);
      if answer.Raised? then s.(readers := s.readers - {reader})
      else s.(readers := s.readers[reader := Fetched(r, answer.data, s.now)])
    case Put(reader) =>
      var p := s.readers[reader];
      // Redis refuses an expiration of zero: nothing is stored and the read raises.
      if ttl(p.read) == 0 then s.(readers := s.readers - {reader})
      else
        s.(entries := s.entries[KeyOf(p.read).main := Entry(p.read, p.value, p.at, s.now)],
           readers := s.readers - {reader},
           returned := s.returned + [Returned(p.read, p.value, p.at, s.now, s.now)])
  }

  predicate CanRun(s: State, actions: seq<Action>, world: World, ttl: Expirations)
    decreases |actions|
  {
    actions != [] ==> CanApply(s, actions[0]) && CanRun(Apply(s, actions[0], world, ttl), actions[1..], world, ttl)
  }

  function Run(s: State, actions: seq<Action>, world: World, ttl: Expirations): State
    requires CanRun(s, actions, world, ttl)
    decreases |actions|
  {
    if actions == [] then s else Run(Apply(s, actions[0], world, ttl), actions[1..], world, ttl)
  }

  // ---------- What always holds ----------

  /** The value was the backend's answer when it was fetched, and it was returned either by the reader that
      fetched it, right at its put, or before the entry's expiration ran out. */
  predicate Justified(x: Returned, world: World, ttl: Expirations) {
    && world(x.fetched, x.read) == Got(x.value)
    && x.fetched <= x.put <= x.at
    && x.at < x.put + ttl(x.read)
  }

  ghost predicate EntriesTrue(s: State, world: World) {
    forall k | k in s.entries ::
      var e := s.entries[k];
      KeyOf(e.read).main == k && world(e.fetched, e.read) == Got(e.value) && e.fetched <= e.put <= s.now
  }

  ghost predicate ReadersTrue(s: State, world: World) {
    forall t | t in s.readers && s.readers[t].Fetched? ::
      world(s.readers[t].at, s.readers[t].read) == Got(s.readers[t].value) && s.readers[t].at <= s.now
  }

  ghost predicate AllJustified(s: State, world: World, ttl: Expirations) {
    forall i | 0 <= i < |s.returned| :: Justified(s.returned[i], world, ttl)
  }

  ghost predicate Inv(s: State, world: World, ttl: Expirations) {
    EntriesTrue(s, world) && ReadersTrue(s, world) && AllJustified(s, world, ttl)
  }

  /** The cache a reader sees: the entries whose time has not run out. */
  function Visible(s: State, ttl: Expirations): Cache {
    map k | k in s.entries && s.now < s.entries[k].put + ttl(s.entries[k].read) :: s.entries[k].value
  }

  /** A get is answered from the cache exactly when the cached reader would hit the entries that have not run out. */
  lemma LiveIsHit(s: State, r: Read, world: World, ttl: Expirations)
    requires EntriesTrue(s, world)
    ensures Live(s, r, ttl) <==> IsHit(Visible(s, ttl), r)
  {
    if KeyOf(r).main in s.entries {
      KeysDistinct(s.entries[KeyOf(r).main].read, r);
    }
    hide KeyOf;
  }

  /** A read that nobody interrupts, at an instant, with expiring storage, is the cached reader's. */
  lemma UninterruptedRead(s: State, t: nat, r: Read, world: World, ttl: Expirations)
    requires EntriesTrue(s, world) && t !in s.readers && ttl(r) > 0
    ensures var cache, answer := Visible(s, ttl), world(s.now, r);
            var steps := if IsHit(cache, r) then [Get(t, r)]
                         else if answer.Raised? then [Get(t, r), Fetch(t)] else [Get(t, r), Fetch(t), Put(t)];
            && CanRun(s, steps, world, ttl)
            && var after, reply := Run(s, steps, world, ttl), ReplyOf(true, cache, answer, r, NoFault);
               && after.readers == s.readers && after.now == s.now
               && (if reply.Got? then |after.returned| == |s.returned| + 1 && after.returned[|s.returned|].read == r
                                      && after.returned[|s.returned|].value == reply.data
                   else after.returned == s.returned)
               && Visible(after, ttl) == CacheAfterRead(true, cache, answer, r, NoFault)
  {
    LiveIsHit(s, r, world, ttl);
    ReadSteps(s, t, r, world, ttl);
    hide Apply, CanApply, KeyOf, Live;
    if IsHit(Visible(s, ttl), r) {
      OneAction(s, Get(t, r), world, ttl);
    } else if world(s.now, r).Raised? {
      StepsTwo(s, Get(t, r), Fetch(t), world, ttl);
    } else {
      StepsThree(s, Get(t, r), Fetch(t), Put(t), world, ttl);
    }
  }

  /** What the three steps of a read do. */
  lemma ReadSteps(s: State, t: nat, r: Read, world: World, ttl: Expirations)
    requires t !in s.readers && ttl(r) > 0
    ensures var answer, s1 := world(s.now, r), Apply(s, Get(t, r), world, ttl);
            && CanApply(s, Get(t, r))
            && (Live(s, r, ttl) ==>
                  var e := s.entries[KeyOf(r).main];
                  s1 == s.(returned := s.returned + [Returned(r, e.value, e.fetched, e.put, s.now)]))
            && (!Live(s, r, ttl) ==>
                  && CanApply(s1, Fetch(t))
                  && var s2 := Apply(s1, Fetch(t), world, ttl);
                     && (answer.Raised? ==> s2 == s)
                     && (answer.Got? ==>
                           && CanApply(s2, Put(t))
                           && Apply(s2, Put(t), world, ttl) ==
                              s.(entries := s.entries[KeyOf(r).main := Entry(r, answer.data, s.now, s.now)],
                                 returned := s.returned + [Returned(r, answer.data, s.now, s.now, s.now)])))
  {
    hide KeyOf, Live;
    assert s.readers[t := Missed(r)] - {t} == s.readers;
    if world(s.now, r).Got? {
      assert s.readers[t := Missed(r)][t := Fetched(r, world(s.now, r).data, s.now)] - {t} == s.readers;
    }
  }

  lemma StepsTwo(s: State, a: Action, b: Action, world: World, ttl: Expirations)
    requires CanApply(s, a) && CanApply(Apply(s, a, world, ttl), b)
    ensures CanRun(s, [a, b], world, ttl)
    ensures Run(s, [a, b], world, ttl) == Apply(Apply(s, a, world, ttl), b, world, ttl)
  {
    hide Apply, CanApply;
    OneAction(Apply(s, a, world, ttl), b, world, ttl);
    assert [a, b][1..] == [b];
  }

  lemma StepsThree(s: State, a: Action, b: Action, c: Action, world: World, ttl: Expirations)
    requires CanApply(s, a) && CanApply(Apply(s, a, world, ttl), b)
    requires CanApply(Apply(Apply(s, a, world, ttl), b, world, ttl), c)
    ensures CanRun(s, [a, b, c], world, ttl)
    ensures Run(s, [a, b, c], world, ttl) == Apply(Apply(Apply(s, a, world, ttl), b, world, ttl), c, world, ttl)
  {
    hide Apply, CanApply;
    StepsTwo(Apply(s, a, world, ttl), b, c, world, ttl);
    assert [a, b, c][1..] == [b, c];
  }

  lemma StepInv(s: State, a: Action, world: World, ttl: Expirations)
    requires CanApply(s, a) && Inv(s, world, ttl)
    ensures Inv(Apply(s, a, world, ttl), world, ttl)
  {
    if a.Get? {
      var k := KeyOf(a.read).main;
      if k in s.entries {
        KeysDistinct(s.entries[k].read, a.read);
      }
    }
    hide KeyOf;
  }

  lemma {:induction false} RunInv(s: State, actions: seq<Action>, world: World, ttl: Expirations)
    requires CanRun(s, actions, world, ttl) && Inv(s, world, ttl)
    ensures Inv(Run(s, actions, world, ttl), world, ttl)
    decreases |actions|
  {
    if actions != [] {
      StepInv(s, actions[0], world, ttl);
      hide Inv, Apply, CanApply;
      RunInv(Apply(s, actions[0], world, ttl), actions[1..], world, ttl);
    }
  }

  /** The backend gave this value to this read at some instant of the last `age`. */
  ghost predicate TrueWithin(x: Returned, age: nat, world: World) {
    exists t: nat :: t <= x.at <= t + age && world(t, x.read) == Got(x.value)
  }

  /** In any interleaving and whatever changes outside, a returned value was the backend's answer no longer ago
      than the expiration plus that value's fetch-to-put delay. */
  lemma ReturnedValuesAreRecent(actions: seq<Action>, world: World, ttl: Expirations, i: nat)
    requires CanRun(START, actions, world, ttl) && i < |Run(START, actions, world, ttl).returned|
    ensures var x := Run(START, actions, world, ttl).returned[i];
            && x.fetched <= x.put && 0 < ttl(x.read)
            && TrueWithin(x, ttl(x.read) - 1 + (x.put - x.fetched), world)
  {
    RunInv(START, actions, world, ttl);
    hide Run, CanRun;
    var x := Run(START, actions, world, ttl).returned[i];
    assert Justified(x, world, ttl);
  }

  // ---------- The bound is reached ----------

  /** A backend that answers 0 to every read at instant 0 and 1 ever after. */
  function ChangesOnce(t: nat, r: Read): Reply {
    Got(Value(if t == 0 then 0 else 1))
  }

  /** One reader fetches, waits `delay`, puts; another gets just before the expiration. */
  function LateGet(delay: nat, expiration: nat): seq<Action>
    requires expiration > 0
  {
    [Get(0, Jobs), Fetch(0), Tick(delay), Put(0), Tick(expiration - 1), Get(1, Jobs)]
  }

  lemma RunNext(s: State, a: Action, rest: seq<Action>, world: World, ttl: Expirations)
    requires CanApply(s, a) && CanRun(Apply(s, a, world, ttl), rest, world, ttl)
    ensures CanRun(s, [a] + rest, world, ttl)
    ensures Run(s, [a] + rest, world, ttl) == Run(Apply(s, a, world, ttl), rest, world, ttl)
  {
    assert ([a] + rest)[1..] == rest;
  }

  /** Six actions, one after the other. */
  lemma RunSix(a: seq<Action>, s1: State, s2: State, s3: State, s4: State, s5: State, s6: State, world: World,
               ttl: Expirations)
    requires |a| == 6
    requires CanApply(START, a[0]) && s1 == Apply(START, a[0], world, ttl)
    requires CanApply(s1, a[1]) && s2 == Apply(s1, a[1], world, ttl)
    requires CanApply(s2, a[2]) && s3 == Apply(s2, a[2], world, ttl)
    requires CanApply(s3, a[3]) && s4 == Apply(s3, a[3], world, ttl)
    requires CanApply(s4, a[4]) && s5 == Apply(s4, a[4], world, ttl)
    requires CanApply(s5, a[5]) && s6 == Apply(s5, a[5], world, ttl)
    ensures CanRun(START, a, world, ttl) && Run(START, a, world, ttl) == s6
  {
    hide Apply, CanApply;
    assert a[6..] == [];
    assert a[5..] == [a[5]] + a[6..] && a[4..] == [a[4]] + a[5..] && a[3..] == [a[3]] + a[4..];
    assert a[2..] == [a[2]] + a[3..] && a[1..] == [a[1]] + a[2..] && a == [a[0]] + a[1..];
    RunNext(s5, a[5], a[6..], world, ttl);
    RunNext(s4, a[4], a[5..], world, ttl);
    RunNext(s3, a[3], a[4..], world, ttl);
    RunNext(s2, a[2], a[3..], world, ttl);
    RunNext(s1, a[1], a[2..], world, ttl);
    RunNext(START, a[0], a[1..], world, ttl);
  }

  /** The bound of ReturnedValuesAreRecent cannot be lowered, for any expiration and any delay. */
  lemma BoundIsReached(delay: nat, expiration: nat)
    requires expiration > 0
    ensures var ttl := (r: Read) => expiration;
            && CanRun(START, LateGet(delay, expiration), ChangesOnce, ttl)
            && var returned := Run(START, LateGet(delay, expiration), ChangesOnce, ttl).returned;
            && |returned| == 2
            && returned[1].put - returned[1].fetched == delay
            && forall age: nat | age < expiration - 1 + delay :: !TrueWithin(returned[1], age, ChangesOnce)
  {
    var ttl := (r: Read) => expiration;
    var a := LateGet(delay, expiration);
    var s1 := Apply(START, a[0], ChangesOnce, ttl);
    var s2 := Apply(s1, a[1], ChangesOnce, ttl);
    var s3 := Apply(s2, a[2], ChangesOnce, ttl);
    var s4 := Apply(s3, a[3], ChangesOnce, ttl);
    var s5 := Apply(s4, a[4], ChangesOnce, ttl);
    var s6 := Apply(s5, a[5], ChangesOnce, ttl);
    assert s6.returned[1] == Returned(Jobs, Value(0), 0, delay, delay + expiration - 1);
    hide Apply, Live, KeyOf, Run, CanRun;
    RunSix(a, s1, s2, s3, s4, s5, s6, ChangesOnce, ttl);
  }

  /** A reader that fetched before a write and puts after the write's invalidation brings the old value back. */
  lemma LatePutOutlivesInvalidation(expiration: nat)
    requires expiration > 0
    ensures var ttl := (r: Read) => expiration;
            var actions := [Get(0, Jobs), Fetch(0), Tick(1), Delete(KeyOf(Jobs).main), Put(0), Get(1, Jobs)];
            && CanRun(START, actions, ChangesOnce, ttl)
            && var returned := Run(START, actions, ChangesOnce, ttl).returned;
            && |returned| == 2 && returned[1].at == 1
            && Got(returned[1].value) != ChangesOnce(1, Jobs)
  {
    var ttl := (r: Read) => expiration;
    var a := [Get(0, Jobs), Fetch(0), Tick(1), Delete(KeyOf(Jobs).main), Put(0), Get(1, Jobs)];
    var s1 := Apply(START, a[0], ChangesOnce, ttl);
    var s2 := Apply(s1, a[1], ChangesOnce, ttl);
    var s3 := Apply(s2, a[2], ChangesOnce, ttl);
    var s4 := Apply(s3, a[3], ChangesOnce, ttl);
    var s5 := Apply(s4, a[4], ChangesOnce, ttl);
    var s6 := Apply(s5, a[5], ChangesOnce, ttl);
    assert s6.returned[1] == Returned(Jobs, Value(0), 0, 1, 1);
    hide Apply, Live, KeyOf, Run, CanRun;
    RunSix(a, s1, s2, s3, s4, s5, s6, ChangesOnce, ttl);
  }

  // ---------- When an invalidation holds ----------

  /** Nothing changes outside from an instant on. */
  ghost predicate ConstantFrom(world: World, now: nat) {
    forall t: nat, r | t >= now :: world(t, r) == world(now, r)
  }

  /** The values returned from position `first` on are the answers the backend gives at `now`. */
  ghost predicate ReturnsPresent(s: State, first: nat, world: World, now: nat) {
    forall i | first <= i < |s.returned| :: world(now, s.returned[i].read) == Got(s.returned[i].value)
  }

  /** Every entry a read can hit, and every fetched value that can still be put, is the backend's answer at `now`. */
  ghost predicate Fresh(s: State, world: World, ttl: Expirations, now: nat) {
    && (forall r | Live(s, r, ttl) :: world(now, r) == Got(s.entries[KeyOf(r).main].value))
    && (forall t | t in s.readers && s.readers[t].Fetched? && ttl(s.readers[t].read) > 0 ::
          world(now, s.readers[t].read) == Got(s.readers[t].value))
  }

  lemma StepFresh(s: State, a: Action, world: World, ttl: Expirations, now: nat)
    requires CanApply(s, a) && Fresh(s, world, ttl, now) && now <= s.now && ConstantFrom(world, now)
    ensures Fresh(Apply(s, a, world, ttl), world, ttl, now) && now <= Apply(s, a, world, ttl).now
    ensures |s.returned| <= |Apply(s, a, world, ttl).returned|
    ensures forall first: nat | ReturnsPresent(s, first, world, now) && first <= |s.returned| ::
              ReturnsPresent(Apply(s, a, world, ttl), first, world, now)
  {
    var t := Apply(s, a, world, ttl);
    forall r | Live(t, r, ttl) ensures world(now, r) == Got(t.entries[KeyOf(r).main].value) {
      if a.Put? {
        KeysDistinct(r, s.readers[a.reader].read);
      }
      hide KeyOf;
      assert Live(s, r, ttl) || a.Put?;
    }
    hide KeyOf;
  }

  lemma {:induction false} RunFresh(s: State, actions: seq<Action>, world: World, ttl: Expirations, now: nat,
                                    first: nat)
    requires CanRun(s, actions, world, ttl) && Fresh(s, world, ttl, now) && now <= s.now && ConstantFrom(world, now)
    requires first <= |s.returned| && ReturnsPresent(s, first, world, now)
    ensures ReturnsPresent(Run(s, actions, world, ttl), first, world, now)
    decreases |actions|
  {
    if actions != [] {
      hide Fresh, Apply, CanApply, ReturnsPresent, ConstantFrom;
      StepFresh(s, actions[0], world, ttl, now);
      RunFresh(Apply(s, actions[0], world, ttl), actions[1..], world, ttl, now, first);
    }
  }

  lemma {:induction false} FreeReader(taken: set<nat>) returns (free: nat)
    ensures forall t | t in taken :: t < free
    decreases taken
  {
    free := 0;
    if taken != {} {
      var t :| t in taken;
      var other := FreeReader(taken - {t});
      free := if other > t then other else t + 1;
      assert forall x | x in taken :: x == t || x in taken - {t};
    }
  }

  lemma OneAction(s: State, a: Action, world: World, ttl: Expirations)
    requires CanApply(s, a)
    ensures CanRun(s, [a], world, ttl) && Run(s, [a], world, ttl) == Apply(s, a, world, ttl)
  {
    hide Apply, CanApply;
    assert [a][1..] == [];
  }

  /** Every value any continuation returns is the present answer. */
  ghost predicate AlwaysPresent(s: State, world: World, ttl: Expirations) {
    forall actions | CanRun(s, actions, world, ttl) ::
      ReturnsPresent(Run(s, actions, world, ttl), |s.returned|, world, s.now)
  }

  lemma PutReturns(s: State, t: nat, world: World, ttl: Expirations)
    requires t in s.readers && s.readers[t].Fetched? && ttl(s.readers[t].read) > 0 && AlwaysPresent(s, world, ttl)
    ensures world(s.now, s.readers[t].read) == Got(s.readers[t].value)
  {
    OneAction(s, Put(t), world, ttl);
    var after := Apply(s, Put(t), world, ttl);
    hide Run, CanRun, KeyOf;
    assert ReturnsPresent(after, |s.returned|, world, s.now);
    assert after.returned[|s.returned|].value == s.readers[t].value;
  }

  lemma GetReturns(s: State, r: Read, world: World, ttl: Expirations)
    requires Live(s, r, ttl) && AlwaysPresent(s, world, ttl)
    ensures world(s.now, r) == Got(s.entries[KeyOf(r).main].value)
  {
    var free := FreeReader(s.readers.Keys);
    OneAction(s, Get(free, r), world, ttl);
    var after := Apply(s, Get(free, r), world, ttl);
    hide Run, CanRun, KeyOf;
    assert ReturnsPresent(after, |s.returned|, world, s.now);
    assert after.returned[|s.returned|].value == s.entries[KeyOf(r).main].value;
  }

  /** In a world that no longer changes, every continuation returns present answers only, if and only if the entries
      that can be hit and the fetched values that can be put are present answers. */
  lemma FreshIff(s: State, world: World, ttl: Expirations)
    requires ConstantFrom(world, s.now)
    ensures AlwaysPresent(s, world, ttl) <==> Fresh(s, world, ttl, s.now)
  {
    if Fresh(s, world, ttl, s.now) {
      forall actions | CanRun(s, actions, world, ttl)
        ensures ReturnsPresent(Run(s, actions, world, ttl), |s.returned|, world, s.now)
      {
        RunFresh(s, actions, world, ttl, s.now, |s.returned|);
      }
    }
    if AlwaysPresent(s, world, ttl) {
      hide AlwaysPresent, KeyOf, Run, CanRun;
      forall r | Live(s, r, ttl) ensures world(s.now, r) == Got(s.entries[KeyOf(r).main].value) {
        GetReturns(s, r, world, ttl);
      }
      forall t | t in s.readers && s.readers[t].Fetched? && ttl(s.readers[t].read) > 0
        ensures world(s.now, s.readers[t].read) == Got(s.readers[t].value)
      {
        PutReturns(s, t, world, ttl);
      }
    }
  }

  /** The world in which some reads are answered differently from an instant on. */
  ghost function Answering(world: World, now: nat, rs: set<Read>, answers: Backend): World {
    (t: nat, x: Read) => if t >= now && x in rs then answers(x) else world(t, x)
  }

  /** A reader that has fetched one of these reads and not put it yet, and whose put will store it. */
  ghost predicate LatePut(s: State, rs: set<Read>, ttl: Expirations, t: nat) {
    t in s.readers && s.readers[t].Fetched? && s.readers[t].read in rs && ttl(s.readers[t].read) > 0
  }

  ghost predicate NoneCached(s: State, rs: set<Read>) {
    forall r | r in rs :: KeyOf(r).main !in s.entries
  }

  lemma ChangedFresh(s: State, world: World, ttl: Expirations, rs: set<Read>, answers: Backend)
    requires Fresh(s, world, ttl, s.now) && NoneCached(s, rs)
    requires forall t :: !LatePut(s, rs, ttl, t)
    ensures Fresh(s, Answering(world, s.now, rs, answers), ttl, s.now)
  {
    hide KeyOf;
    forall t | t in s.readers && s.readers[t].Fetched? && ttl(s.readers[t].read) > 0
      ensures s.readers[t].read !in rs
    {
      assert !LatePut(s, rs, ttl, t);
    }
  }

  lemma ChangedConstant(world: World, now: nat, rs: set<Read>, answers: Backend)
    requires ConstantFrom(world, now)
    ensures ConstantFrom(Answering(world, now, rs, answers), now)
  {
  }

  /** When an invalidation holds under interleaving. A write changes the answers to some reads in a state that was up
      to date, and their keys have just been deleted. Whatever the new answers are, every value every continuation
      returns is a present answer, if and only if no reader holds a value of these reads fetched before and still
      to be put. */
  lemma InvalidationIff(s: State, world: World, ttl: Expirations, rs: set<Read>)
    requires ConstantFrom(world, s.now) && Fresh(s, world, ttl, s.now) && NoneCached(s, rs)
    ensures (forall answers :: AlwaysPresent(s, Answering(world, s.now, rs, answers), ttl)) <==>
            forall t :: !LatePut(s, rs, ttl, t)
  {
    if forall t :: !LatePut(s, rs, ttl, t) {
      forall answers ensures AlwaysPresent(s, Answering(world, s.now, rs, answers), ttl) {
        ChangedFresh(s, world, ttl, rs, answers);
        ChangedConstant(world, s.now, rs, answers);
        FreshIff(s, Answering(world, s.now, rs, answers), ttl);
      }
    } else {
      var t :| LatePut(s, rs, ttl, t);
      var answers: Backend := x => Got(Other(s.readers[t].value));
      var changed := Answering(world, s.now, rs, answers);
      ChangedConstant(world, s.now, rs, answers);
      FreshIff(s, changed, ttl);
      hide AlwaysPresent, KeyOf;
      assert changed(s.now, s.readers[t].read) == Got(Other(s.readers[t].value));
    }
  }
}
