/** The hit and miss counters: three Redis operations per counted call, any of which Redis refuses on a key of the
    wrong type, interleaved between callers, and the reset that must leave none of them behind. */
module CacheCounters {
  import opened Common

  datatype Kind = Hit | Miss

  function Prefix(kind: Kind): string {
    if kind.Hit? then "cache-hit-" else "cache-miss-"
  }

  /** The Redis key of one label's counter. */
  function CounterKey(kind: Kind, name: string): string {
    Prefix(kind) + name
  }

  function TotalKey(kind: Kind): string {
    Prefix(kind) + "total"
  }

  function SetKey(kind: Kind): string {
    Prefix(kind) + "keys"
  }

  /** Labels whose counter is neither the total nor the key set. */
  predicate Plain(name: string) {
    name != "total" && name != "keys"
  }

  /** What Redis keeps under a key: an integer string or a set of strings. */
  datatype Value = Integer(n: nat) | Labels(names: set<string>)

  type Redis = map<string, Value>

  predicate IsInteger(r: Redis, key: string) {
    key in r && r[key].Integer?
  }

  predicate IsLabels(r: Redis, key: string) {
    key in r && r[key].Labels?
  }

  function Number(r: Redis, key: string): nat {
    if IsInteger(r, key) then r[key].n else 0
  }

  function Members(r: Redis, key: string): set<string> {
    if IsLabels(r, key) then r[key].names else {}
  }

  /** INCR, refused on a set. */
  function Incr(r: Redis, key: string): Option<Redis> {
    if IsLabels(r, key) then None else Some(r[key := Integer(Number(r, key) + 1)])
  }

  /** SADD, refused on an integer. */
  function Sadd(r: Redis, key: string, name: string): Option<Redis> {
    if IsInteger(r, key) then None else Some(r[key := Labels(Members(r, key) + {name})])
  }

  lemma KeysApart(a: Kind, x: string, b: Kind, y: string)
    ensures CounterKey(a, x) == CounterKey(b, y) ==> a == b && x == y
  {
    var p, q := CounterKey(a, x), CounterKey(b, y);
    assert p[6] == if a.Hit? then 'h' else 'm';
    assert q[6] == if b.Hit? then 'h' else 'm';
    assert p[|Prefix(a)|..] == x;
    assert q[|Prefix(b)|..] == y;
  }

  // ---------- Sums over a set of labels ----------

  ghost function Sum(names: set<string>, kind: Kind, r: Redis): nat {
    if names == {} then 0
    else
      var n :| n in names;
      Number(r, CounterKey(kind, n)) + Sum(names - {n}, kind, r)
  }

  lemma {:induction false} SumWithout(names: set<string>, kind: Kind, r: Redis, n: string)
    requires n in names
    ensures Sum(names, kind, r) == Number(r, CounterKey(kind, n)) + Sum(names - {n}, kind, r)
    decreases names
  {
    var m :| m in names && Sum(names, kind, r) == Number(r, CounterKey(kind, m)) + Sum(names - {m}, kind, r);
    if m != n {
      SumWithout(names - {m}, kind, r, n);
      SumWithout(names - {n}, kind, r, m);
      assert names - {m} - {n} == names - {n} - {m};
    }
  }

  lemma {:induction false} SumSame(names: set<string>, kind: Kind, r: Redis, s: Redis)
    requires forall n | n in names :: Number(r, CounterKey(kind, n)) == Number(s, CounterKey(kind, n))
    ensures Sum(names, kind, r) == Sum(names, kind, s)
    decreases names
  {
    if names != {} {
      var n :| n in names;
      SumSame(names - {n}, kind, r, s);
      SumWithout(names, kind, r, n);
      SumWithout(names, kind, s, n);
    }
  }

  // ---------- Interleaved callers ----------

  /** Where a counting call stands: after its sadd, or after its per-label incr too. */
  datatype Phase = Added(kind: Kind, name: string) | Bumped(kind: Kind, name: string)

  datatype State = State(redis: Redis, calls: map<nat, Phase>)

  datatype Action =
    | Begin(call: nat, kind: Kind, name: string)
    | Bump(call: nat)
    | Finish(call: nat)

  const START := State(map[], map[])

  predicate CanApply(s: State, a: Action) {
    match a
    case Begin(call, _, _) => call !in s.calls
    case Bump(call) => call in s.calls && s.calls[call].Added?
    case Finish(call) => call in s.calls && s.calls[call].Bumped?
  }

  /** One operation of one call; a refused operation raises and ends the call. */
  function Apply(s: State, a: Action): State
    requires CanApply(s, a)
  {
    match a
    case Begin(call, kind, name) =>
      (match Sadd(s.redis, SetKey(kind), name)
       case None => s
       case Some(r) => State(r, s.calls[call := Added(kind, name)]))
    case Bump(call) =>
      var p := s.calls[call];
      (match Incr(s.redis, CounterKey(p.kind, p.name))
       case None => State(s.redis, s.calls - {call})
       case Some(r) => State(r, s.calls[call := Bumped(p.kind, p.name)]))
    case Finish(call) =>
      (match Incr(s.redis, TotalKey(s.calls[call].kind))
       case None => State(s.redis, s.calls - {call})
       case Some(r) => State(r, s.calls - {call}))
  }

  predicate CanRun(s: State, actions: seq<Action>)
    decreases |actions|
  {
    actions != [] ==> CanApply(s, actions[0]) && CanRun(Apply(s, actions[0]), actions[1..])
  }

  function Run(s: State, actions: seq<Action>): State
    requires CanRun(s, actions)
    decreases |actions|
  {
    if actions == [] then s else Run(Apply(s, actions[0]), actions[1..])
  }

  /** The calls between their second and third operation. */
  function InFlight(s: State, kind: Kind): set<nat> {
    set c | c in s.calls && s.calls[c].Bumped? && s.calls[c].kind == kind
  }

  /** The action is the second operation of a call labelled "total": it adds to the total itself. */
  predicate Doubles(s: State, a: Action, kind: Kind) {
    a.Bump? && a.call in s.calls && s.calls[a.call].kind == kind && s.calls[a.call].name == "total"
  }

  function Doubled(s: State, actions: seq<Action>, kind: Kind): nat
    requires CanRun(s, actions)
    decreases |actions|
  {
    if actions == [] then 0
    else (if Doubles(s, actions[0], kind) then 1 else 0) + Doubled(Apply(s, actions[0]), actions[1..], kind)
  }

  /** The listed labels that have a counter of their own. */
  function OwnCounters(r: Redis, kind: Kind): set<string> {
    set n | n in Members(r, SetKey(kind)) && Plain(n)
  }

  /** The key set is a set, the total and every label's counter are integers, or they are missing. */
  ghost predicate Typed(r: Redis, kind: Kind) {
    && !IsInteger(r, SetKey(kind)) && !IsLabels(r, TotalKey(kind))
    && forall name | Plain(name) :: !IsLabels(r, CounterKey(kind, name))
  }

  /** Every label's counter is listed in its key set, and so is the label of every call under way. */
  ghost predicate Listed(r: Redis, kind: Kind) {
    forall name | Plain(name) && CounterKey(kind, name) in r :: name in Members(r, SetKey(kind))
  }

  ghost predicate CallsListed(s: State, kind: Kind) {
    forall c | c in s.calls && s.calls[c].kind == kind :: s.calls[c].name in Members(s.redis, SetKey(kind))
  }

  ghost predicate Inv(s: State, kind: Kind) {
    Typed(s.redis, kind) && Listed(s.redis, kind) && CallsListed(s, kind)
  }

  /** What the total and the calls about to add to it exceed the per-label counters by. */
  ghost function Excess(s: State, kind: Kind): int {
    Number(s.redis, TotalKey(kind)) + |InFlight(s, kind)| - Sum(OwnCounters(s.redis, kind), kind, s.redis)
  }

  // ---------- What the two operations change ----------

  /** An operation on the counter of one label leaves every other counter. */
  lemma CounterSet(r: Redis, k: Kind, name: string, v: Value, kind: Kind, n: string)
    ensures var t := r[CounterKey(k, name) := v];
            if k == kind && name == n then CounterKey(kind, n) in t && t[CounterKey(kind, n)] == v
            else
              && (CounterKey(kind, n) in t <==> CounterKey(kind, n) in r)
              && (CounterKey(kind, n) in r ==> t[CounterKey(kind, n)] == r[CounterKey(kind, n)])
  {
    KeysApart(k, name, kind, n);
    hide CounterKey;
  }

  lemma SharedKeys(kind: Kind)
    ensures TotalKey(kind) == CounterKey(kind, "total") && SetKey(kind) == CounterKey(kind, "keys")
  {
  }

  /** What every counter is after one of them was incremented. */
  ghost predicate OneMore(r: Redis, t: Redis, k: Kind, name: string, kind: Kind) {
    forall n ::
      && Number(t, CounterKey(kind, n)) == Number(r, CounterKey(kind, n)) + (if k == kind && n == name then 1 else 0)
      && (IsLabels(t, CounterKey(kind, n)) <==> IsLabels(r, CounterKey(kind, n)))
      && Members(t, CounterKey(kind, n)) == Members(r, CounterKey(kind, n))
      && (IsInteger(t, CounterKey(kind, n)) <==> IsInteger(r, CounterKey(kind, n)) || (k == kind && n == name))
  }

  lemma IncrCounter(r: Redis, k: Kind, name: string, kind: Kind)
    requires !IsLabels(r, CounterKey(k, name))
    ensures Incr(r, CounterKey(k, name)).Some?
    ensures OneMore(r, Incr(r, CounterKey(k, name)).value, k, name, kind)
  {
    forall n {
      CounterSet(r, k, name, Integer(Number(r, CounterKey(k, name)) + 1), kind, n);
    }
    hide CounterKey;
  }

  /** An increment of a listed label's counter, or of the total. */
  lemma IncrSum(r: Redis, t: Redis, k: Kind, name: string, kind: Kind)
    requires OneMore(r, t, k, name, kind)
    requires k == kind && Plain(name) ==> name in Members(r, SetKey(kind))
    ensures Members(t, SetKey(kind)) == Members(r, SetKey(kind))
    ensures Number(t, TotalKey(kind)) == Number(r, TotalKey(kind)) + if k == kind && name == "total" then 1 else 0
    ensures Sum(OwnCounters(t, kind), kind, t) ==
            Sum(OwnCounters(r, kind), kind, r) + if k == kind && Plain(name) then 1 else 0
  {
    SharedKeys(kind);
    hide Prefix, CounterKey, SetKey, TotalKey, Number, Members, IsLabels, IsInteger;
    assert forall n: string :: n == "keys" ==> !Plain(n);
    var own := OwnCounters(r, kind);
    assert OwnCounters(t, kind) == own;
    if k == kind && Plain(name) {
      SumWithout(own, kind, r, name);
      SumWithout(own, kind, t, name);
      SumSame(own - {name}, kind, r, t);
    } else {
      SumSame(own, kind, r, t);
    }
  }

  lemma IncrKeepsTypes(r: Redis, t: Redis, k: Kind, name: string, kind: Kind)
    requires OneMore(r, t, k, name, kind) && name != "keys" && Typed(r, kind) && Listed(r, kind)
    requires k == kind && Plain(name) ==> name in Members(r, SetKey(kind))
    ensures Typed(t, kind) && Listed(t, kind)
  {
    SharedKeys(kind);
    IncrSum(r, t, k, name, kind);
    assert forall key :: key in t <==> IsLabels(t, key) || IsInteger(t, key);
    assert forall key :: key in r <==> IsLabels(r, key) || IsInteger(r, key);
    hide Prefix, CounterKey, SetKey, TotalKey, Number, Members, IsLabels, IsInteger;
  }

  /** A label added to a key set of the right type changes that set alone. */
  lemma SaddChanges(r: Redis, k: Kind, name: string, kind: Kind)
    requires Typed(r, k)
    ensures Sadd(r, SetKey(k), name).Some?
    ensures var t := Sadd(r, SetKey(k), name).value;
            && Members(t, SetKey(kind)) == Members(r, SetKey(kind)) + (if k == kind then {name} else {})
            && Number(t, TotalKey(kind)) == Number(r, TotalKey(kind))
            && (Typed(r, kind) ==> Typed(t, kind))
            && forall n | Plain(n) ::
                 && Number(t, CounterKey(kind, n)) == Number(r, CounterKey(kind, n))
                 && (CounterKey(kind, n) in t <==> CounterKey(kind, n) in r)
  {
    SharedKeys(k);
    SharedKeys(kind);
    forall n {
      CounterSet(r, k, "keys", Labels(Members(r, SetKey(k)) + {name}), kind, n);
    }
    hide Prefix, CounterKey, SetKey, TotalKey;
  }

  /** A label without a counter adds nothing to the sum. */
  lemma FreshLabelSum(r: Redis, kind: Kind, names: set<string>, name: string)
    requires Plain(name) && (CounterKey(kind, name) in r ==> name in names)
    ensures Sum(names + {name}, kind, r) == Sum(names, kind, r)
  {
    if name in names {
      assert names + {name} == names;
    } else {
      SumWithout(names + {name}, kind, r, name);
      assert names + {name} - {name} == names;
    }
  }

  lemma SaddSum(r: Redis, k: Kind, name: string, kind: Kind)
    requires Typed(r, k) && Listed(r, kind)
    ensures var t := Sadd(r, SetKey(k), name).value;
            Sadd(r, SetKey(k), name).Some? && Listed(t, kind)
            && Sum(OwnCounters(t, kind), kind, t) == Sum(OwnCounters(r, kind), kind, r)
  {
    SaddChanges(r, k, name, kind);
    hide Prefix, CounterKey, SetKey, TotalKey, Number, Sadd, Typed;
    var t := Sadd(r, SetKey(k), name).value;
    if k == kind && Plain(name) {
      assert CounterKey(kind, name) in r ==> name in OwnCounters(r, kind);
      FreshLabelSum(r, kind, OwnCounters(r, kind), name);
      assert OwnCounters(t, kind) == OwnCounters(r, kind) + {name};
    } else {
      assert OwnCounters(t, kind) == OwnCounters(r, kind);
    }
    SumSame(OwnCounters(t, kind), kind, r, t);
  }

  // ---------- The steps ----------

  /** A step keeps the invariant, and the excess but for the second operation of a call labelled "total". */
  ghost predicate Steps(s: State, t: State, a: Action, kind: Kind)
  {
    Inv(t, kind) && Excess(t, kind) == Excess(s, kind) + if Doubles(s, a, kind) then 2 else 0
  }

  lemma BeginSteps(s: State, a: Action, kind: Kind)
    requires CanApply(s, a) && a.Begin? && Inv(s, a.kind) && Inv(s, kind)
    ensures Steps(s, Apply(s, a), a, kind)
  {
    hide InFlight, CallsListed, Sum, SetKey, CounterKey, TotalKey, Typed, Listed, OwnCounters, Sadd, Number, Members;
    SaddChanges(s.redis, a.kind, a.name, kind);
    SaddSum(s.redis, a.kind, a.name, kind);
    CallsAfterBegin(s, Apply(s, a), a, kind);
  }

  lemma CallsAfterBegin(s: State, t: State, a: Action, kind: Kind)
    requires CanApply(s, a) && a.Begin? && CallsListed(s, kind) && t.calls == s.calls[a.call := Added(a.kind, a.name)]
    requires Members(t.redis, SetKey(kind)) == Members(s.redis, SetKey(kind)) + if a.kind == kind then {a.name} else {}
    ensures CallsListed(t, kind) && InFlight(t, kind) == InFlight(s, kind)
  {
    hide SetKey, Members;
  }

  lemma CallsAfterEnd(s: State, c: nat, kind: Kind)
    requires c in s.calls
    ensures CallsListed(s, kind) ==> CallsListed(State(s.redis, s.calls - {c}), kind)
    ensures s.calls[c].kind == kind && s.calls[c].Bumped? ==>
              |InFlight(s, kind)| == |InFlight(State(s.redis, s.calls - {c}), kind)| + 1
    ensures !(s.calls[c].kind == kind && s.calls[c].Bumped?) ==>
              InFlight(State(s.redis, s.calls - {c}), kind) == InFlight(s, kind)
  {
    if s.calls[c].kind == kind && s.calls[c].Bumped? {
      assert InFlight(s, kind) == InFlight(State(s.redis, s.calls - {c}), kind) + {c};
    }
  }

  lemma CallsAfterBump(s: State, c: nat, kind: Kind)
    requires c in s.calls && s.calls[c].Added?
    ensures var t := State(s.redis, s.calls[c := Bumped(s.calls[c].kind, s.calls[c].name)]);
            && (CallsListed(s, kind) ==> CallsListed(t, kind))
            && |InFlight(t, kind)| == |InFlight(s, kind)| + if s.calls[c].kind == kind then 1 else 0
  {
    var t := State(s.redis, s.calls[c := Bumped(s.calls[c].kind, s.calls[c].name)]);
    if s.calls[c].kind == kind {
      assert InFlight(t, kind) == InFlight(s, kind) + {c};
    } else {
      assert InFlight(t, kind) == InFlight(s, kind);
    }
  }

  /** In a well-typed state the per-label increment is refused exactly for the label "keys". */
  lemma BumpRefusedIff(s: State, c: nat)
    requires c in s.calls && Inv(s, s.calls[c].kind)
    ensures IsLabels(s.redis, CounterKey(s.calls[c].kind, s.calls[c].name)) <==> s.calls[c].name == "keys"
  {
    SharedKeys(s.calls[c].kind);
    hide CounterKey, TotalKey, SetKey;
  }

  lemma BumpSteps(s: State, a: Action, kind: Kind)
    requires CanApply(s, a) && a.Bump? && Inv(s, s.calls[a.call].kind) && Inv(s, kind)
    ensures Steps(s, Apply(s, a), a, kind)
  {
    hide SetKey, CounterKey, TotalKey, Typed, Listed, OwnCounters, Number, Members, CallsListed, InFlight, OneMore, Sum;
    var p := s.calls[a.call];
    BumpRefusedIff(s, a.call);
    if p.name == "keys" {
      CallsAfterEnd(s, a.call, kind);
    } else {
      CallIsListed(s, a.call);
      IncrCounter(s.redis, p.kind, p.name, kind);
      var r := Incr(s.redis, CounterKey(p.kind, p.name)).value;
      IncrSum(s.redis, r, p.kind, p.name, kind);
      IncrKeepsTypes(s.redis, r, p.kind, p.name, kind);
      CallsAfterBump(s, a.call, kind);
      StoreChanges(s, Apply(s, a), kind);
    }
  }

  lemma CallIsListed(s: State, c: nat)
    requires c in s.calls && CallsListed(s, s.calls[c].kind)
    ensures s.calls[c].name in Members(s.redis, SetKey(s.calls[c].kind))
  {
  }

  /** The calls under way are read from the key set and the calls alone. */
  lemma StoreChanges(s: State, t: State, kind: Kind)
    requires Members(t.redis, SetKey(kind)) == Members(s.redis, SetKey(kind))
    ensures InFlight(t, kind) == InFlight(State(s.redis, t.calls), kind)
    ensures CallsListed(t, kind) <==> CallsListed(State(s.redis, t.calls), kind)
  {
  }

  lemma FinishSteps(s: State, a: Action, kind: Kind)
    requires CanApply(s, a) && a.Finish? && Inv(s, s.calls[a.call].kind) && Inv(s, kind)
    ensures Steps(s, Apply(s, a), a, kind)
  {
    hide SetKey, CounterKey, TotalKey, Listed, OwnCounters, Number, Members, CallsListed, InFlight, OneMore, Sum;
    var k := s.calls[a.call].kind;
    SharedKeys(k);
    IncrCounter(s.redis, k, "total", kind);
    var r := Incr(s.redis, CounterKey(k, "total")).value;
    IncrSum(s.redis, r, k, "total", kind);
    IncrKeepsTypes(s.redis, r, k, "total", kind);
    CallsAfterEnd(s, a.call, kind);
    StoreChanges(s, Apply(s, a), kind);
    hide Typed;
  }

  ghost predicate BothInv(s: State) {
    forall kind :: Inv(s, kind)
  }

  lemma StepKeeps(s: State, a: Action)
    requires CanApply(s, a) && BothInv(s)
    ensures BothInv(Apply(s, a))
    ensures forall kind :: Excess(Apply(s, a), kind) == Excess(s, kind) + if Doubles(s, a, kind) then 2 else 0
  {
    hide Inv, Apply, Excess, Doubles;
    forall kind ensures Inv(Apply(s, a), kind) {
      AnySteps(s, a, kind);
    }
    forall kind ensures Excess(Apply(s, a), kind) == Excess(s, kind) + if Doubles(s, a, kind) then 2 else 0 {
      AnySteps(s, a, kind);
    }
  }

  lemma AnySteps(s: State, a: Action, kind: Kind)
    requires CanApply(s, a) && BothInv(s)
    ensures Steps(s, Apply(s, a), a, kind)
  {
    hide Inv, Apply, Steps;
    assert Inv(s, kind);
    match a
    case Begin(_, k, _) =>
      assert Inv(s, k);
      BeginSteps(s, a, kind);
    case Bump(c) =>
      assert Inv(s, s.calls[c].kind);
      BumpSteps(s, a, kind);
    case Finish(c) =>
      assert Inv(s, s.calls[c].kind);
      FinishSteps(s, a, kind);
  }

  lemma {:induction false} RunKeeps(s: State, actions: seq<Action>, kind: Kind)
    requires CanRun(s, actions) && BothInv(s)
    ensures BothInv(Run(s, actions))
    ensures Excess(Run(s, actions), kind) == Excess(s, kind) + 2 * Doubled(s, actions, kind)
    decreases |actions|
  {
    if actions != [] {
      hide BothInv, Apply, Excess, Doubles;
      StepKeeps(s, actions[0]);
      RunKeeps(Apply(s, actions[0]), actions[1..], kind);
    }
  }

  lemma StartIsFresh()
    ensures BothInv(START) && Excess(START, Hit) == 0 && Excess(START, Miss) == 0
  {
    forall kind ensures Excess(START, kind) == 0 {
      assert InFlight(START, kind) == {} && OwnCounters(START.redis, kind) == {};
      assert Sum({}, kind, START.redis) == 0;
    }
  }

  /** In any interleaving of calls with any labels, the total and the calls about to add to it exceed the per-label
      counters by two for each call labelled "total"; so at rest they agree exactly when there was none. Every label
      with a counter is in the key set. */
  lemma CountersBalance(actions: seq<Action>, kind: Kind)
    requires CanRun(START, actions)
    ensures var s := Run(START, actions);
            var sum, total := Sum(OwnCounters(s.redis, kind), kind, s.redis), Number(s.redis, TotalKey(kind));
            && total + |InFlight(s, kind)| == sum + 2 * Doubled(START, actions, kind)
            && (s.calls == map[] ==> (total == sum <==> Doubled(START, actions, kind) == 0))
            && Typed(s.redis, kind) && Listed(s.redis, kind)
  {
    StartIsFresh();
    RunKeeps(START, actions, kind);
    hide Run, CanRun, Typed, Listed, CallsListed, Doubled, Sum, Number, OwnCounters;
    var s := Run(START, actions);
    assert Inv(s, kind);
    assert s.calls == map[] ==> InFlight(s, kind) == {};
  }

  // ---------- Labels that collide ----------

  /** A label's counter shares a Redis key with a total or a key set exactly for the two labels set apart. */
  lemma LabelCollidesIff(kind: Kind, name: string)
    ensures (exists k :: CounterKey(kind, name) == TotalKey(k) || CounterKey(kind, name) == SetKey(k)) <==> !Plain(name)
  {
    forall k
      ensures CounterKey(kind, name) == TotalKey(k) ==> name == "total"
      ensures CounterKey(kind, name) == SetKey(k) ==> name == "keys"
    {
      KeysApart(kind, name, k, "total");
      KeysApart(kind, name, k, "keys");
    }
    assert CounterKey(kind, "total") == TotalKey(kind) && CounterKey(kind, "keys") == SetKey(kind);
    hide CounterKey, TotalKey, SetKey;
  }

  /** One whole counted call: whether it succeeds, and what it leaves. */
  function Counted(r: Redis, kind: Kind, name: string): (bool, Redis) {
    match Sadd(r, SetKey(kind), name)
    case None => (false, r)
    case Some(added) =>
      match Incr(added, CounterKey(kind, name))
      case None => (false, added)
      case Some(bumped) =>
        match Incr(bumped, TotalKey(kind))
        case None => (false, bumped)
        case Some(done) => (true, done)
  }

  /** A counted call succeeds and adds one to the total exactly when its label is neither "total" nor "keys": the
      first adds two, and the second fails once its label is listed, before the total is touched. */
  lemma CallCountsOnceIff(r: Redis, kind: Kind, name: string)
    requires Typed(r, kind)
    ensures var (ok, t) := Counted(r, kind, name);
            && (ok && Number(t, TotalKey(kind)) == Number(r, TotalKey(kind)) + 1 <==> Plain(name))
            && (name == "total" ==> ok && Number(t, TotalKey(kind)) == Number(r, TotalKey(kind)) + 2)
            && (name == "keys" ==> !ok && Number(t, TotalKey(kind)) == Number(r, TotalKey(kind)))
            && name in Members(t, SetKey(kind))
            && (Plain(name) ==> Number(t, CounterKey(kind, name)) == Number(r, CounterKey(kind, name)) + 1)
  {
    SharedKeys(kind);
    SaddChanges(r, kind, name, kind);
    var added := Sadd(r, SetKey(kind), name).value;
    hide CounterKey, TotalKey, SetKey, Sadd, Incr, OneMore, Number;
    if name == "keys" {
      KeysRefused(added, kind);
    } else {
      IncrCounter(added, kind, name, kind);
      var bumped := Incr(added, CounterKey(kind, name)).value;
      AfterIncr(added, bumped, kind, name);
      IncrCounter(bumped, kind, "total", kind);
      AfterIncr(bumped, Incr(bumped, TotalKey(kind)).value, kind, "total");
    }
  }

  lemma KeysRefused(r: Redis, kind: Kind)
    requires Members(r, SetKey(kind)) != {}
    ensures Incr(r, CounterKey(kind, "keys")) == None
  {
    SharedKeys(kind);
  }

  lemma AfterIncr(r: Redis, t: Redis, kind: Kind, name: string)
    requires OneMore(r, t, kind, name, kind) && name != "keys"
    ensures Number(t, TotalKey(kind)) == Number(r, TotalKey(kind)) + if name == "total" then 1 else 0
    ensures Members(t, SetKey(kind)) == Members(r, SetKey(kind))
    ensures IsLabels(t, TotalKey(kind)) <==> IsLabels(r, TotalKey(kind))
    ensures forall n ::
              Number(t, CounterKey(kind, n)) == Number(r, CounterKey(kind, n)) + if n == name then 1 else 0
  {
    SharedKeys(kind);
    hide CounterKey, TotalKey, SetKey, Number, Members, IsLabels;
  }

  /** The steps of a call that nothing interrupts: it ends at the first refused operation. */
  function CallSteps(r: Redis, call: nat, kind: Kind, name: string): seq<Action> {
    match Sadd(r, SetKey(kind), name)
    case None => [Begin(call, kind, name)]
    case Some(added) =>
      if Incr(added, CounterKey(kind, name)).None? then [Begin(call, kind, name), Bump(call)]
      else [Begin(call, kind, name), Bump(call), Finish(call)]
  }

  /** Run without interruption on any store, the steps of a call with any label are the counted call. */
  lemma CallIsItsSteps(s: State, call: nat, kind: Kind, name: string)
    requires call !in s.calls
    ensures var steps := CallSteps(s.redis, call, kind, name);
            CanRun(s, steps) && Run(s, steps) == State(Counted(s.redis, kind, name).1, s.calls)
  {
    var steps := [Begin(call, kind, name), Bump(call), Finish(call)];
    hide SetKey, CounterKey, TotalKey, Sadd, Incr;
    var s1 := Apply(s, steps[0]);
    if Sadd(s.redis, SetKey(kind), name).None? {
      RunOne(s, steps[0]);
    } else {
      var s2 := Apply(s1, steps[1]);
      if Incr(s1.redis, CounterKey(kind, name)).None? {
        assert s2.calls == s.calls;
        RunTwo(s, steps[0], steps[1]);
      } else {
        assert Apply(s2, steps[2]).calls == s.calls;
        RunThree(s, steps[0], steps[1], steps[2]);
      }
    }
  }

  lemma RunOne(s: State, a: Action)
    requires CanApply(s, a)
    ensures CanRun(s, [a]) && Run(s, [a]) == Apply(s, a)
  {
    hide Apply, CanApply;
    assert [a][1..] == [];
  }

  lemma RunTwo(s: State, a: Action, b: Action)
    requires CanApply(s, a) && CanApply(Apply(s, a), b)
    ensures CanRun(s, [a, b]) && Run(s, [a, b]) == Apply(Apply(s, a), b)
  {
    RunOne(Apply(s, a), b);
    hide Apply, CanApply;
    assert [a, b][1..] == [b];
  }

  lemma RunThree(s: State, a: Action, b: Action, c: Action)
    requires CanApply(s, a) && CanApply(Apply(s, a), b) && CanApply(Apply(Apply(s, a), b), c)
    ensures CanRun(s, [a, b, c]) && Run(s, [a, b, c]) == Apply(Apply(Apply(s, a), b), c)
  {
    RunTwo(Apply(s, a), b, c);
    hide Apply, CanApply;
    assert [a, b, c][1..] == [b, c];
  }

  /** Reading the listed counters fails exactly once a call labelled "keys" was counted: the key set is then listed as
      its own counter. */
  lemma ListingFailsIff(r: Redis, kind: Kind)
    requires Typed(r, kind)
    ensures (exists n | n in Members(r, SetKey(kind)) :: IsLabels(r, CounterKey(kind, n))) <==>
            "keys" in Members(r, SetKey(kind))
  {
    SharedKeys(kind);
    hide CounterKey, TotalKey, SetKey;
  }

  // ---------- The service ----------

  class CachingService {
    var store: Redis

    constructor ()
      ensures store == START.redis
    {
      store := map[];
    }

    /** INCR */
    method Increment(key: string) returns (ok: bool)
      modifies this
      ensures ok == Incr(old(store), key).Some?
      ensures store == if ok then Incr(old(store), key).value else old(store)
    {
      if key in store && store[key].Labels? {
        return false;
      }
      store := store[key := Integer((if key in store then store[key].n else 0) + 1)];
      ok := true;
    }

    /** SADD */
    method AddLabel(key: string, name: string) returns (ok: bool)
      modifies this
      ensures ok == Sadd(old(store), key, name).Some?
      ensures store == if ok then Sadd(old(store), key, name).value else old(store)
    {
      if key in store && store[key].Integer? {
        return false;
      }
      store := store[key := Labels((if key in store then store[key].names else {}) + {name})];
      ok := true;
    }

    /** count_hit and count_miss */
    method CountCall(kind: Kind, name: string) returns (ok: bool)
      modifies this
      ensures (ok, store) == Counted(old(store), kind, name)
    {
      hide CounterKey, TotalKey, SetKey, Sadd, Incr;
      ok := AddLabel(SetKey(kind), name);
      if ok {
        ok := Increment(CounterKey(kind, name));
      }
      if ok {
        ok := Increment(TotalKey(kind));
      }
    }

    /** One of the two loops of metrics: the counters of the listed labels, a missing one skipped; it raises on a
        counter that is a set, or when the key set is none. */
    method ListCounters(kind: Kind) returns (ok: bool, counters: map<string, nat>)
      ensures !ok <==> IsInteger(store, SetKey(kind)) ||
                       exists n | n in Members(store, SetKey(kind)) :: IsLabels(store, CounterKey(kind, n))
      ensures ok ==> counters.Keys == set n | n in Members(store, SetKey(kind)) && CounterKey(kind, n) in store
      ensures ok ==> forall n | n in counters :: counters[n] == Number(store, CounterKey(kind, n))
    {
      hide CounterKey, SetKey;
      counters := map[];
      if IsInteger(store, SetKey(kind)) {
        return false, counters;
      }
      var all := Members(store, SetKey(kind));
      var left := all;
      while left != {}
        invariant left <= all
        invariant forall n | n in all - left :: !IsLabels(store, CounterKey(kind, n))
        invariant counters.Keys == set n | n in all - left && CounterKey(kind, n) in store
        invariant forall n | n in counters :: counters[n] == Number(store, CounterKey(kind, n))
      {
        var n :| n in left;
        left := left - {n};
        assert all - left == (all - (left + {n})) + {n};
        var key := CounterKey(kind, n);
        if key !in store {
          continue;
        }
        if store[key].Labels? {
          return false, counters;
        }
        counters := counters[n := store[key].n];
      }
      assert all - left == all;
      ok := true;
    }

    /** The deletions of one kind: the counter of every label listed when the loop starts. */
    method DeleteListed(kind: Kind)
      modifies this
      ensures store == map k | k in old(store) && !ListedCounter(old(store), kind, k) :: old(store)[k]
    {
      hide CounterKey, SetKey;
      var all := Members(store, SetKey(kind));
      var left := all;
      while left != {}
        invariant left <= all
        invariant forall k :: k in store <==> k in old(store) && forall n | n in all - left :: k != CounterKey(kind, n)
        invariant forall k | k in store :: store[k] == old(store)[k]
      {
        var n :| n in left;
        left := left - {n};
        assert all - left == (all - (left + {n})) + {n};
        store := store - {CounterKey(kind, n)};
      }
      assert all - left == all;
    }

    /** reset, with no call under way meanwhile: the totals are zero and no counter or key set is left behind. */
    method Reset()
      requires Typed(store, Hit) && Typed(store, Miss) && Listed(store, Hit) && Listed(store, Miss)
      modifies this
      ensures CleanedOf(store, Hit) && CleanedOf(store, Miss)
    {
      ghost var before := store;
      store := store[TotalKey(Hit) := Integer(0)];
      store := store[TotalKey(Miss) := Integer(0)];
      DeleteListed(Hit);
      ghost var half := store;
      DeleteListed(Miss);
      ghost var left := store;
      ResetLeaves(before, half, left, Hit);
      ResetLeaves(before, half, left, Miss);
      store := store - {SetKey(Hit)};
      store := store - {SetKey(Miss)};
      SetsRemoved(left, Hit);
      SetsRemoved(left, Miss);
    }
  }

  /** The key is the counter of a listed label. */
  ghost predicate ListedCounter(r: Redis, kind: Kind, key: string) {
    exists n :: n in Members(r, SetKey(kind)) && key == CounterKey(kind, n)
  }

  /** No counter, no key set, and a total that reads zero. */
  ghost predicate CleanedOf(r: Redis, kind: Kind) {
    && (forall name | Plain(name) :: CounterKey(kind, name) !in r)
    && SetKey(kind) !in r
    && Number(r, TotalKey(kind)) == 0 && !IsLabels(r, TotalKey(kind))
  }

  /** The store once the totals are zeroed. */
  function Zeroed(r: Redis): Redis {
    r[TotalKey(Hit) := Integer(0)][TotalKey(Miss) := Integer(0)]
  }

  lemma ZeroedIs(r: Redis, kind: Kind)
    ensures TotalKey(kind) in Zeroed(r) && Zeroed(r)[TotalKey(kind)] == Integer(0)
    ensures Members(Zeroed(r), SetKey(kind)) == Members(r, SetKey(kind))
    ensures forall name | CounterKey(kind, name) in Zeroed(r) :: CounterKey(kind, name) in r || name == "total"
  {
    SharedKeys(Hit);
    SharedKeys(Miss);
    forall k, name { KeysApart(k, "total", kind, name); }
    hide CounterKey, SetKey, TotalKey, Prefix;
  }

  /** The store less the listed counters of one kind. */
  ghost predicate LeftBy(r: Redis, t: Redis, kind: Kind) {
    t == map k | k in r && !ListedCounter(r, kind, k) :: r[k]
  }

  lemma LeftOther(r: Redis, t: Redis, k: Kind, kind: Kind)
    requires LeftBy(r, t, k) && k != kind
    ensures forall name :: CounterKey(kind, name) in t <==> CounterKey(kind, name) in r
    ensures forall name :: CounterKey(kind, name) in t ==> t[CounterKey(kind, name)] == r[CounterKey(kind, name)]
  {
    forall n, name ensures CounterKey(k, n) != CounterKey(kind, name) { KeysApart(k, n, kind, name); }
    hide CounterKey, SetKey, Members;
  }

  lemma LeftOwn(r: Redis, t: Redis, kind: Kind)
    requires LeftBy(r, t, kind)
    ensures forall name :: CounterKey(kind, name) in t ==> name !in Members(r, SetKey(kind))
    ensures forall key | key in t :: key in r && t[key] == r[key]
  {
    hide CounterKey, SetKey, Members;
  }

  /** What the two rounds of deletions leave of one kind. */
  lemma ResetLeaves(before: Redis, half: Redis, left: Redis, kind: Kind)
    requires Listed(before, kind) && LeftBy(Zeroed(before), half, Hit) && LeftBy(half, left, Miss)
    ensures forall name | Plain(name) :: CounterKey(kind, name) !in left
    ensures TotalKey(kind) in left ==> left[TotalKey(kind)] == Integer(0)
  {
    ZeroedIs(before, kind);
    SharedKeys(kind);
    LeftOther(Zeroed(before), half, Hit, Miss);
    LeftOther(half, left, Miss, Hit);
    LeftOwn(Zeroed(before), half, Hit);
    LeftOwn(half, left, Miss);
    hide CounterKey, SetKey, TotalKey, Prefix, LeftBy, Zeroed;
  }

  lemma SetsRemoved(left: Redis, kind: Kind)
    requires forall name | Plain(name) :: CounterKey(kind, name) !in left
    requires TotalKey(kind) in left ==> left[TotalKey(kind)] == Integer(0)
    ensures CleanedOf(left - {SetKey(Hit)} - {SetKey(Miss)}, kind)
  {
    SharedKeys(Hit);
    SharedKeys(Miss);
    hide CounterKey, SetKey, TotalKey, Prefix;
  }

  /** After a reset the counters are as in a new store: every invariant holds and the total exceeds nothing. */
  lemma CleanedIsFresh(r: Redis, kind: Kind)
    requires CleanedOf(r, kind)
    ensures Inv(State(r, map[]), kind) && Excess(State(r, map[]), kind) == 0
  {
    hide CounterKey, SetKey, TotalKey;
    assert InFlight(State(r, map[]), kind) == {} && OwnCounters(r, kind) == {};
    assert Sum({}, kind, r) == 0;
  }
}
