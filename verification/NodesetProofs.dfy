/** What folding and expanding node names guarantee: the groups are the maximal consecutive runs,
    and expanding the folded text gives the names back. */
module NodesetProofs {
  import opened Decimal
  import opened DoubleCounting
  import opened Sorting
  import opened Nodeset

  // ---------- Node names ----------

  /** Where the trailing number of a name starts. */
  function NumberStart(s: string): (n: nat)
    ensures n <= |s| && AllDigits(s[n..])
    ensures n > 0 ==> !IsDigit(s[n - 1])
  {
    if s != "" && IsDigit(s[|s| - 1]) then
      var n := NumberStart(s[..|s| - 1]);
      assert s[n..] == s[..|s| - 1][n..] + [s[|s| - 1]];
      n
    else |s|
  }

  function Stem(s: string): string { s[..NumberStart(s)] }

  function Number(s: string): (d: string)
    ensures AllDigits(d)
  {
    s[NumberStart(s)..]
  }

  predicate WordOnly(s: string) {
    forall i | 0 <= i < |s| :: IsWordChar(s[i])
  }

  /** Word characters, not all digits, and digits at the end if anywhere. */
  predicate NodeShape(s: string) {
    && WordOnly(s)
    && Stem(s) != ""
    && (Number(s) == "" ==> NoDigits(s))
  }

  /** The names the round trip covers: node names whose trailing number is below 2^53. */
  predicate NodeName(s: string) {
    NodeShape(s) && Value(Number(s)) < MAX_EXACT
  }

  ghost predicate NodeNames(names: seq<string>) {
    forall name | name in names :: NodeName(name)
  }

  /** b is the node right after a: same stem, same width, number one higher. */
  predicate Successor(a: string, b: string) {
    && Number(a) != "" && Number(b) != ""
    && Stem(a) == Stem(b)
    && |Number(a)| == |Number(b)|
    && Value(Number(b)) == Value(Number(a)) + 1
  }

  /** The same name again, with no number to count on. */
  predicate RepeatsBare(a: string, b: string) {
    a == b && Number(a) == ""
  }

  predicate Follows(a: string, b: string) {
    Successor(a, b) || RepeatsBare(a, b)
  }

  // ---------- Parsing a name ----------

  lemma {:induction false} NumberStartUnique(front: string, d: string)
    requires AllDigits(d)
    requires front != "" ==> !IsDigit(front[|front| - 1])
    ensures NumberStart(front + d) == |front|
    ensures Stem(front + d) == front && Number(front + d) == d
  {
    var s := front + d;
    if d != "" {
      NumberStartUnique(front, d[..|d| - 1]);
      assert s[..|s| - 1] == front + d[..|d| - 1];
    }
    assert s[..|front|] == front && s[|front|..] == d;
  }

  lemma StemAndNumber(s: string)
    ensures s == Stem(s) + Number(s)
    ensures Stem(s) != "" ==> !IsDigit(Stem(s)[|Stem(s)| - 1])
  {
  }

  lemma {:induction false} DigitRunIs(d: string, rest: string)
    requires AllDigits(d) && (rest == "" || !IsDigit(rest[0]))
    ensures DigitRun(d + rest) == |d|
  {
    if d == "" {
      assert d + rest == rest;
    } else {
      DigitRunIs(d[1..], rest);
      assert (d + rest)[1..] == d[1..] + rest;
    }
  }

  lemma {:induction false} NonDigitRunIs(p: string, rest: string)
    requires NoDigits(p) && (rest == "" || IsDigit(rest[0]))
    ensures NonDigitRun(p + rest) == |p|
  {
    if p == "" {
      assert p + rest == rest;
    } else {
      NonDigitRunIs(p[1..], rest);
      assert (p + rest)[1..] == p[1..] + rest;
    }
  }

  /** The first match of a name, and what is left. */
  predicate FirstMatch(p: string, id: string, rest: string) {
    && NoDigits(p) && AllDigits(id)
    && (id == "" ==> p != "" && rest == "")
    && (rest != "" ==> !IsDigit(rest[0]))
  }

  lemma ParseFirst(p: string, id: string, rest: string)
    requires FirstMatch(p, id, rest)
    ensures PatternOf(p + id + rest) == p + (if id != "" then "%s" else "") + PatternOf(rest)
    ensures IdsOf(p + id + rest) == (if id != "" then [id] else []) + IdsOf(rest)
  {
    var s := p + id + rest;
    assert s == p + (id + rest);
    NonDigitRunIs(p, id + rest);
    assert s[|p|..] == id + rest;
    DigitRunIs(id, rest);
    assert s[..|p|] == p && s[|p|..][..|id|] == id && s[|p| + |id|..] == rest;
    assert Matches(s) == [Match(p, id)] + Matches(rest);
  }

  lemma CutTwice<T>(s: seq<T>, n: nat, d: nat)
    requires n + d <= |s|
    ensures s == s[..n] + s[n..][..d] + s[n..][d..]
  {
    assert s[n..] == s[n..][..d] + s[n..][d..];
  }

  lemma SplitFirst(s: string) returns (p: string, id: string, rest: string)
    requires s != ""
    ensures FirstMatch(p, id, rest) && s == p + id + rest && |rest| < |s|
  {
    hide NonDigitRun, DigitRun, NoDigits, AllDigits, IsDigit;
    var n := NonDigitRun(s);
    var d := DigitRun(s[n..]);
    p, id, rest := s[..n], s[n..][..d], s[n..][d..];
    CutTwice(s, n, d);
  }

  lemma ParseBare(s: string)
    requires NoDigits(s)
    ensures PatternOf(s) == s && IdsOf(s) == []
  {
    if s != "" {
      ParseFirst(s, "", "");
      assert s + "" + "" == s;
    }
  }

  /** Parsing s is parsing its stem, then one more id. */
  ghost predicate ParsesAsStemThenNumber(s: string) {
    && PatternOf(s) == PatternOf(Stem(s)) + "%s"
    && IdsOf(s) == IdsOf(Stem(s)) + [Number(s)]
  }

  lemma OneMatchParses(p: string, id: string)
    requires NoDigits(p) && AllDigits(id) && id != ""
    ensures ParsesAsStemThenNumber(p + id)
  {
    ParseFirst(p, id, "");
    assert p + id + "" == p + id;
    NumberStartUnique(p, id);
    ParseBare(p);
    ParseBare("");
    hide PatternOf, IdsOf, Stem, Number;
    assert p + "%s" + "" == p + "%s";
  }

  lemma LaterMatchParses(p: string, id: string, rest: string)
    requires FirstMatch(p, id, rest) && rest != "" && Stem(rest) != ""
    requires ParsesAsStemThenNumber(rest)
    ensures ParsesAsStemThenNumber(p + id + rest)
  {
    var stem := Stem(rest);
    var num := Number(rest);
    hide PatternOf, IdsOf, Stem, Number, NumberStart;
    StemAndNumber(rest);
    assert stem[0] == rest[0];
    var front := p + id + stem;
    assert p + id + rest == front + num;
    assert front[|front| - 1] == stem[|stem| - 1];
    NumberStartUnique(front, num);
    ParseFirst(p, id, stem);
    ParseFirst(p, id, rest);
    AppendMarker(p, PatternOf(stem), [id], IdsOf(stem), num);
  }

  lemma AppendMarker(p: string, q: string, ids: seq<string>, more: seq<string>, num: string)
    ensures p + "%s" + (q + "%s") == p + "%s" + q + "%s"
    ensures ids + (more + [num]) == ids + more + [num]
  {
  }

  lemma {:induction false} ParseNumbered(s: string)
    requires Number(s) != ""
    ensures ParsesAsStemThenNumber(s)
    decreases |s|
  {
    StemAndNumber(s);
    hide PatternOf, IdsOf, Stem, Number, NumberStart;
    var p, id, rest := SplitFirst(s);
    if rest == "" {
      assert s == p + id;
      NumberStartUnique(p, "");
      assert id == "" ==> s == p + "";
      OneMatchParses(p, id);
    } else {
      EndsInNumber(s, rest);
      ParseNumbered(rest);
      LaterMatchParses(p, id, rest);
    }
  }

  /** A tail that starts with no digit has the same trailing number as the whole. */
  lemma EndsInNumber(s: string, rest: string)
    requires |rest| <= |s| && s[|s| - |rest|..] == rest
    requires rest != "" && !IsDigit(rest[0])
    requires Number(s) != ""
    ensures Number(rest) != "" && Stem(rest) != ""
  {
    StemAndNumber(s);
    assert s[|s| - 1] == rest[|rest| - 1];
    assert IsDigit(s[|s| - 1]) by { assert Number(s)[|Number(s)| - 1] == s[|s| - 1]; }
    StemAndNumber(rest);
    assert Stem(rest) == "" ==> rest == Number(rest);
  }

  // ---------- Filling a pattern ----------

  predicate NoMarker(s: string) {
    forall i | 0 <= i < |s| :: s[i] != '%'
  }

  lemma NoMarkerParts(p: string, id: string, rest: string)
    requires NoMarker(p + id + rest)
    ensures NoMarker(p) && NoMarker(id) && NoMarker(rest)
  {
    var s := p + id + rest;
    assert forall i | 0 <= i < |p| :: p[i] == s[i];
    assert forall i | 0 <= i < |id| :: id[i] == s[|p| + i];
    assert forall i | 0 <= i < |rest| :: rest[i] == s[|p| + |id| + i];
  }

  lemma {:induction false} ReplaceAfter(acc: string, tail: string, x: string)
    requires NoMarker(acc)
    ensures ReplaceFirst(acc + "%s" + tail, x) == acc + x + tail
  {
    var s := acc + "%s" + tail;
    if acc == "" {
      assert s[2..] == tail;
    } else {
      ReplaceAfter(acc[1..], tail, x);
      assert s[1..] == acc[1..] + "%s" + tail;
      assert acc + x + tail == [acc[0]] + (acc[1..] + x + tail);
    }
  }

  /** Filling a parsed name's pattern with its own ids gives the name. */
  lemma {:induction false} FillParsed(acc: string, name: string, tail: string)
    requires NoMarker(acc) && NoMarker(name)
    ensures Fill(acc + PatternOf(name) + tail, IdsOf(name)) == acc + name + tail
    decreases |name|
  {
    hide PatternOf, IdsOf;
    if name == "" {
      ParseBare("");
      assert acc + "" + tail == acc + tail;
    } else {
      var p, id, rest := SplitFirst(name);
      ParseFirst(p, id, rest);
      var done := acc + p;
      NoMarkerParts(p, id, rest);
      FillParsed(done + id, rest, tail);
      assert done + id + rest + tail == acc + name + tail;
      var more := PatternOf(rest) + tail;
      assert done + id + more == done + id + PatternOf(rest) + tail;
      if id == "" {
        assert acc + PatternOf(name) + tail == done + id + more;
        assert IdsOf(name) == IdsOf(rest);
      } else {
        assert acc + PatternOf(name) + tail == done + "%s" + more;
        ReplaceAfter(done, more, id);
        assert IdsOf(name)[1..] == IdsOf(rest);
      }
    }
  }

  /** A name without '%' is determined by its pattern and ids. */
  lemma ParseInjective(a: string, b: string)
    requires NoMarker(a) && NoMarker(b)
    requires PatternOf(a) == PatternOf(b) && IdsOf(a) == IdsOf(b)
    ensures a == b
  {
    hide PatternOf, IdsOf, Fill;
    FillParsed("", a, "");
    FillParsed("", b, "");
    assert "" + PatternOf(a) + "" == "" + PatternOf(b) + "";
    assert "" + a + "" == a && "" + b + "" == b;
  }

  lemma NameHasNoMarker(s: string)
    requires WordOnly(s)
    ensures NoMarker(s)
  {
  }

  // ---------- Maximal runs ----------

  function Last<T>(s: seq<T>): T
    requires s != []
  {
    s[|s| - 1]
  }

  function Flatten(parts: seq<seq<string>>): seq<string> {
    if parts == [] then [] else Flatten(parts[..|parts| - 1]) + Last(parts)
  }

  lemma FlattenAppend(parts: seq<seq<string>>, part: seq<string>)
    ensures Flatten(parts + [part]) == Flatten(parts) + part
  {
    assert (parts + [part])[..|parts|] == parts;
  }

  ghost predicate IsRun(run: seq<string>) {
    run != [] && forall i | 0 < i < |run| :: Follows(run[i - 1], run[i])
  }

  ghost predicate NoneEmpty(rs: seq<seq<string>>) {
    forall i | 0 <= i < |rs| :: rs[i] != []
  }

  /** The names cut wherever one does not follow the one before it. */
  function Runs(names: seq<string>): (rs: seq<seq<string>>)
    ensures NoneEmpty(rs)
    ensures rs == [] <==> names == []
  {
    if names == [] then []
    else
      var rs, name := Runs(names[..|names| - 1]), Last(names);
      if rs != [] && Follows(Last(Last(rs)), name) then rs[|rs| - 1 := Last(rs) + [name]]
      else rs + [[name]]
  }

  /** The runs cover the names in order, hold only followers, and cannot be extended. */
  ghost predicate MaximalRuns(rs: seq<seq<string>>, names: seq<string>) {
    && NoneEmpty(rs)
    && Flatten(rs) == names
    && (forall i | 0 <= i < |rs| :: IsRun(rs[i]))
    && (forall i | 0 < i < |rs| :: !Follows(Last(rs[i - 1]), rs[i][0]))
    && (rs != [] ==> names != [] && Last(Last(rs)) == Last(names))
  }

  lemma ExtendRun(run: seq<string>, name: string)
    requires IsRun(run) && Follows(Last(run), name)
    ensures IsRun(run + [name])
  {
    hide Follows;
    var r := run + [name];
    forall i | 0 < i < |r| ensures Follows(r[i - 1], r[i]) {
      if i < |run| {
        assert Follows(run[i - 1], run[i]);
      }
    }
  }

  lemma LastRunIsRun(rs: seq<seq<string>>, names: seq<string>)
    requires MaximalRuns(rs, names) && rs != []
    ensures rs[|rs| - 1] != [] && IsRun(rs[|rs| - 1]) && names != []
    ensures Last(Last(rs)) == Last(names)
  {
    hide IsRun, Follows, Flatten;
  }

  lemma ExtendLastRun(rs: seq<seq<string>>, names: seq<string>, name: string)
    requires MaximalRuns(rs, names) && rs != [] && Follows(Last(Last(rs)), name)
    ensures MaximalRuns(rs[|rs| - 1 := Last(rs) + [name]], names + [name])
  {
    hide Follows, IsRun;
    LastRunIsRun(rs, names);
    ExtendRun(Last(rs), name);
    var k := |rs| - 1;
    var r := rs[k := Last(rs) + [name]];
    assert r[..k] == rs[..k];
    assert Flatten(r) == Flatten(rs[..k]) + (Last(rs) + [name]);
    assert Flatten(rs[..k]) + Last(rs) + [name] == Flatten(r);
  }

  lemma StartRun(rs: seq<seq<string>>, names: seq<string>, name: string)
    requires MaximalRuns(rs, names) && (rs != [] ==> !Follows(Last(Last(rs)), name))
    ensures MaximalRuns(rs + [[name]], names + [name])
  {
    assert IsRun([name]);
    FlattenAppend(rs, [name]);
    hide Follows, IsRun, Flatten;
    var r := rs + [[name]];
    forall i | 0 < i < |r| ensures !Follows(Last(r[i - 1]), r[i][0]) {
      if i < |rs| {
        assert r[i] == rs[i] && r[i - 1] == rs[i - 1];
      } else {
        assert r[i - 1] == Last(rs) && r[i] == [name];
      }
    }
  }

  lemma {:induction false} RunsAreMaximal(names: seq<string>)
    ensures MaximalRuns(Runs(names), names)
  {
    hide MaximalRuns, Follows, IsRun, Flatten;
    if names != [] {
      var before, name := names[..|names| - 1], Last(names);
      RunsAreMaximal(before);
      var rs := Runs(before);
      assert names == before + [name];
      if rs != [] && Follows(Last(Last(rs)), name) {
        ExtendLastRun(rs, before, name);
      } else {
        StartRun(rs, before, name);
      }
    } else {
      NothingIsMaximal();
    }
  }

  lemma NothingIsMaximal()
    ensures MaximalRuns([], [])
  {
  }

  /** In a run the stem and width stay and the numbers count up by one; a bare name just repeats. */
  lemma {:induction false} RunShape(run: seq<string>, i: nat)
    requires IsRun(run) && i < |run|
    ensures Number(run[0]) == "" ==> run[i] == run[0]
    ensures Number(run[0]) != "" ==>
              && Stem(run[i]) == Stem(run[0])
              && Number(run[i]) != "" && |Number(run[i])| == |Number(run[0])|
              && Value(Number(run[i])) == Value(Number(run[0])) + i
  {
    if i > 0 {
      RunShape(run, i - 1);
      assert Follows(run[i - 1], run[i]);
    }
  }

  // ---------- The groups are the runs ----------

  /** The group describes exactly this run. */
  ghost predicate Summarizes(g: Group, run: seq<string>)
    requires run != []
  {
    var a := run[0];
    && g.pattern == PatternOf(a)
    && g.ids == IdsOf(a)
    && (Number(a) == "" ==> g.first == -1)
    && (Number(a) != "" ==> g.first == Value(Number(a)) && g.last == g.first + |run| - 1)
  }

  /** isNext on a numbered name compares everything but the last id, then that id's width and value. */
  lemma NextBySplit(g: Group, p: string, ids: seq<string>, d: string, q: string, more: seq<string>, e: string)
    requires g.Valid() && g.pattern == p + "%s" && g.ids == ids + [d]
    requires AllDigits(e) && forall id | id in more :: AllDigits(id)
    ensures forall id | id in more + [e] :: AllDigits(id)
    ensures g.IsNext(q + "%s", more + [e]) <==>
            p == q && ids == more && |e| == |d| && ParseInt(e) == ToDouble(g.last + 1)
  {
    hide ParseInt, ToDouble, AllDigits, Group.Valid;
    var nums := more + [e];
    assert q + "%s" == p + "%s" ==> (q + "%s")[..|q|] == (p + "%s")[..|p|];
    assert |nums| == |g.ids| ==> nums[|nums| - 1] == e && g.ids[|g.ids| - 1] == d;
    if |nums| == |g.ids| && forall i | 0 <= i < |nums| - 1 :: nums[i] == g.ids[i] {
      forall i | 0 <= i < |ids| ensures ids[i] == more[i] {
        assert nums[i] == g.ids[i];
      }
      assert ids == more;
    }
  }

  lemma NumberExact(a: string)
    requires NodeName(a) && Number(a) != ""
    ensures AllDigits(Number(a)) && ParseInt(Number(a)) == Value(Number(a))
    ensures ToDouble(Value(Number(a)) + 1) == Value(Number(a)) + 1
  {
    hide AllDigits, Value, ParseInt, ToDouble, NumberStart, WordOnly;
    BelowMaxExact(Number(a));
  }

  lemma LastIs(run: seq<string>)
    requires run != []
    ensures Last(run) == run[|run| - 1]
  {
  }

  lemma NumberedParts(a: string)
    requires Number(a) != ""
    ensures PatternOf(a) == PatternOf(Stem(a)) + "%s" && IdsOf(a) == IdsOf(Stem(a)) + [Number(a)]
  {
    ParseNumbered(a);
    hide PatternOf, IdsOf, Stem, Number;
  }

  lemma StemHasNoMarker(a: string)
    requires NodeName(a)
    ensures NoMarker(Stem(a))
  {
    hide NumberStart, NoMarker, Number, IsWordChar;
    assert WordOnly(Stem(a));
    NameHasNoMarker(Stem(a));
  }

  lemma RunNotEmpty(run: seq<string>)
    ensures IsRun(run) ==> run != []
  {
    hide Follows;
  }

  lemma SummaryNumbers(g: Group, run: seq<string>)
    requires run != [] && Summarizes(g, run) && Number(run[0]) != ""
    ensures g.pattern == PatternOf(run[0]) && g.ids == IdsOf(run[0])
    ensures g.last == Value(Number(run[0])) + |run| - 1
  {
    hide PatternOf, IdsOf, Number, Value;
  }

  lemma SuccessorIs(a: string, b: string)
    requires Number(a) != "" && Number(b) != ""
    ensures Successor(a, b) <==>
            Stem(a) == Stem(b) && |Number(a)| == |Number(b)| && Value(Number(b)) == Value(Number(a)) + 1
  {
    hide Stem, Number, Value;
  }

  lemma NextOfNumbered(g: Group, run: seq<string>, b: string)
    requires g.Valid() && IsRun(run) && Summarizes(g, run)
    requires NodeName(run[0]) && NodeName(Last(run)) && NodeName(b)
    requires Number(run[0]) != "" && Number(b) != ""
    ensures g.IsNext(PatternOf(b), IdsOf(b)) <==> Successor(Last(run), b)
  {
    hide *;
    RunNotEmpty(run);
    var a, z := run[0], Last(run);
    LastIs(run);
    RunShape(run, |run| - 1);
    SummaryNumbers(g, run);
    NumberExact(z);
    NumberExact(b);
    NumberedParts(a);
    NumberedParts(b);
    SuccessorIs(z, b);
    NextBySplit(g, PatternOf(Stem(a)), IdsOf(Stem(a)), Number(a), PatternOf(Stem(b)), IdsOf(Stem(b)), Number(b));
    if PatternOf(Stem(a)) == PatternOf(Stem(b)) && IdsOf(Stem(a)) == IdsOf(Stem(b)) {
      StemHasNoMarker(a);
      StemHasNoMarker(b);
      ParseInjective(Stem(a), Stem(b));
    }
  }

  lemma IdCounts(b: string)
    requires NodeName(b)
    ensures Number(b) == "" ==> PatternOf(b) == b && IdsOf(b) == []
    ensures Number(b) != "" ==> IdsOf(b) != [] && Last(IdsOf(b)) == Number(b)
  {
    if Number(b) == "" { ParseBare(b); } else { ParseNumbered(b); }
  }

  /** isNext, on a group's fields, decides whether the name follows the group's last name. */
  lemma IsNextIffFollows(g: Group, run: seq<string>, b: string)
    requires g.Valid() && IsRun(run) && Summarizes(g, run)
    requires NodeNames(run) && NodeName(b)
    ensures g.IsNext(PatternOf(b), IdsOf(b)) <==> Follows(Last(run), b)
  {
    var a := run[0];
    assert NodeName(a) && NodeName(Last(run));
    RunShape(run, |run| - 1);
    IdCounts(a);
    IdCounts(b);
    if Number(a) != "" && Number(b) != "" {
      NextOfNumbered(g, run, b);
    } else {
      hide PatternOf, IdsOf, Stem, Number, Value, ParseInt, ToDouble, NumberStart, IsRun, NodeName, AllDigits,
        Group.Valid;
    }
  }

  lemma NewGroupSummarizes(b: string)
    requires NodeName(b)
    ensures Summarizes(NewGroup(PatternOf(b), IdsOf(b)), [b])
  {
    if Number(b) == "" {
      ParseBare(b);
    } else {
      ParseNumbered(b);
      hide Value, ParseInt, ToDouble, PatternOf, IdsOf, Stem, Number, WordOnly;
      BelowMaxExact(Number(b));
    }
  }

  lemma {:induction false} FlattenContains(parts: seq<seq<string>>, i: nat)
    requires i < |parts|
    ensures forall x | x in parts[i] :: x in Flatten(parts)
  {
    if i < |parts| - 1 {
      FlattenContains(parts[..|parts| - 1], i);
    }
  }

  lemma RunWithin(names: seq<string>, i: nat)
    requires NodeNames(names) && i < |Runs(names)|
    ensures NodeNames(Runs(names)[i]) && IsRun(Runs(names)[i])
  {
    RunsAreMaximal(names);
    FlattenContains(Runs(names), i);
    hide IsRun, Flatten, NodeName;
  }

  ghost predicate GroupsMatch(gs: seq<Group>, rs: seq<seq<string>>) {
    && |gs| == |rs|
    && NoneEmpty(rs)
    && AllValid(gs)
    && forall i | 0 <= i < |rs| :: Summarizes(gs[i], rs[i])
  }

  lemma GrownGroup(g: Group, run: seq<string>, b: string)
    requires g.Valid() && IsRun(run) && NodeNames(run) && Summarizes(g, run)
    ensures Summarizes(g.(last := ToDouble(g.last + 1)), run + [b])
  {
    hide NodeName, NodeNames, IsRun, Follows, PatternOf, IdsOf, Stem, Number, NumberStart, Value, Group.Valid,
      AllDigits;
    RunNotEmpty(run);
    LastIs(run);
    assert (run + [b])[0] == run[0];
    if Number(run[0]) != "" {
      RunShape(run, |run| - 1);
      NamedAt(run, |run| - 1);
      NumberExact(Last(run));
    }
  }

  lemma ReplaceLastMatches(gs: seq<Group>, rs: seq<seq<string>>, g: Group, run: seq<string>)
    requires GroupsMatch(gs, rs) && rs != [] && run != []
    requires g.Valid() && Summarizes(g, run)
    ensures GroupsMatch(gs[|gs| - 1 := g], rs[|rs| - 1 := run])
  {
    hide Summarizes, Group.Valid;
  }

  lemma AppendMatches(gs: seq<Group>, rs: seq<seq<string>>, g: Group, run: seq<string>)
    requires GroupsMatch(gs, rs) && run != []
    requires g.Valid() && Summarizes(g, run)
    ensures GroupsMatch(gs + [g], rs + [run])
  {
    hide Summarizes, Group.Valid;
  }

  lemma AddNameMatches(gs: seq<Group>, rs: seq<seq<string>>, b: string)
    requires GroupsMatch(gs, rs) && NodeName(b)
    requires rs != [] ==> IsRun(Last(rs)) && NodeNames(Last(rs))
    ensures GroupsMatch(AddName(gs, b),
                        if rs != [] && Follows(Last(Last(rs)), b) then rs[|rs| - 1 := Last(rs) + [b]]
                        else rs + [[b]])
  {
    hide Follows, Summarizes, PatternOf, IdsOf, IsRun, NodeNames, NodeName, Group.IsNext, NewGroup, ToDouble;
    NewGroupSummarizes(b);
    var k := |gs| - 1;
    if rs != [] {
      assert gs[k] in gs;
      IsNextIffFollows(gs[k], rs[k], b);
    }
    if rs != [] && Follows(Last(Last(rs)), b) {
      GrownGroup(gs[k], rs[k], b);
      ReplaceLastMatches(gs, rs, gs[k].(last := ToDouble(gs[k].last + 1)), rs[k] + [b]);
    } else {
      AppendMatches(gs, rs, NewGroup(PatternOf(b), IdsOf(b)), [b]);
    }
  }

  /** The folded groups are the maximal runs, one for one. */
  lemma {:induction false} GroupsAreRuns(names: seq<string>)
    requires NodeNames(names)
    ensures GroupsMatch(FoldGroups(names), Runs(names))
  {
    if names != [] {
      var before, b := names[..|names| - 1], Last(names);
      GroupsAreRuns(before);
      if before != [] {
        RunWithin(before, |Runs(before)| - 1);
      }
      AddNameMatches(FoldGroups(before), Runs(before), b);
    }
  }

  // ---------- Rendering a run ----------

  function RangeText(stem: string, first: string, last: string): string {
    stem + "[" + first + "-" + last + "]"
  }

  lemma FillStem(a: string)
    requires NodeName(a) && Number(a) != ""
    ensures IdsOf(a) != [] && IdsOf(a)[|IdsOf(a)| - 1] == Number(a)
    ensures Fill(PatternOf(a), IdsOf(a)[..|IdsOf(a)| - 1]) == Stem(a) + "%s"
  {
    hide *;
    NumberedParts(a);
    StemHasNoMarker(a);
    EmptyHasNoMarker();
    FillParsed("", Stem(a), "%s");
    var stem, ids := Stem(a), IdsOf(Stem(a));
    assert "" + PatternOf(stem) + "%s" == PatternOf(stem) + "%s" && "" + stem + "%s" == stem + "%s";
    assert (ids + [Number(a)])[..|ids|] == ids;
  }

  lemma EmptyHasNoMarker()
    ensures NoMarker("")
  {
  }

  lemma RenderNumbered(g: Group, a: string)
    requires g.Valid() && NodeName(a) && Number(a) != ""
    requires g.pattern == PatternOf(a) && g.ids == IdsOf(a) && g.first >= 0
    ensures g.Render() ==
            if g.first == g.last then a
            else
              RangeText(Stem(a), PadStart(Show(g.first), |Number(a)|), PadStart(Show(g.last), |Number(a)|))
  {
    hide *;
    StemAndNumber(a);
    FillStem(a);
    StemHasNoMarker(a);
    RenderFilled(g, Stem(a), Number(a));
  }

  lemma RenderFilled(g: Group, stem: string, num: string)
    requires g.Valid() && g.ids != [] && g.ids[|g.ids| - 1] == num && g.first >= 0 && NoMarker(stem)
    requires Fill(g.pattern, g.ids[..|g.ids| - 1]) == stem + "%s"
    ensures g.Render() == if g.first == g.last then stem + num
                          else RangeText(stem, PadStart(Show(g.first), |num|), PadStart(Show(g.last), |num|))
  {
    hide Fill, ReplaceFirst, PadStart, Show, AllDigits, NoMarker;
    var lo, hi := PadStart(Show(g.first), |num|), PadStart(Show(g.last), |num|);
    RenderAfterStem(stem, num);
    RenderAfterStem(stem, "[" + lo + "-" + hi + "]");
    assert stem + ("[" + lo + "-" + hi + "]") == RangeText(stem, lo, hi);
  }

  lemma RenderAfterStem(stem: string, x: string)
    requires NoMarker(stem)
    ensures ReplaceFirst(stem + "%s", x) == stem + x
  {
    ReplaceAfter(stem, "", x);
    hide ReplaceFirst;
    assert stem + "%s" + "" == stem + "%s";
    assert stem + x + "" == stem + x;
  }

  // ---------- Scanning rendered text ----------

  predicate EndsItem(rest: string) {
    rest == "" || rest[0] == ','
  }

  lemma {:induction false} WordRunIs(w: string, rest: string)
    requires WordOnly(w) && (rest == "" || !IsWordChar(rest[0]))
    ensures WordRun(w + rest) == |w|
  {
    if w == "" {
      assert w + rest == rest;
    } else {
      WordRunIs(w[1..], rest);
      assert (w + rest)[1..] == w[1..] + rest;
    }
  }

  lemma TokensOfWord(w: string, rest: string)
    requires WordOnly(w) && w != "" && EndsItem(rest)
    ensures Tokens(w + rest) == [Single(w)] + Tokens(rest)
  {
    WordRunIs(w, rest);
    var s := w + rest;
    assert s[0] == w[0];
    assert s[..|w|] == w && s[|w|..] == rest;
  }

  lemma NoDigitMarks()
    ensures !IsDigit('-') && !IsDigit(']')
  {
  }

  lemma BracketIs(first: string, last: string, rest: string)
    requires AllDigits(first) && AllDigits(last) && first != "" && last != ""
    ensures BracketAt("[" + first + "-" + last + "]" + rest) == Bracket(first, last, |first| + |last| + 3)
  {
    var s := "[" + first + "-" + last + "]" + rest;
    var t2 := "]" + rest;
    var t1 := "-" + (last + t2);
    hide AllDigits, DigitRun, IsDigit;
    NoDigitMarks();
    DigitRunIs(first, t1);
    DigitRunIs(last, t2);
    BracketPieces(s, first, last, rest);
  }

  lemma BracketPieces(s: string, first: string, last: string, rest: string)
    requires s == "[" + first + "-" + last + "]" + rest
    ensures s[0] == '[' && s[1..] == first + ("-" + (last + ("]" + rest)))
    ensures s[1 + |first|..] == "-" + (last + ("]" + rest))
    ensures s[1 + |first|..][1..] == last + ("]" + rest)
    ensures s[1 + |first|..][1 + |last|..] == "]" + rest
    ensures (first + ("-" + (last + ("]" + rest))))[..|first|] == first
    ensures (last + ("]" + rest))[..|last|] == last
  {
  }

  lemma TokensOfRange(stem: string, first: string, last: string, rest: string)
    requires WordOnly(stem) && stem != ""
    requires AllDigits(first) && AllDigits(last) && first != "" && last != ""
    ensures Tokens(RangeText(stem, first, last) + rest) == [Range(stem, first, last)] + Tokens(rest)
  {
    var tail := "[" + first + "-" + last + "]" + rest;
    var s := RangeText(stem, first, last) + rest;
    assert s == stem + tail;
    WordRunIs(stem, tail);
    BracketIs(first, last, rest);
    assert s[0] == stem[0];
    assert s[..|stem|] == stem && s[|stem|..] == tail;
    assert s[|stem| + (|first| + |last| + 3)..] == rest;
  }

  /** Counting from the first to the last number of a run spells out the run. */
  lemma {:induction false} RangeSpellsRun(run: seq<string>, i: nat)
    requires IsRun(run) && i <= |run| && Number(run[0]) != ""
    ensures var v := Value(Number(run[0]));
            RangeNames(Stem(run[0]), |Number(run[0])|, v + i, v + |run| - 1) == run[i..]
    decreases |run| - i
  {
    hide IsRun, Stem, Number, NumberStart, Value, Show, PadStart, AllDigits;
    if i < |run| {
      RangeSpellsRun(run, i + 1);
      RunShape(run, i);
      PadOfValue(Number(run[i]));
      StemAndNumber(run[i]);
      assert run[i..] == [run[i]] + run[i + 1..];
    }
  }

  /** What a run comes back as: itself, unless it repeats a bare name. */
  function Restored(run: seq<string>): seq<string>
    requires run != []
  {
    if Number(run[0]) == "" then [run[0]] else run
  }

  /** The token a rendered run scans to. */
  function TokenOf(run: seq<string>): (t: Token)
    requires run != []
  {
    if Number(run[0]) == "" || |run| == 1 then Single(run[0])
    else Range(Stem(run[0]), Number(run[0]), Number(Last(run)))
  }

  /** The text a run renders to. */
  function TextOf(run: seq<string>): string
    requires run != []
  {
    if Number(run[0]) == "" || |run| == 1 then run[0]
    else RangeText(Stem(run[0]), Number(run[0]), Number(Last(run)))
  }

  lemma RenderBare(g: Group, run: seq<string>)
    requires g.Valid() && run != [] && NodeName(run[0]) && Summarizes(g, run) && Number(run[0]) == ""
    ensures g.Render() == run[0]
  {
    ParseBare(run[0]);
    hide PatternOf, IdsOf, Number, WordOnly, NoDigits;
  }

  lemma SummaryFirst(g: Group, run: seq<string>)
    requires run != [] && Summarizes(g, run) && Number(run[0]) != ""
    ensures g.first == Value(Number(run[0]))
  {
    hide PatternOf, IdsOf, Number, Value;
  }

  lemma RenderRun(g: Group, run: seq<string>)
    requires g.Valid() && IsRun(run) && NodeNames(run) && Summarizes(g, run)
    ensures g.Render() == TextOf(run)
  {
    hide IsRun, Follows, NodeNames, NodeName, Summarizes, Group.Render, Group.Valid, RangeText, PadStart, Show;
    hide PatternOf, IdsOf, Stem, Number, NumberStart, Value, AllDigits, Last;
    RunNotEmpty(run);
    LastIs(run);
    var a, z := run[0], Last(run);
    NamedAt(run, 0);
    RunShape(run, |run| - 1);
    if Number(a) == "" {
      RenderBare(g, run);
    } else {
      SummaryFirst(g, run);
      SummaryNumbers(g, run);
      RenderNumbered(g, a);
      PadOfValue(Number(a));
      PadOfValue(Number(z));
    }
  }

  lemma TokensOfText(run: seq<string>, rest: string)
    requires IsRun(run) && NodeNames(run) && EndsItem(rest)
    ensures Tokens(TextOf(run) + rest) == [TokenOf(run)] + Tokens(rest)
  {
    var a, z := run[0], Last(run);
    assert NodeName(a) && NodeName(z);
    assert WordOnly(a) && a != "";
    assert WordOnly(Stem(a));
    RunShape(run, |run| - 1);
    hide IsRun, Number, NodeName, RangeText, AllDigits, Tokens, WordOnly, Stem;
    if Number(a) == "" || |run| == 1 {
      TokensOfWord(a, rest);
    } else {
      TokensOfRange(Stem(a), Number(a), Number(z), rest);
    }
  }

  /** A rendered group, in front of any further text, scans to its run's token. */
  lemma TokensOfRun(g: Group, run: seq<string>, rest: string)
    requires g.Valid() && IsRun(run) && NodeNames(run) && Summarizes(g, run)
    requires EndsItem(rest)
    ensures Tokens(g.Render() + rest) == [TokenOf(run)] + Tokens(rest)
  {
    hide Group.Render, IsRun, NodeNames, Summarizes, TextOf, TokenOf, Tokens;
    RenderRun(g, run);
    TokensOfText(run, rest);
  }

  /** A run's token expands to the run, unless the run repeats a number-less name. */
  lemma ExpandTokenOf(run: seq<string>)
    requires IsRun(run) && NodeNames(run)
    ensures WellFormed(TokenOf(run)) && ExpandToken(TokenOf(run)) == Restored(run)
  {
    var a, z := run[0], Last(run);
    assert NodeName(a) && NodeName(z);
    RunShape(run, |run| - 1);
    hide IsRun, NodeNames, NodeName, Stem, Value, ParseInt;
    if Number(a) != "" && |run| > 1 {
      ExpandNumberedRun(run);
    } else if |run| == 1 {
      assert run == [a];
    }
  }

  lemma ExpandRange(stem: string, first: string, last: string)
    requires AllDigits(first) && AllDigits(last) && first != "" && last != ""
    requires ParseInt(first) == Value(first) && ParseInt(last) == Value(last)
    ensures ExpandToken(Range(stem, first, last)) == RangeNames(stem, |first|, Value(first), Value(last))
  {
    hide RangeNames, AllDigits, Value, ParseInt;
  }

  lemma NamedAt(names: seq<string>, i: nat)
    requires NodeNames(names) && i < |names|
    ensures NodeName(names[i])
  {
    hide NodeName;
  }

  lemma ExpandNumberedRun(run: seq<string>)
    requires IsRun(run) && NodeNames(run) && |run| > 1 && Number(run[0]) != ""
    ensures Number(Last(run)) != ""
    ensures ExpandToken(Range(Stem(run[0]), Number(run[0]), Number(Last(run)))) == run
  {
    hide *;
    var a, z := run[0], run[|run| - 1];
    NamedAt(run, 0);
    NamedAt(run, |run| - 1);
    RunShape(run, |run| - 1);
    NumberExact(a);
    NumberExact(z);
    ExpandRange(Stem(a), Number(a), Number(z));
    RangeSpellsRun(run, 0);
    LastIs(run);
    assert run[0..] == run;
  }

  lemma ExpandRun(g: Group, run: seq<string>, rest: string)
    requires g.Valid() && IsRun(run) && NodeNames(run) && Summarizes(g, run)
    requires EndsItem(rest)
    ensures Expand(g.Render() + rest) == Restored(run) + Expand(rest)
  {
    TokensOfRun(g, run, rest);
    ExpandTokenOf(run);
    hide IsRun, Restored, TokenOf, NodeNames, Tokens, Group.Render, Summarizes, ExpandToken, WellFormed;
    assert ([TokenOf(run)] + Tokens(rest))[1..] == Tokens(rest);
  }

  // ---------- The round trip ----------

  /** The runs from i on, as they come back. */
  function RestoredFrom(rs: seq<seq<string>>, i: nat): seq<string>
    requires i <= |rs| && NoneEmpty(rs)
    decreases |rs| - i
  {
    if i == |rs| then [] else Restored(rs[i]) + RestoredFrom(rs, i + 1)
  }

  ghost predicate NamedRuns(rs: seq<seq<string>>) {
    forall i | 0 <= i < |rs| :: IsRun(rs[i]) && NodeNames(rs[i])
  }

  lemma TextsFrom(texts: seq<string>, i: nat)
    requires i < |texts|
    ensures Join(texts[i..]) == texts[i] + (if i + 1 == |texts| then "" else "," + Join(texts[i + 1..]))
  {
    assert texts[i..][1..] == texts[i + 1..];
    if i + 1 == |texts| {
      assert texts[i] + "" == texts[i];
    } else {
      assert texts[i] + "," + Join(texts[i + 1..]) == texts[i] + ("," + Join(texts[i + 1..]));
    }
  }

  lemma {:induction false} ExpandJoin(gs: seq<Group>, rs: seq<seq<string>>, i: nat)
    requires GroupsMatch(gs, rs) && NamedRuns(rs) && i <= |rs|
    ensures Expand(Join(RenderAll(gs)[i..])) == RestoredFrom(rs, i)
    decreases |rs| - i
  {
    var texts := RenderAll(gs);
    if i < |rs| {
      assert gs[i] in gs;
      ExpandJoin(gs, rs, i + 1);
      TextsFrom(texts, i);
      var more := Join(texts[i + 1..]);
      var rest := if i + 1 == |rs| then "" else "," + more;
      assert rest != "" ==> rest[1..] == more;
      assert Expand(rest) == Expand(more);
      hide Expand, Join, Group.Render, IsRun, NodeNames, Summarizes, Group.Valid;
      ExpandRun(gs[i], rs[i], rest);
    }
  }

  /** The names with every immediate repeat of a number-less name dropped. */
  function Kept(names: seq<string>): seq<string> {
    if names == [] then []
    else
      var before := names[..|names| - 1];
      if before != [] && RepeatsBare(Last(before), Last(names)) then Kept(before)
      else Kept(before) + [Last(names)]
  }

  lemma {:induction false} RestoredAppend(rs: seq<seq<string>>, run: seq<string>, i: nat)
    requires NoneEmpty(rs) && run != [] && i <= |rs|
    ensures RestoredFrom(rs + [run], i) == RestoredFrom(rs, i) + Restored(run)
    decreases |rs| - i
  {
    hide Restored;
    var all := rs + [run];
    if i < |rs| {
      RestoredAppend(rs, run, i + 1);
      assert all[i] == rs[i];
      assert RestoredFrom(all, i) == Restored(rs[i]) + RestoredFrom(all, i + 1);
    } else {
      assert all[i] == run;
      assert RestoredFrom(all, i + 1) == [];
    }
  }

  lemma RestoredGrown(run: seq<string>, b: string)
    requires IsRun(run) && Follows(Last(run), b)
    ensures Restored(run + [b]) == Restored(run) + if RepeatsBare(Last(run), b) then [] else [b]
  {
    RunShape(run, |run| - 1);
    assert (run + [b])[0] == run[0];
  }

  lemma {:induction false} RestoredIsKept(names: seq<string>)
    ensures RestoredFrom(Runs(names), 0) == Kept(names)
  {
    hide MaximalRuns, IsRun, RepeatsBare, RestoredFrom, Follows;
    if names != [] {
      var before, b := names[..|names| - 1], Last(names);
      RestoredIsKept(before);
      RunsAreMaximal(before);
      var rs := Runs(before);
      if rs != [] {
        LastRunIsRun(rs, before);
        RepeatFollows(Last(before), b);
      }
      if rs != [] && Follows(Last(Last(rs)), b) {
        var front, run := rs[..|rs| - 1], Last(rs);
        assert rs == front + [run];
        assert Runs(names) == front + [run + [b]];
        RestoredStep(front, run, b);
      } else {
        RestoredAppend(rs, [b], 0);
        assert Runs(names) == rs + [[b]];
      }
    } else {
      NothingRestored();
    }
  }

  lemma RepeatFollows(a: string, b: string)
    ensures RepeatsBare(a, b) ==> Follows(a, b)
  {
  }

  lemma NothingRestored()
    ensures RestoredFrom([], 0) == []
  {
  }

  lemma RestoredStep(front: seq<seq<string>>, run: seq<string>, b: string)
    requires NoneEmpty(front) && IsRun(run) && Follows(Last(run), b)
    ensures RestoredFrom(front + [run + [b]], 0) ==
            RestoredFrom(front + [run], 0) + if RepeatsBare(Last(run), b) then [] else [b]
  {
    hide Restored, RestoredFrom;
    RestoredGrown(run, b);
    RestoredAppend(front, run, 0);
    RestoredAppend(front, run + [b], 0);
  }

  /** Expanding folded names gives them back in order, less the immediate repeats of number-less names. */
  lemma ExpandOfFold(names: seq<string>)
    requires NodeNames(names)
    ensures Expand(Fold(names)) == Kept(names)
  {
    var gs, rs := FoldGroups(names), Runs(names);
    GroupsAreRuns(names);
    RestoredIsKept(names);
    forall i | 0 <= i < |rs| ensures IsRun(rs[i]) && NodeNames(rs[i]) {
      RunWithin(names, i);
    }
    hide Expand, Join, FoldGroups, Runs, IsRun, NodeNames, GroupsMatch, RestoredFrom;
    ExpandJoin(gs, rs, 0);
    assert RenderAll(gs)[0..] == RenderAll(gs);
  }

  ghost predicate NoBareRepeat(names: seq<string>) {
    forall i | 0 < i < |names| :: !RepeatsBare(names[i - 1], names[i])
  }

  lemma {:induction false} KeptAll(names: seq<string>)
    ensures |Kept(names)| <= |names|
    ensures |Kept(names)| == |names| <==> NoBareRepeat(names)
    ensures NoBareRepeat(names) ==> Kept(names) == names
  {
    if names != [] {
      var before, b := names[..|names| - 1], Last(names);
      KeptAll(before);
      assert names == before + [b];
      hide RepeatsBare;
      if before != [] && RepeatsBare(Last(before), b) {
        assert RepeatsBare(names[|names| - 2], names[|names| - 1]);
      } else {
        forall i | 0 < i < |names| && NoBareRepeat(before) ensures !RepeatsBare(names[i - 1], names[i]) {
          if i < |before| {
            assert before[i - 1] == names[i - 1] && before[i] == names[i];
          }
        }
        if NoBareRepeat(names) {
          forall i | 0 < i < |before| ensures !RepeatsBare(before[i - 1], before[i]) {
            assert before[i - 1] == names[i - 1] && before[i] == names[i];
          }
        }
      }
    }
  }

  /** The round trip holds for exactly the lists in which no number-less name comes twice. */
  lemma RoundTrip(names: seq<string>)
    requires NodeNames(names)
    ensures var sorted := StableSort(names, LexLe);
            Expand(Fold(sorted)) == sorted <==>
            forall i, j | 0 <= i < j < |sorted| :: sorted[i] == sorted[j] ==> Number(sorted[i]) != ""
  {
    var sorted := StableSort(names, LexLe);
    LexLeIsOrder();
    StableSortOrdered(names, LexLe);
    forall name | name in sorted ensures NodeName(name) {
      assert name in multiset(sorted);
      assert name in names;
    }
    ExpandOfFold(sorted);
    KeptAll(sorted);
    hide Kept, Expand, Fold, Number;
    if NoBareRepeat(sorted) {
      forall i, j | 0 <= i < j < |sorted| && sorted[i] == sorted[j] ensures Number(sorted[i]) != "" {
        LexLeTotal(sorted[i], sorted[i + 1]);
        assert LexLe(sorted[i], sorted[i + 1]);
        assert i + 1 < j ==> LexLe(sorted[i + 1], sorted[j]);
        assert !RepeatsBare(sorted[i], sorted[i + 1]);
      }
    }
  }

  lemma TokensComma(more: string)
    ensures Tokens("," + more) == Tokens(more)
  {
    assert ("," + more)[1..] == more;
  }

  lemma TokenExact(run: seq<string>)
    requires IsRun(run) && NodeNames(run)
    ensures WellFormed(TokenOf(run)) && (TokenOf(run).Range? ==> Value(TokenOf(run).last) < MAX_EXACT)
  {
    hide IsRun, NodeNames, Number, Stem, Value, NodeShape;
    RunNotEmpty(run);
    NamedAt(run, |run| - 1);
    ExpandTokenOf(run);
  }

  ghost predicate ExactRanges(ts: seq<Token>) {
    forall t | t in ts :: WellFormed(t) && (t.Range? ==> Value(t.last) < MAX_EXACT)
  }

  lemma ExactRangesCons(t: Token, ts: seq<Token>)
    requires WellFormed(t) && (t.Range? ==> Value(t.last) < MAX_EXACT) && ExactRanges(ts)
    ensures ExactRanges([t] + ts)
  {
    hide WellFormed, Value;
  }

  lemma {:induction false} FoldedTokensExact(gs: seq<Group>, rs: seq<seq<string>>, i: nat)
    requires GroupsMatch(gs, rs) && NamedRuns(rs) && i <= |rs|
    ensures ExactRanges(Tokens(Join(RenderAll(gs)[i..])))
    decreases |rs| - i
  {
    if i < |rs| {
      hide Tokens, Join, Group.Render, IsRun, NodeNames, Summarizes, Group.Valid, ExactRanges, TokenOf;
      assert gs[i] in gs;
      FoldedTokensExact(gs, rs, i + 1);
      TextsFrom(RenderAll(gs), i);
      var more := Join(RenderAll(gs)[i + 1..]);
      var rest := if i + 1 == |rs| then "" else "," + more;
      TokensComma(more);
      NothingJoined();
      TokensOfRun(gs[i], rs[i], rest);
      TokenExact(rs[i]);
      ExactRangesCons(TokenOf(rs[i]), Tokens(rest));
    }
  }

  lemma NothingJoined()
    ensures Join([]) == ""
  {
  }

  /** Folded text only holds ranges whose counting loop ends. */
  lemma FoldedIsExpandable(names: seq<string>)
    requires NodeNames(names)
    ensures RangesEnd(Fold(names))
  {
    var gs, rs := FoldGroups(names), Runs(names);
    GroupsAreRuns(names);
    forall i | 0 <= i < |rs| ensures IsRun(rs[i]) && NodeNames(rs[i]) {
      RunWithin(names, i);
    }
    FoldedTokensExact(gs, rs, 0);
    assert RenderAll(gs)[0..] == RenderAll(gs);
    hide Tokens, Value, FoldGroups, Runs, NodeNames, IsRun, GroupsMatch;
    forall t | t in Tokens(Fold(names)) && t.Range? ensures CountsOut(ParseInt(t.first), ParseInt(t.last)) {
      ExactLast(t);
    }
  }

  lemma ExactLast(t: Token)
    requires t.Range? && WellFormed(t) && Value(t.last) < MAX_EXACT
    ensures CountsOut(ParseInt(t.first), ParseInt(t.last))
  {
    hide Value, AllDigits;
    BelowMaxExact(t.last);
  }

  const LAST_EXACT := "9007199254740992"
  const FIRST_LOST := "9007199254740993"

  lemma LargeDigits()
    ensures AllDigits(LAST_EXACT) && AllDigits(FIRST_LOST) && LAST_EXACT != "" && FIRST_LOST != ""
  {
    NeighboursCollide();
    hide AllDigits;
  }

  lemma LargeName(stem: string, d: string)
    requires stem != "" && WordOnly(stem) && NoDigits(stem) && AllDigits(d) && d != ""
    ensures PatternOf(stem + d) == stem + "%s" && IdsOf(stem + d) == [d]
  {
    NumberStartUnique(stem, d);
    NumberedParts(stem + d);
    ParseBare(stem);
    hide PatternOf, IdsOf, Stem, Number;
    assert [] + [d] == [d];
  }

  lemma LargeGroup(pattern: string)
    ensures AllDigits(LAST_EXACT) && NewGroup(pattern, [LAST_EXACT]) ==
            Group(pattern, [LAST_EXACT], MAX_EXACT, MAX_EXACT)
  {
    NeighboursCollide();
    hide Value, ToDouble, AllDigits;
  }

  lemma LargeNext(g: Group, pattern: string)
    requires g == Group(pattern, [LAST_EXACT], MAX_EXACT, MAX_EXACT) && g.Valid()
    ensures AllDigits(FIRST_LOST) && g.IsNext(pattern, [FIRST_LOST]) && ToDouble(g.last + 1) == MAX_EXACT
  {
    NeighboursCollide();
    hide Value, ToDouble, AllDigits;
  }

  lemma LargePair(g: Group, pattern: string, b: string)
    requires g == Group(pattern, [LAST_EXACT], MAX_EXACT, MAX_EXACT) && g.Valid()
    requires PatternOf(b) == pattern && IdsOf(b) == [FIRST_LOST]
    ensures AllValid([g]) && AddName([g], b) == [g]
  {
    hide Value, ToDouble, AllDigits, PatternOf, IdsOf, Group.IsNext, Group.Valid;
    LargeNext(g, pattern);
  }

  lemma FoldOne(g: Group, names: seq<string>)
    requires FoldGroups(names) == [g] && g.Valid()
    ensures Fold(names) == g.Render()
  {
    hide FoldGroups, Group.Valid, Group.Render;
  }

  /** Past 2^53 neighbouring numbers read as the same double: folding two such names loses the second. */
  lemma LargeIdsAreLost(stem: string)
    requires stem != "" && WordOnly(stem) && NoDigits(stem)
    ensures Fold([stem + LAST_EXACT, stem + FIRST_LOST]) == stem + LAST_EXACT
  {
    LargeDigits();
    hide *;
    var a, b := stem + LAST_EXACT, stem + FIRST_LOST;
    LargeName(stem, LAST_EXACT);
    LargeName(stem, FIRST_LOST);
    LargeGroup(stem + "%s");
    var g := NewGroup(PatternOf(a), IdsOf(a));
    LargePair(g, stem + "%s", b);
    FoldPair(a, b);
    FoldOne(g, [a, b]);
    NameHasNoMarker(stem);
    assert g.ids[..0] == [];
    FillNone(g.pattern);
    RenderFilled(g, stem, LAST_EXACT);
  }

  lemma FillNone(pattern: string)
    ensures Fill(pattern, []) == pattern
  {
  }

  lemma FoldPair(a: string, b: string)
    ensures FoldGroups([a, b]) == AddName([NewGroup(PatternOf(a), IdsOf(a))], b)
  {
    assert [a, b][..1] == [a];
    assert [a][..0] == [];
    assert FoldGroups([a]) == AddName([], a);
  }

  // ---------- How far the round trip reaches ----------

  const LAST_SAFE := "9007199254740991"

  lemma LimitGroup(pattern: string)
    ensures AllDigits(LAST_SAFE)
    ensures NewGroup(pattern, [LAST_SAFE]) == Group(pattern, [LAST_SAFE], MAX_EXACT - 1, MAX_EXACT - 1)
  {
    NeighboursCollide();
    hide Value, AllDigits;
  }

  lemma LimitPair(g: Group, pattern: string, b: string)
    requires g == Group(pattern, [LAST_SAFE], MAX_EXACT - 1, MAX_EXACT - 1) && g.Valid()
    requires PatternOf(b) == pattern && IdsOf(b) == [LAST_EXACT]
    ensures g.(last := MAX_EXACT).Valid() && AddName([g], b) == [g.(last := MAX_EXACT)]
  {
    NeighboursCollide();
    hide Value, ToDouble, AllDigits, PatternOf, IdsOf;
    assert ToDouble(g.last + 1) == MAX_EXACT;
    assert |LAST_SAFE| == |LAST_EXACT|;
    assert g.IsNext(pattern, [LAST_EXACT]);
  }

  lemma LimitDigits()
    ensures AllDigits(LAST_SAFE) && AllDigits(LAST_EXACT) && LAST_SAFE != "" && LAST_EXACT != ""
    ensures PadStart(Show(MAX_EXACT - 1), |LAST_SAFE|) == LAST_SAFE
    ensures PadStart(Show(MAX_EXACT), |LAST_SAFE|) == LAST_EXACT
    ensures ParseInt(LAST_SAFE) == MAX_EXACT - 1 && ParseInt(LAST_EXACT) == MAX_EXACT
  {
    NeighboursCollide();
    assert |LAST_SAFE| == |LAST_EXACT| && |LAST_SAFE| > 0;
    hide Value, ToDouble, AllDigits, PadStart, Show;
    PadOfValue(LAST_SAFE);
    PadOfValue(LAST_EXACT);
  }

  lemma LimitFold(stem: string)
    requires stem != "" && WordOnly(stem) && NoDigits(stem)
    ensures Fold([stem + LAST_SAFE, stem + LAST_EXACT]) == RangeText(stem, LAST_SAFE, LAST_EXACT)
  {
    hide *;
    var a, b := stem + LAST_SAFE, stem + LAST_EXACT;
    LimitDigits();
    LargeName(stem, LAST_SAFE);
    LargeName(stem, LAST_EXACT);
    LimitGroup(stem + "%s");
    var g := NewGroup(PatternOf(a), IdsOf(a));
    LimitPair(g, stem + "%s", b);
    FoldPair(a, b);
    var grown := g.(last := MAX_EXACT);
    FoldOne(grown, [a, b]);
    NameHasNoMarker(stem);
    assert grown.ids[..0] == [];
    FillNone(grown.pattern);
    LimitIsNotFirst(grown);
    RenderFilled(grown, stem, LAST_SAFE);
  }

  lemma LimitIsNotFirst(g: Group)
    requires g.first == MAX_EXACT - 1 && g.last == MAX_EXACT
    ensures g.first != g.last && g.first >= 0
  {
  }

  lemma LimitRangeNeverEnds(stem: string)
    requires stem != "" && WordOnly(stem) && NoDigits(stem)
    ensures !RangesEnd(RangeText(stem, LAST_SAFE, LAST_EXACT))
  {
    LimitDigits();
    var text := RangeText(stem, LAST_SAFE, LAST_EXACT);
    hide Tokens, RangeText, AllDigits, ParseInt, WordOnly, NoDigits;
    TokensOfRange(stem, LAST_SAFE, LAST_EXACT, "");
    assert text + "" == text;
    assert Range(stem, LAST_SAFE, LAST_EXACT) in Tokens(text);
    assert !CountsOut(MAX_EXACT - 1, MAX_EXACT);
  }

  lemma {:induction false} LexLePrefix(p: string, x: string, y: string)
    requires LexLe(x, y)
    ensures LexLe(p + x, p + y)
  {
    if p == "" {
      assert p + x == x && p + y == y;
    } else {
      LexLePrefix(p[1..], x, y);
      assert (p + x)[1..] == p[1..] + x && (p + y)[1..] == p[1..] + y;
    }
  }

  lemma LimitSorted(stem: string)
    ensures StableSort([stem + LAST_SAFE, stem + LAST_EXACT], LexLe) == [stem + LAST_SAFE, stem + LAST_EXACT]
  {
    var p := stem + "900719925474099";
    LexLePrefix(p, "1", "2");
    assert p + "1" == stem + LAST_SAFE && p + "2" == stem + LAST_EXACT;
    hide LexLe;
    SortedPair(stem + LAST_SAFE, stem + LAST_EXACT);
  }

  lemma SortedPair(a: string, b: string)
    requires LexLe(a, b)
    ensures StableSort([a, b], LexLe) == [a, b]
  {
    hide LexLe;
    assert [a, b][1..] == [b] && [b][1..] == [];
    assert StableSort([b], LexLe) == [b];
  }

  lemma LimitNames(stem: string)
    requires stem != "" && WordOnly(stem) && NoDigits(stem)
    ensures NamesBelow([stem + LAST_SAFE, stem + LAST_EXACT], MAX_EXACT + 1)
    ensures Number(stem + LAST_SAFE) != "" && Number(stem + LAST_EXACT) != ""
  {
    LimitShape(stem, LAST_SAFE);
    LimitShape(stem, LAST_EXACT);
    NeighboursCollide();
    hide NodeShape, Number, Value, AllDigits;
  }

  lemma LimitShape(stem: string, d: string)
    requires stem != "" && WordOnly(stem) && NoDigits(stem) && (d == LAST_SAFE || d == LAST_EXACT)
    ensures NodeShape(stem + d) && Number(stem + d) == d
  {
    LimitDigits();
    hide ParseInt, PadStart, Show;
    NumberStartUnique(stem, d);
  }

  /** Node names whose trailing numbers are below a bound. */
  ghost predicate NamesBelow(names: seq<string>, bound: nat) {
    forall i | 0 <= i < |names| :: NodeShape(names[i]) && Value(Number(names[i])) < bound
  }

  ghost predicate BareOnce(names: seq<string>) {
    forall i, j | 0 <= i < j < |names| :: names[i] == names[j] ==> Number(names[i]) != ""
  }

  /** Expanding the folded names ends and gives the sorted names. */
  ghost predicate ComesBack(names: seq<string>) {
    var sorted := StableSort(names, LexLe);
    RangesEnd(Fold(sorted)) && Expand(Fold(sorted)) == sorted
  }

  lemma NamesReturn(names: seq<string>)
    requires NamesBelow(names, MAX_EXACT) && BareOnce(StableSort(names, LexLe))
    ensures ComesBack(names)
  {
    hide NodeShape, Number, Value, StableSort, LexLe, Expand, Fold, RangesEnd;
    forall name | name in names ensures NodeName(name) {
      var i :| 0 <= i < |names| && names[i] == name;
    }
    var sorted := StableSort(names, LexLe);
    forall name | name in sorted ensures NodeName(name) {
      assert name in multiset(sorted);
      assert name in names;
    }
    RoundTrip(names);
    FoldedIsExpandable(sorted);
  }

  lemma LimitDoesNotReturn()
    ensures var names := ["n" + LAST_SAFE, "n" + LAST_EXACT];
            NamesBelow(names, MAX_EXACT + 1) && BareOnce(StableSort(names, LexLe)) && !ComesBack(names)
  {
    assert WordOnly("n") && NoDigits("n");
    LimitNames("n");
    LimitSorted("n");
    LimitFold("n");
    LimitRangeNeverEnds("n");
    hide Number, StableSort, LexLe, Expand, Fold, RangesEnd, NodeShape, Value, RangeText;
  }

  /** 2^53 is the exact reach of the round trip: below a bound every list without a repeated number-less name
      comes back if and only if the bound is at most 2^53. */
  lemma RoundTripReach(bound: nat)
    ensures (forall names | NamesBelow(names, bound) && BareOnce(StableSort(names, LexLe)) :: ComesBack(names))
            <==> bound <= MAX_EXACT
  {
    if bound <= MAX_EXACT {
      forall names | NamesBelow(names, bound) && BareOnce(StableSort(names, LexLe)) ensures ComesBack(names) {
        hide NodeShape, Number, Value, StableSort, LexLe, ComesBack, BareOnce;
        NamesReturn(names);
      }
    } else {
      hide NodeShape, Number, Value, StableSort, LexLe, ComesBack, BareOnce;
      LimitDoesNotReturn();
      var names := ["n" + LAST_SAFE, "n" + LAST_EXACT];
      assert NamesBelow(names, bound);
    }
  }
}
