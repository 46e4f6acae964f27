/** The nodeset code in its own form: groups as objects that grow in place, and the two loops. */
module NodesetObjects {
  import opened Decimal
  import opened DoubleCounting
  import opened Sorting
  import opened Nodeset

  ghost predicate Digits(ids: seq<string>) {
    forall id | id in ids :: id != "" && AllDigits(id)
  }

  class ConsecutiveNodes {
    var pattern: string
    var ids: seq<string>
    var firstNodeId: int
    var lastNodeId: int

    /** The group this object stands for. */
    function Value(): Group
      reads this
    {
      Group(pattern, ids, firstNodeId, lastNodeId)
    }

    constructor (pattern: string, ids: seq<string>)
      requires Digits(ids)
      ensures Value() == NewGroup(pattern, ids)
    {
      this.pattern := pattern;
      this.ids := ids;
      var id := if |ids| > 0 then ParseInt(ids[|ids| - 1]) else -1;
      firstNodeId := id;
      lastNodeId := id;
    }

    method IsNext(p: string, nums: seq<string>) returns (b: bool)
      requires Value().Valid() && Digits(nums)
      ensures b == Value().IsNext(p, nums)
    {
      if p != pattern { return false; }
      if |nums| != |ids| { return false; }
      for i := 0 to |nums|
        invariant forall j | 0 <= j < i && j < |nums| - 1 :: nums[j] == ids[j]
        invariant i == |nums| > 0 ==>
            |nums[i - 1]| == |ids[i - 1]| && ParseInt(nums[i - 1]) == ToDouble(lastNodeId + 1)
      {
        if i < |nums| - 1 {
          if nums[i] != ids[i] { return false; }
        } else {
          if |nums[i]| != |ids[i]| { return false; }
          if ParseInt(nums[i]) != ToDouble(lastNodeId + 1) { return false; }
        }
      }
      return true;
    }

    method AddOne()
      requires Value().Valid()
      modifies this`lastNodeId
      ensures Value() == old(Value()).(last := ToDouble(old(lastNodeId) + 1))
      ensures Value().Valid()
    {
      lastNodeId := ToDouble(lastNodeId + 1);
    }

    method Render() returns (result: string)
      requires Value().Valid()
      ensures result == Value().Render()
    {
      result := pattern;
      if firstNodeId == -1 { return; }
      var n := |ids| - 1;
      for i := 0 to |ids|
        invariant i <= n ==> Fill(result, ids[i..n]) == Fill(pattern, ids[..n])
        invariant i == |ids| ==> result == Fill(pattern, ids[..n])
      {
        if i < n {
          assert ids[i..n][0] == ids[i] && ids[i..n][1..] == ids[i + 1..n];
          result := ReplaceFirst(result, ids[i]);
        }
      }
      if firstNodeId == lastNodeId {
        result := ReplaceFirst(result, ids[n]);
      } else {
        var range := "[" + PadStart(Show(firstNodeId), |ids[n]|) + "-" + PadStart(Show(lastNodeId), |ids[n]|) + "]";
        result := ReplaceFirst(result, range);
      }
    }
  }

  /** Array.prototype.sort on strings. */
  method SortInPlace(a: array<string>)
    modifies a
    ensures a[..] == StableSort(old(a[..]), LexLe)
  {
    var sorted := StableSort(a[..], LexLe);
    forall i | 0 <= i < a.Length {
      a[i] := sorted[i];
    }
  }

  lemma MatchAt(ms: seq<Match>, i: nat, pattern: string, ids: seq<string>)
    requires i < |ms| && forall m | m in ms :: AllDigits(m.id)
    ensures forall m | m in ms[i..] :: AllDigits(m.id)
    ensures forall m | m in ms[i + 1..] :: AllDigits(m.id)
    ensures pattern + Pattern(ms[i..]) ==
            pattern + ms[i].prefix + (if ms[i].id != "" then "%s" else "") + Pattern(ms[i + 1..])
    ensures ids + Ids(ms[i..]) == ids + (if ms[i].id != "" then [ms[i].id] else []) + Ids(ms[i + 1..])
  {
    assert ms[i..][0] == ms[i] && ms[i..][1..] == ms[i + 1..];
    hide AllDigits;
    var mark := if ms[i].id != "" then "%s" else "";
    assert pattern + (ms[i].prefix + mark + Pattern(ms[i + 1..])) ==
           pattern + ms[i].prefix + mark + Pattern(ms[i + 1..]);
  }

  /** The pattern and ids of one name, accumulated match by match. */
  method ParseName(name: string) returns (pattern: string, ids: seq<string>)
    ensures pattern == PatternOf(name) && ids == IdsOf(name)
  {
    hide AllDigits, Matches, Pattern, Ids;
    var all := Matches(name);
    pattern, ids := "", [];
    assert all[0..] == all;
    for i := 0 to |all|
      invariant forall m | m in all[i..] :: AllDigits(m.id)
      invariant pattern + Pattern(all[i..]) == Pattern(all)
      invariant ids + Ids(all[i..]) == Ids(all)
    {
      MatchAt(all, i, pattern, ids);
      var m := all[i];
      if |m.prefix| > 0 {
        pattern := pattern + m.prefix;
      }
      if |m.id| > 0 {
        pattern := pattern + "%s";
        ids := ids + [m.id];
      }
    }
    NothingLeft(all);
  }

  lemma NothingLeft(all: seq<Match>)
    ensures Pattern(all[|all|..]) == "" && Ids(all[|all|..]) == []
  {
  }

  ghost predicate Distinct(all: seq<ConsecutiveNodes>) {
    forall i, j | 0 <= i < j < |all| :: all[i] != all[j]
  }

  /** The objects stand for these groups. */
  ghost predicate Represents(all: seq<ConsecutiveNodes>, gs: seq<Group>)
    reads all
  {
    |all| == |gs| && Distinct(all) && forall i | 0 <= i < |all| :: all[i].Value() == gs[i]
  }

  /** One round of the loop: grow the current group or open a new one. */
  method FoldOne(all: seq<ConsecutiveNodes>, current: ConsecutiveNodes?, name: string, ghost gs: seq<Group>)
    returns (all': seq<ConsecutiveNodes>, current': ConsecutiveNodes)
    requires AllValid(gs) && Represents(all, gs)
    requires if all == [] then current == null else current == all[|all| - 1]
    modifies all
    ensures all' != [] && current' == all'[|all'| - 1]
    ensures all' == all || (all' == all + [current'] && fresh(current'))
    ensures Represents(all', AddName(gs, name))
  {
    hide Group.IsNext, NewGroup, PatternOf, IdsOf;
    var pattern, ids := ParseName(name);
    var continues := false;
    if current != null {
      assert current.Value() == gs[|gs| - 1] && gs[|gs| - 1] in gs;
      continues := current.IsNext(pattern, ids);
    }
    if continues {
      current.AddOne();
      all', current' := all, current;
    } else {
      current' := new ConsecutiveNodes(pattern, ids);
      all' := all + [current'];
    }
  }

  lemma FoldGroupsNone()
    ensures FoldGroups([]) == []
  {
  }

  lemma FoldGroupsNext(names: seq<string>, k: nat)
    requires k < |names|
    ensures FoldGroups(names[..k + 1]) == AddName(FoldGroups(names[..k]), names[k])
  {
    assert names[..k + 1][..k] == names[..k];
  }

  method FoldNodeset(nodeNames: array<string>) returns (r: string)
    modifies nodeNames
    ensures nodeNames[..] == StableSort(old(nodeNames[..]), LexLe)
    ensures r == Fold(StableSort(old(nodeNames[..]), LexLe))
  {
    hide FoldGroups, AddName, StableSort, LexLe;
    SortInPlace(nodeNames);
    FoldGroupsNone();
    ghost var names := nodeNames[..];
    var current: ConsecutiveNodes? := null;
    var all: seq<ConsecutiveNodes> := [];
    for k := 0 to nodeNames.Length
      invariant nodeNames[..] == names
      invariant fresh(all)
      invariant Represents(all, FoldGroups(names[..k]))
      invariant if all == [] then current == null else current == all[|all| - 1]
    {
      FoldGroupsNext(names, k);
      all, current := FoldOne(all, current, nodeNames[k], FoldGroups(names[..k]));
    }
    assert names[..nodeNames.Length] == names;
    r := RenderJoined(all, FoldGroups(names));
  }

  /** map(render).join() */
  method RenderJoined(all: seq<ConsecutiveNodes>, ghost gs: seq<Group>) returns (r: string)
    requires AllValid(gs) && Represents(all, gs)
    ensures r == Join(RenderAll(gs))
  {
    var texts: seq<string> := [];
    for i := 0 to |all|
      invariant |texts| == i
      invariant forall j | 0 <= j < i :: texts[j] == RenderAll(gs)[j]
    {
      assert gs[i] in gs;
      var text := all[i].Render();
      texts := texts + [text];
    }
    assert texts == RenderAll(gs);
    r := Join(texts);
  }

  /** The counting loop of one bracketed range, required to end. */
  method ExpandRange(word: string, low: string, high: string, before: seq<string>) returns (result: seq<string>)
    requires AllDigits(low) && AllDigits(high) && CountsOut(ParseInt(low), ParseInt(high))
    ensures result == before + RangeNames(word, |low|, ParseInt(low), ParseInt(high))
  {
    hide PadStart, Show;
    result := before;
    var digits := |low|;
    var first := ParseInt(low);
    var last: int := ParseInt(high);
    var index := first;
    RoundedIsDouble(Value(low));
    RoundedIsDouble(Value(high));
    while index <= last
      invariant result + RangeNames(word, digits, index, last) == before + RangeNames(word, digits, first, last)
      invariant index <= last && last >= MAX_EXACT ==> index == first == last
      decreases last - index
    {
      result := result + [word + PadStart(Show(index), digits)];
      NextIndex(index, last);
      index := ToDouble(index + 1);
    }
  }

  lemma NextIndex(index: nat, last: nat)
    requires CountsOut(index, last) && index <= last && IsDouble(last)
    ensures ToDouble(index + 1) > index
    ensures last < MAX_EXACT ==> ToDouble(index + 1) == index + 1
    ensures last >= MAX_EXACT ==> ToDouble(index + 1) > last
  {
    if last < MAX_EXACT {
      ExactUpToMax(index + 1);
    } else {
      OneStep(last);
    }
  }

  lemma TokenAt(ts: seq<Token>, i: nat, before: seq<string>)
    requires i < |ts| && forall t | t in ts :: WellFormed(t)
    ensures WellFormed(ts[i])
    ensures forall t | t in ts[i..] :: WellFormed(t)
    ensures forall t | t in ts[i + 1..] :: WellFormed(t)
    ensures before + ExpandTokens(ts[i..]) == before + ExpandToken(ts[i]) + ExpandTokens(ts[i + 1..])
  {
    assert ts[i] in ts;
    assert ts[i..][0] == ts[i] && ts[i..][1..] == ts[i + 1..];
  }

  method ExpandNodeset(nodeset: string) returns (result: seq<string>)
    requires RangesEnd(nodeset)
    ensures result == Expand(nodeset)
  {
    hide Tokens, ParseInt, RangeNames, ExpandTokens;
    var all := Tokens(nodeset);
    result := [];
    assert all[0..] == all;
    for i := 0 to |all|
      invariant forall t | t in all[i..] :: WellFormed(t)
      invariant result + ExpandTokens(all[i..]) == ExpandTokens(all)
    {
      TokenAt(all, i, result);
      assert all[i] in all;
      match all[i]
      case Single(word) =>
        result := result + [word];
      case Range(word, low, high) =>
        result := ExpandRange(word, low, high, result);
    }
    NoTokensLeft(all);
  }

  lemma NoTokensLeft(all: seq<Token>)
    ensures ExpandTokens(all[|all|..]) == []
  {
  }
}
