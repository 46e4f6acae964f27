/** Folding sorted node names into `stem[first-last]` ranges, and expanding them back. */
module Nodeset {
  import opened Decimal
  import opened DoubleCounting
  import opened Sorting

  // ---------- The two regular expressions ----------

  /** One match of /(\D*)(\d*)/. */
  datatype Match = Match(prefix: string, id: string)

  function NonDigitRun(s: string): (n: nat)
    ensures n <= |s| && NoDigits(s[..n])
    ensures n < |s| ==> IsDigit(s[n])
  {
    if s == "" || IsDigit(s[0]) then 0 else 1 + NonDigitRun(s[1..])
  }

  function DigitRun(s: string): (n: nat)
    ensures n <= |s| && AllDigits(s[..n])
    ensures n < |s| ==> !IsDigit(s[n])
  {
    if s == "" || !IsDigit(s[0]) then 0 else 1 + DigitRun(s[1..])
  }

  /** The matches of the name expression, without the final empty one. */
  function Matches(name: string): (ms: seq<Match>)
    ensures forall m | m in ms :: AllDigits(m.id)
    decreases |name|
  {
    if name == "" then []
    else
      var p := NonDigitRun(name);
      var d := DigitRun(name[p..]);
      [Match(name[..p], name[p..][..d])] + Matches(name[p + d..])
  }

  function Pattern(ms: seq<Match>): string
  {
    if ms == [] then ""
    else ms[0].prefix + (if ms[0].id != "" then "%s" else "") + Pattern(ms[1..])
  }

  function Ids(ms: seq<Match>): (ids: seq<string>)
    requires forall m | m in ms :: AllDigits(m.id)
    ensures forall id | id in ids :: id != "" && AllDigits(id)
  {
    if ms == [] then []
    else (if ms[0].id != "" then [ms[0].id] else []) + Ids(ms[1..])
  }

  /** The pattern of a name: its digit runs replaced by %s. */
  function PatternOf(name: string): string {
    Pattern(Matches(name))
  }

  /** The digit runs of a name. */
  function IdsOf(name: string): (ids: seq<string>)
    ensures forall id | id in ids :: id != "" && AllDigits(id)
  {
    Ids(Matches(name))
  }

  predicate IsWordChar(c: char) {
    'A' <= c <= 'Z' || 'a' <= c <= 'z' || IsDigit(c) || c == '_' || c == '-'
  }

  /** The characters a bare name in a node set may have: ASCII letters and digits, underscore and hyphen. */
  lemma WordCharIs(c: char)
    ensures var x := c as int;
            IsWordChar(c) <==> 65 <= x <= 90 || 97 <= x <= 122 || 48 <= x <= 57 || x == 95 || x == 45
  {
  }

  function WordRun(s: string): (n: nat)
    ensures n <= |s| && forall i | 0 <= i < n :: IsWordChar(s[i])
    ensures n < |s| ==> !IsWordChar(s[n])
  {
    if s == "" || !IsWordChar(s[0]) then 0 else 1 + WordRun(s[1..])
  }

  /** One match of /([A-Za-z0-9_-]+)(?:([0-9]+)|\[([0-9]+)-([0-9]+)\])?/. Group 2 is absent: group 1
      is greedy, covers digits, and the optional tail never forces it to give any back. */
  datatype Token = Single(word: string) | Range(word: string, first: string, last: string)

  /** The bracketed range at the front of s, and its length. */
  datatype Bracket = NoBracket | Bracket(first: string, last: string, length: nat)

  function BracketAt(s: string): (b: Bracket)
    ensures b.Bracket? ==> b.length <= |s| && b.first != "" && b.last != ""
    ensures b.Bracket? ==> AllDigits(b.first) && AllDigits(b.last)
  {
    if s == "" || s[0] != '[' then NoBracket
    else
      var n := DigitRun(s[1..]);
      var s1 := s[1 + n..];
      if n == 0 || s1 == "" || s1[0] != '-' then NoBracket
      else
        var m := DigitRun(s1[1..]);
        var s2 := s1[1 + m..];
        if m == 0 || s2 == "" || s2[0] != ']' then NoBracket
        else Bracket(s[1..][..n], s1[1..][..m], n + m + 3)
  }

  predicate WellFormed(t: Token) {
    t.Range? ==> t.first != "" && t.last != "" && AllDigits(t.first) && AllDigits(t.last)
  }

  function Tokens(s: string): (ts: seq<Token>)
    ensures forall t | t in ts :: WellFormed(t)
    decreases |s|
  {
    if s == "" then []
    else if !IsWordChar(s[0]) then Tokens(s[1..])
    else
      var n := WordRun(s);
      var b := BracketAt(s[n..]);
      if b.NoBracket? then [Single(s[..n])] + Tokens(s[n..])
      else [Range(s[..n], b.first, b.last)] + Tokens(s[n + b.length..])
  }

  // ---------- Groups of consecutive nodes ----------

  /** The value of a ConsecutiveNodes object; first is -1 when the name holds no number. */
  datatype Group = Group(pattern: string, ids: seq<string>, first: int, last: int) {
    ghost predicate Valid() {
      && (forall id | id in ids :: id != "" && AllDigits(id))
      && (first >= 0 <==> ids != []) && first >= -1
      && (first >= 0 ==> last >= 0) && last >= -1
    }

    /** Whether a name with this pattern and these ids continues the group. */
    predicate IsNext(p: string, nums: seq<string>)
      requires Valid() && forall id | id in nums :: AllDigits(id)
    {
      && p == pattern
      && |nums| == |ids|
      && (forall i | 0 <= i < |nums| - 1 :: nums[i] == ids[i])
      && (nums != [] ==>
            && |nums[|nums| - 1]| == |ids[|ids| - 1]|
            && ParseInt(nums[|nums| - 1]) == ToDouble(last + 1))
    }

    function Render(): string
      requires Valid()
    {
      if first == -1 then pattern
      else
        var n := |ids| - 1;
        var filled := Fill(pattern, ids[..n]);
        var width := |ids[n]|;
        if first == last then ReplaceFirst(filled, ids[n])
        else ReplaceFirst(filled,
                          "[" + PadStart(Show(first), width) + "-" + PadStart(Show(last), width) + "]")
    }
  }

  /** JavaScript's s.replace('%s', x): the first occurrence only. */
  function ReplaceFirst(s: string, x: string): string {
    if |s| < 2 then s
    else if s[0] == '%' && s[1] == 's' then x + s[2..]
    else [s[0]] + ReplaceFirst(s[1..], x)
  }

  function Fill(pattern: string, ids: seq<string>): string
    decreases |ids|
  {
    if ids == [] then pattern else Fill(ReplaceFirst(pattern, ids[0]), ids[1..])
  }

  function NewGroup(pattern: string, ids: seq<string>): (g: Group)
    requires forall id | id in ids :: id != "" && AllDigits(id)
    ensures g.Valid()
  {
    var id := if ids != [] then ParseInt(ids[|ids| - 1]) else -1;
    Group(pattern, ids, id, id)
  }

  ghost predicate AllValid(gs: seq<Group>) {
    forall g | g in gs :: g.Valid()
  }

  /** One round of the loop over the names. */
  function AddName(gs: seq<Group>, name: string): (r: seq<Group>)
    requires AllValid(gs)
    ensures AllValid(r) && r != []
  {
    var p, nums := PatternOf(name), IdsOf(name);
    var k := |gs| - 1;
    if gs != [] && gs[k].IsNext(p, nums) then
      gs[k := gs[k].(last := ToDouble(gs[k].last + 1))]
    else gs + [NewGroup(p, nums)]
  }

  function FoldGroups(names: seq<string>): (gs: seq<Group>)
    ensures AllValid(gs)
    ensures gs == [] <==> names == []
  {
    if names == [] then [] else AddName(FoldGroups(names[..|names| - 1]), names[|names| - 1])
  }

  function RenderAll(gs: seq<Group>): (r: seq<string>)
    requires AllValid(gs)
    ensures |r| == |gs|
  {
    seq(|gs|, i requires 0 <= i < |gs| => assert gs[i] in gs; gs[i].Render())
  }

  function Join(parts: seq<string>): string {
    if parts == [] then "" else if |parts| == 1 then parts[0] else parts[0] + "," + Join(parts[1..])
  }

  function Fold(names: seq<string>): string {
    Join(RenderAll(FoldGroups(names)))
  }

  // ---------- Expansion ----------

  function RangeNames(word: string, width: nat, first: nat, last: int): seq<string>
    decreases last - first + 1
  {
    if first > last then [] else [word + PadStart(Show(first), width)] + RangeNames(word, width, first + 1, last)
  }

  function ExpandToken(t: Token): seq<string>
    requires WellFormed(t)
  {
    match t
    case Single(word) => [word]
    case Range(word, first, last) => RangeNames(word, |first|, ParseInt(first), ParseInt(last))
  }

  function ExpandTokens(ts: seq<Token>): seq<string>
    requires forall t | t in ts :: WellFormed(t)
  {
    if ts == [] then [] else ExpandToken(ts[0]) + ExpandTokens(ts[1..])
  }

  /** Every bracketed range is counted out: the counting loop of its expansion ends. */
  ghost predicate RangesEnd(nodeset: string) {
    forall t | t in Tokens(nodeset) :: t.Range? ==> CountsOut(ParseInt(t.first), ParseInt(t.last))
  }

  function Expand(nodeset: string): seq<string> {
    ExpandTokens(Tokens(nodeset))
  }
}
