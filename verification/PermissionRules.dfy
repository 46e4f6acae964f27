/** Permission rules `resource:operation:scope`: parsing, matching, and the order they form. */
module PermissionRules {
  import opened Common
  import opened Sorting
  import opened Text

  datatype Rule = Rule(resource: string, operation: string, scope: string)

  const OPERATIONS: set<string> := {"view", "edit", "delete", "*"}
  const SCOPES: set<string> := {"*", "self"}

  // ---------- Parsing ----------

  function Alias(resource: string): string {
    if resource == "admin/ldap-cache" then "admin/ldap-users" else resource
  }

  /** normalize_permission_rule, as the parsed rule; None stands for the ValueError. */
  function Parse(s: string): (r: Option<Rule>) {
    var parts := Split(Strip(s), ':');
    if |parts| != 3 || parts[0] == "" || parts[1] !in OPERATIONS || parts[2] !in SCOPES then None
    else Some(Rule(Alias(parts[0]), parts[1], parts[2]))
  }

  function Show(r: Rule): string {
    r.resource + ":" + r.operation + ":" + r.scope
  }

  /** A rule as parsing produces it. */
  predicate Normal(r: Rule) {
    && r.resource != "" && ':' !in r.resource && !IsSpace(r.resource[0])
    && r.resource != "admin/ldap-cache"
    && r.operation in OPERATIONS && r.scope in SCOPES
  }

  /** What parsing accepts, it has normalized. */
  lemma ParsedIsNormal(s: string)
    ensures Parse(s).Some? ==> Normal(Parse(s).value)
  {
    StripStart(s);
    SplitFirst(Strip(s), ':');
    assert forall p | p in Split(Strip(s), ':') :: ':' !in p;
  }

  lemma SplitThree(a: string, b: string, c: string, sep: char)
    requires sep !in a && sep !in b && sep !in c
    ensures Split(a + [sep] + (b + [sep] + c), sep) == [a, b, c]
  {
    hide Split;
    SplitAt(a, b + [sep] + c, sep);
    SplitAt(b, c, sep);
    SplitNone(c, sep);
    assert [a] + ([b] + [c]) == [a, b, c];
  }

  lemma ShowParts(r: Rule)
    ensures Show(r) == r.resource + [':'] + (r.operation + [':'] + r.scope)
  {
  }

  lemma SplitShow(r: Rule)
    requires Normal(r)
    ensures Split(Show(r), ':') == [r.resource, r.operation, r.scope]
  {
    assert ':' !in r.resource && ':' !in r.operation && ':' !in r.scope;
    hide Split, Show, Normal;
    ShowParts(r);
    SplitThree(r.resource, r.operation, r.scope, ':');
  }

  lemma StripShow(r: Rule)
    requires Normal(r)
    ensures Strip(Show(r)) == Show(r)
  {
    hide Strip;
    var s := Show(r);
    assert r.scope != "" && !IsSpace(r.scope[|r.scope| - 1]);
    assert s[0] == r.resource[0];
    assert s[|s| - 1] == r.scope[|r.scope| - 1];
    StripKeeps(s);
  }

  /** Printing a normal rule and parsing it again gives it back: normalizing is idempotent. */
  lemma ParseShow(r: Rule)
    requires Normal(r)
    ensures Parse(Show(r)) == Some(r)
  {
    SplitShow(r);
    StripShow(r);
    hide Split, Strip, Show, IsSpace;
  }

  /** Which text is a rule: three parts, the first not empty, with a known operation and scope; one alias is
      resolved. */
  lemma ParseIs(s: string, a: string, b: string, c: string)
    requires ':' !in a && ':' !in b && ':' !in c && Strip(s) == a + [':'] + (b + [':'] + c)
    ensures Parse(s) ==
            if a != "" && b in {"view", "edit", "delete", "*"} && c in {"*", "self"}
            then Some(Rule(if a == "admin/ldap-cache" then "admin/ldap-users" else a, b, c))
            else None
  {
    SplitThree(a, b, c, ':');
    hide Split, Strip;
  }

  /** Only such text is: whatever is accepted has three parts. */
  lemma ParsedHasThreeParts(s: string)
    ensures Parse(s).Some? ==> exists a, b, c ::
              ':' !in a && ':' !in b && ':' !in c && Strip(s) == a + [':'] + (b + [':'] + c)
  {
    if Parse(s).Some? {
      var parts := Split(Strip(s), ':');
      SplitJoined(Strip(s), ':');
      assert parts == [parts[0]] + ([parts[1]] + [parts[2]]);
      hide Split, Strip;
      assert parts[0] in parts && parts[1] in parts && parts[2] in parts;
      JoinThree(parts[0], parts[1], parts[2]);
    }
  }

  lemma JoinThree(a: string, b: string, c: string)
    ensures Join([a, b, c], ':') == a + [':'] + (b + [':'] + c)
  {
    assert [a, b, c][1..] == [b, c] && [b, c][1..] == [c];
    assert Join([b, c], ':') == b + [':'] + c;
    assert a + [':'] + (b + [':'] + c) == Join([a, b, c], ':');
  }

  // ---------- Matching ----------

  predicate EndsWithStar(granted: string) {
    |granted| >= 2 && granted[|granted| - 2..] == "/*"
  }

  /** _resource_matches */
  predicate ResourceMatches(granted: string, requested: string) {
    || granted == "*"
    || granted == requested
    || (EndsWithStar(granted) && granted[..|granted| - 1] <= requested)
  }

  predicate OperationMatches(granted: string, requested: string) {
    if granted == "*" then true
    else if requested == "view" then granted in {"view", "edit", "delete"}
    else granted == requested
  }

  predicate ScopeMatches(granted: string, requested: string) {
    granted == "*" || granted == requested
  }

  /** permission_rule_allows on a parsed rule */
  predicate Allows(r: Rule, resource: string, operation: string, scope: string) {
    && ResourceMatches(r.resource, resource)
    && OperationMatches(r.operation, operation)
    && ScopeMatches(r.scope, scope)
  }

  /** The resources a pattern grants: all for "*", its own, and for one ending in a slash and a star those that start
      with what is before the star. */
  ghost predicate Grants(granted: string, requested: string) {
    granted == "*" || granted == requested || exists p :: granted == p + "/*" && p + "/" <= requested
  }

  lemma ResourceGranted(granted: string, requested: string)
    ensures ResourceMatches(granted, requested) <==> Grants(granted, requested)
  {
    if EndsWithStar(granted) {
      var p := granted[..|granted| - 2];
      assert granted == p + "/*" && p + "/" == granted[..|granted| - 1];
    }
    forall p | granted == p + "/*" ensures EndsWithStar(granted) && granted[..|granted| - 1] == p + "/" {
      assert granted[|p|..] == "/*";
    }
  }

  /** What a rule grants: every operation lets its resources be viewed, but only edit grants edits, only delete grants
      deletes, and only a star grants anything else; a scope grants itself and a star every scope. */
  lemma AllowsIffGranted(g: Rule, resource: string, operation: string, scope: string)
    requires Normal(g)
    ensures Allows(g, resource, operation, scope) <==>
            && Grants(g.resource, resource)
            && (g.operation == "*" || operation == "view" || g.operation == operation)
            && (g.scope == "*" || g.scope == scope)
  {
    ResourceGranted(g.resource, resource);
    hide ResourceMatches, Grants;
  }

  /** g grants r itself, read as a request. */
  predicate Covers(g: Rule, r: Rule) {
    Allows(g, r.resource, r.operation, r.scope)
  }

  /** Every request r allows is allowed by g. */
  ghost predicate Includes(g: Rule, r: Rule) {
    forall resource, operation, scope ::
      Allows(r, resource, operation, scope) ==> Allows(g, resource, operation, scope)
  }

  /** A prefix ending in a slash is shorter than anything it starts that ends in a star. */
  lemma SlashBeforeStar(p: string, b: string)
    requires p != "" && p[|p| - 1] == '/' && p <= b && b[|b| - 1] == '*'
    ensures |p| < |b|
  {
    assert p[|p| - 1] == b[|p| - 1];
  }

  lemma StarEnds(a: string)
    requires EndsWithStar(a)
    ensures a[|a| - 1] == '*' && a[|a| - 2] == '/'
  {
    assert a[|a| - 2..][0] == a[|a| - 2] && a[|a| - 2..][1] == a[|a| - 1];
  }

  lemma MatchTransitive(a: string, b: string, c: string)
    requires ResourceMatches(a, b) && ResourceMatches(b, c)
    ensures ResourceMatches(a, c)
  {
    if a != "*" && a != b && b != c {
      var p := a[..|a| - 1];
      StarEnds(a);
      assert b != "*" ==> EndsWithStar(b);
      if EndsWithStar(b) { StarEnds(b); }
      SlashBeforeStar(p, b);
      assert b[..|b| - 1] <= c;
    }
  }

  lemma OperationTransitive(a: string, b: string, c: string)
    requires a in OPERATIONS && b in OPERATIONS
    requires OperationMatches(a, b) && OperationMatches(b, c)
    ensures OperationMatches(a, c)
  {
  }

  /** Granting a rule as a request is granting everything the rule allows. */
  lemma CoversIffIncludes(g: Rule, r: Rule)
    requires Normal(g) && Normal(r)
    ensures Covers(g, r) <==> Includes(g, r)
  {
    if Covers(g, r) {
      forall resource, operation, scope | Allows(r, resource, operation, scope)
        ensures Allows(g, resource, operation, scope)
      {
        MatchTransitive(g.resource, r.resource, resource);
        OperationTransitive(g.operation, r.operation, operation);
      }
    }
    if Includes(g, r) {
      assert Allows(r, r.resource, r.operation, r.scope);
    }
  }

  /** Hence the grant order is a preorder. */
  lemma CoversIsPreorder(a: Rule, b: Rule, c: Rule)
    requires Normal(a) && Normal(b) && Normal(c)
    ensures Covers(a, a)
    ensures Covers(a, b) && Covers(b, c) ==> Covers(a, c)
  {
    CoversIffIncludes(a, b);
    CoversIffIncludes(b, c);
    CoversIffIncludes(a, c);
    CoversIffIncludes(a, a);
  }

  // ---------- Sets of rules ----------

  /** permission_rules_allow */
  predicate RulesAllow(rules: set<Rule>, resource: string, operation: string, scope: string) {
    exists r | r in rules :: Allows(r, resource, operation, scope)
  }

  ghost predicate AllNormal(rules: set<Rule>) {
    forall r | r in rules :: Normal(r)
  }

  ghost predicate SameDecisions(a: set<Rule>, b: set<Rule>) {
    forall resource, operation, scope :: RulesAllow(a, resource, operation, scope) <==>
      RulesAllow(b, resource, operation, scope)
  }

  ghost predicate EachCovered(kept: set<Rule>, rules: set<Rule>) {
    forall r | r in rules :: exists g | g in kept :: Covers(g, r)
  }

  /** Keeping only some of the rules changes no decision exactly when every rule is covered by a single
      kept rule. */
  lemma KeepingDecidesTheSameIff(kept: set<Rule>, rules: set<Rule>)
    requires AllNormal(rules) && kept <= rules
    ensures SameDecisions(kept, rules) <==> EachCovered(kept, rules)
  {
    hide Allows;
    if EachCovered(kept, rules) {
      forall resource, operation, scope
        ensures RulesAllow(kept, resource, operation, scope) <==> RulesAllow(rules, resource, operation, scope)
      {
        if RulesAllow(rules, resource, operation, scope) {
          var r :| r in rules && Allows(r, resource, operation, scope);
          var g :| g in kept && Covers(g, r);
          CoversIffIncludes(g, r);
          assert Allows(g, resource, operation, scope);
        }
      }
    }
    if SameDecisions(kept, rules) {
      forall r | r in rules ensures exists g | g in kept :: Covers(g, r) {
        CoversIsPreorder(r, r, r);
        assert Allows(r, r.resource, r.operation, r.scope);
        assert RulesAllow(rules, r.resource, r.operation, r.scope);
        var g :| g in kept && Allows(g, r.resource, r.operation, r.scope);
        assert Covers(g, r);
      }
    }
  }

  // ---------- Legacy actions ----------

  /** A legacy map with parsed rules. */
  type RuleMap = map<string, seq<Rule>>

  /** The actions whose rules are, at least one of them, allowed. */
  function LegacyActions(rules: set<Rule>, legacy: RuleMap): set<string> {
    set action | action in legacy && exists i | 0 <= i < |legacy[action]| ::
      RulesAllow(rules, legacy[action][i].resource, legacy[action][i].operation, legacy[action][i].scope)
  }

  /** An action is derived exactly when the map knows it and one of its rules, read as a request, is allowed. */
  lemma LegacyActionIff(rules: set<Rule>, legacy: RuleMap, action: string)
    ensures action in LegacyActions(rules, legacy) <==>
            action in legacy && exists q, r | q in legacy[action] && r in rules :: Covers(r, q)
  {
    hide Allows;
    if action in legacy {
      forall q, r | q in legacy[action] && r in rules && Covers(r, q) ensures action in LegacyActions(rules, legacy) {
        var i :| 0 <= i < |legacy[action]| && legacy[action][i] == q;
        assert RulesAllow(rules, q.resource, q.operation, q.scope);
      }
    }
    if action in LegacyActions(rules, legacy) {
      var i :| 0 <= i < |legacy[action]| &&
               RulesAllow(rules, legacy[action][i].resource, legacy[action][i].operation, legacy[action][i].scope);
      var q := legacy[action][i];
      var r :| r in rules && Allows(r, q.resource, q.operation, q.scope);
      assert q in legacy[action] && Covers(r, q);
    }
  }

  /** The rules some texts stand for, invalid ones aside. */
  function ParsedSet(texts: seq<string>): set<Rule> {
    set i | 0 <= i < |texts| && Parse(texts[i]).Some? :: Parse(texts[i]).value
  }

  lemma ParsedSetNext(texts: seq<string>, i: nat)
    requires i < |texts| && Parse(texts[i]).Some?
    ensures ParsedSet(texts[..i + 1]) == ParsedSet(texts[..i]) + {Parse(texts[i]).value}
  {
    hide Parse;
    forall r | r in ParsedSet(texts[..i]) + {Parse(texts[i]).value} ensures r in ParsedSet(texts[..i + 1]) {
      if r in ParsedSet(texts[..i]) {
        var j :| 0 <= j < i && Parse(texts[..i][j]).Some? && Parse(texts[..i][j]).value == r;
        assert texts[..i + 1][j] == texts[..i][j];
      } else {
        assert texts[..i + 1][i] == texts[i];
      }
    }
    forall r | r in ParsedSet(texts[..i + 1]) ensures r in ParsedSet(texts[..i]) + {Parse(texts[i]).value} {
      var j :| 0 <= j < i + 1 && Parse(texts[..i + 1][j]).Some? && Parse(texts[..i + 1][j]).value == r;
      if j < i {
        assert texts[..i][j] == texts[..i + 1][j];
      }
    }
  }

  /** permission_rules_to_legacy_actions: None stands for the ValueError of an invalid rule. */
  method PermissionRulesToLegacyActions(texts: seq<string>, legacy: RuleMap) returns (o: Option<seq<string>>)
    ensures o.None? <==> exists i | 0 <= i < |texts| :: Parse(texts[i]).None?
    ensures o.Some? ==> StrictlyAscending(o.value)
    ensures o.Some? ==> forall a :: a in o.value <==> a in LegacyActions(ParsedSet(texts), legacy)
  {
    hide Parse, RulesAllow;
    var rules: set<Rule> := {};
    for i := 0 to |texts|
      invariant forall j | 0 <= j < i :: Parse(texts[j]).Some?
      invariant rules == ParsedSet(texts[..i])
    {
      var r := Parse(texts[i]);
      if r.None? {
        return None;
      }
      ParsedSetNext(texts, i);
      rules := rules + {r.value};
    }
    assert texts[..|texts|] == texts;
    var actions := AllowedActions(rules, legacy);
    return Some(actions);
  }

  method AllowedActions(rules: set<Rule>, legacy: RuleMap) returns (actions: seq<string>)
    ensures StrictlyAscending(actions)
    ensures forall a :: a in actions <==> a in LegacyActions(rules, legacy)
  {
    hide RulesAllow;
    var found: seq<string> := [];
    var left := legacy.Keys;
    while left != {}
      invariant left <= legacy.Keys
      invariant forall a :: a in found <==> a in LegacyActions(rules, legacy) && a !in left
    {
      var action :| action in left;
      left := left - {action};
      var required := legacy[action];
      var i := 0;
      while i < |required| && !RulesAllow(rules, required[i].resource, required[i].operation, required[i].scope)
        invariant 0 <= i <= |required|
        invariant forall j | 0 <= j < i ::
                  !RulesAllow(rules, required[j].resource, required[j].operation, required[j].scope)
      {
        i := i + 1;
      }
      if i < |required| {
        found := found + [action];
      }
    }
    SortUniqueAscending(found);
    return SortUnique(found);
  }

  /** Dropping a rule covered by another kept rule changes no decision and no derived action. */
  lemma DroppingCoveredRule(rules: set<Rule>, g: Rule, r: Rule, legacy: RuleMap)
    requires AllNormal(rules) && g in rules && r in rules && g != r && Covers(g, r)
    ensures SameDecisions(rules - {r}, rules)
    ensures LegacyActions(rules - {r}, legacy) == LegacyActions(rules, legacy)
  {
    forall x | x in rules ensures exists h | h in rules - {r} :: Covers(h, x) {
      CoversIsPreorder(x, x, x);
      var h := if x == r then g else x;
      hide Covers;
      assert h in rules - {r} && Covers(h, x);
    }
    KeepingDecidesTheSameIff(rules - {r}, rules);
    SameDecisionsSameActions(rules - {r}, rules, legacy);
  }

  lemma SameDecisionsSameActions(a: set<Rule>, b: set<Rule>, legacy: RuleMap)
    requires SameDecisions(a, b)
    ensures LegacyActions(a, legacy) == LegacyActions(b, legacy)
  {
    hide RulesAllow;
    forall action | action in legacy
      ensures action in LegacyActions(a, legacy) <==> action in LegacyActions(b, legacy)
    {
      forall i | 0 <= i < |legacy[action]|
        ensures var q := legacy[action][i];
                RulesAllow(a, q.resource, q.operation, q.scope) <==> RulesAllow(b, q.resource, q.operation, q.scope)
      {
      }
    }
  }
}
