/** Stored roles, the rules they grant a user, and the startup rewrite of legacy role actions. */
module AccessControl {
  import opened Common
  import opened Sorting
  import opened PermissionRules

  type LegacyMap = map<string, seq<string>>

  const REMOVED: set<string> :=
    {"view-own-jobs", "edit-own-jobs", "cancel-own-jobs", "roles-view", "roles-manage", "manage-ai"}

  datatype Role = Role(name: string, actions: seq<string>, permissions: seq<string>)

  // ---------- Rules from actions ----------

  function Mapped(legacy: LegacyMap, action: string): seq<string> {
    if action in legacy then legacy[action] else []
  }

  /** The rules of some actions, one action after the other. */
  function MappedRules(actions: seq<string>, legacy: LegacyMap): seq<string> {
    if actions == [] then []
    else MappedRules(actions[..|actions| - 1], legacy) + Mapped(legacy, actions[|actions| - 1])
  }

  lemma {:induction false} MappedMember(actions: seq<string>, legacy: LegacyMap, s: string)
    ensures s in MappedRules(actions, legacy) <==> exists a | a in actions :: s in Mapped(legacy, a)
  {
    if actions != [] {
      var front, last := actions[..|actions| - 1], actions[|actions| - 1];
      MappedMember(front, legacy, s);
      hide Mapped;
      assert forall a :: a in actions <==> a in front || a == last;
      if s in Mapped(legacy, last) {
        assert last in actions;
      }
    }
  }

  /** Every rule normalized; None when some rule is invalid. */
  function NormalizeAll(rules: seq<string>): Option<seq<string>> {
    if rules == [] then Some([])
    else
      var front, r := NormalizeAll(rules[..|rules| - 1]), Parse(rules[|rules| - 1]);
      if front.None? || r.None? then None else Some(front.value + [Show(r.value)])
  }

  /** sort_permission_rules */
  function SortRules(rules: seq<string>): Option<seq<string>> {
    var n := NormalizeAll(rules);
    if n.None? then None else Some(SortUnique(n.value))
  }

  /** Rule text as normalizing leaves it. */
  predicate NormalText(s: string) {
    Parse(s).Some? && Show(Parse(s).value) == s
  }

  /** The merged legacy map holds normalized rules only. */
  ghost predicate NormalMap(legacy: LegacyMap) {
    forall a | a in legacy :: forall s | s in legacy[a] :: NormalText(s)
  }

  lemma {:induction false} NormalizeNormal(rules: seq<string>)
    requires forall s | s in rules :: NormalText(s)
    ensures NormalizeAll(rules) == Some(rules)
  {
    if rules != [] {
      var front, last := rules[..|rules| - 1], rules[|rules| - 1];
      NormalizeNormal(front);
      assert last in rules;
      assert rules == front + [last];
    }
  }

  /** sort_permission_rules leaves only normalized text, so merged_legacy_permission_map is a normal map. */
  lemma {:induction false} SortedRulesAreNormal(rules: seq<string>)
    ensures NormalizeAll(rules).Some? ==> forall s | s in NormalizeAll(rules).value :: NormalText(s)
    ensures SortRules(rules).Some? ==> forall s | s in SortRules(rules).value :: NormalText(s)
  {
    if rules != [] {
      SortedRulesAreNormal(rules[..|rules| - 1]);
      ParsedIsNormal(rules[|rules| - 1]);
      hide Parse, Normal, Show;
      if Parse(rules[|rules| - 1]).Some? {
        ParseShow(Parse(rules[|rules| - 1]).value);
      }
    }
  }

  method LegacyActionsToRules(actions: seq<string>, legacy: LegacyMap) returns (r: Option<seq<string>>)
    ensures r == SortRules(MappedRules(actions, legacy))
  {
    var rules: seq<string> := [];
    for i := 0 to |actions|
      invariant rules == MappedRules(actions[..i], legacy)
    {
      assert actions[..i + 1][..i] == actions[..i];
      rules := rules + Mapped(legacy, actions[i]);
    }
    assert actions[..|actions|] == actions;
    return SortRules(rules);
  }

  // ---------- A role ----------

  /** _derive_permissions */
  function Derive(role: Role, legacy: LegacyMap): seq<string> {
    if role.permissions != [] then role.permissions else SortUnique(MappedRules(role.actions, legacy))
  }

  predicate KeepsRules(action: string) {
    action == "admin-manage" || action == "view-ai"
  }

  /** The rules of the two actions whose rules are copied into the permissions. */
  function CopiedRules(actions: seq<string>, legacy: LegacyMap): seq<string> {
    if actions == [] then []
    else
      var last := actions[|actions| - 1];
      CopiedRules(actions[..|actions| - 1], legacy) + if KeepsRules(last) then Mapped(legacy, last) else []
  }

  lemma {:induction false} CopiedMember(actions: seq<string>, legacy: LegacyMap, s: string)
    ensures s in CopiedRules(actions, legacy) <==> exists a | a in actions :: KeepsRules(a) && s in Mapped(legacy, a)
  {
    if actions != [] {
      var front, last := actions[..|actions| - 1], actions[|actions| - 1];
      CopiedMember(front, legacy, s);
      hide Mapped, KeepsRules;
      assert forall a :: a in actions <==> a in front || a == last;
      if KeepsRules(last) && s in Mapped(legacy, last) {
        assert last in actions;
      }
    }
  }

  function WithoutRemoved(actions: seq<string>): (r: seq<string>)
    ensures forall a :: a in r <==> a in actions && a !in REMOVED
  {
    if actions == [] then []
    else
      var front, last := actions[..|actions| - 1], actions[|actions| - 1];
      assert forall a :: a in actions <==> a in front || a == last;
      WithoutRemoved(front) + if last in REMOVED then [] else [last]
  }

  /** _normalized_role_actions_permissions */
  function Migrated(role: Role, legacy: LegacyMap): Role {
    Role(role.name, SortUnique(WithoutRemoved(role.actions)),
         SortUnique(role.permissions + CopiedRules(role.actions, legacy)))
  }

  lemma SortUniqueTwice(a: seq<string>, b: seq<string>)
    requires forall x :: x in a <==> x in b
    ensures SortUnique(a) == SortUnique(b)
  {
    SortUniqueAscending(a);
    SortUniqueAscending(b);
    AscendingUnique(SortUnique(a), SortUnique(b));
  }

  lemma MigratedMembers(role: Role, legacy: LegacyMap, x: string)
    ensures x in Migrated(role, legacy).actions <==> x in role.actions && x !in REMOVED
    ensures x in Migrated(role, legacy).permissions <==>
            x in role.permissions || exists a | a in role.actions :: KeepsRules(a) && x in Mapped(legacy, a)
  {
    CopiedMember(role.actions, legacy, x);
    hide CopiedRules, WithoutRemoved, KeepsRules, Mapped;
  }

  /** A rewritten role stores its own rules and those its "admin-manage" and "view-ai" actions map to, nothing else. */
  lemma StoredRulesIff(role: Role, legacy: LegacyMap, x: string)
    ensures x in Migrated(role, legacy).permissions <==>
            || x in role.permissions
            || ("admin-manage" in role.actions && "admin-manage" in legacy && x in legacy["admin-manage"])
            || ("view-ai" in role.actions && "view-ai" in legacy && x in legacy["view-ai"])
  {
    MigratedMembers(role, legacy, x);
    hide Migrated;
    assert KeepsRules("admin-manage") && KeepsRules("view-ai");
    assert Mapped(legacy, "admin-manage") == if "admin-manage" in legacy then legacy["admin-manage"] else [];
    assert Mapped(legacy, "view-ai") == if "view-ai" in legacy then legacy["view-ai"] else [];
  }

  lemma KeptActionsStay(a: string)
    ensures KeepsRules(a) ==> a !in REMOVED
  {
  }

  lemma CopiedTwice(role: Role, legacy: LegacyMap, x: string)
    ensures x in Migrated(role, legacy).permissions + CopiedRules(Migrated(role, legacy).actions, legacy)
            <==> x in role.permissions + CopiedRules(role.actions, legacy)
  {
    var once := Migrated(role, legacy);
    CopiedMember(once.actions, legacy, x);
    CopiedMember(role.actions, legacy, x);
    forall a ensures a in once.actions <==> a in role.actions && a !in REMOVED {
      MigratedMembers(role, legacy, a);
    }
    MigratedMembers(role, legacy, x);
    hide Migrated, CopiedRules, KeepsRules, Mapped;
    if a :| a in role.actions && KeepsRules(a) && x in Mapped(legacy, a) {
      KeptActionsStay(a);
    }
  }

  /** The rewrite is idempotent. */
  lemma MigratedTwice(role: Role, legacy: LegacyMap)
    ensures Migrated(Migrated(role, legacy), legacy) == Migrated(role, legacy)
  {
    var once := Migrated(role, legacy);
    SortUniqueTwice(WithoutRemoved(once.actions), WithoutRemoved(role.actions));
    forall x
      ensures x in once.permissions + CopiedRules(once.actions, legacy)
              <==> x in role.permissions + CopiedRules(role.actions, legacy)
    {
      CopiedTwice(role, legacy, x);
    }
    hide CopiedRules, WithoutRemoved, SortUnique;
    SortUniqueTwice(once.permissions + CopiedRules(once.actions, legacy),
                    role.permissions + CopiedRules(role.actions, legacy));
  }

  // ---------- Effective rules ----------

  function Elements(xs: seq<string>): (r: set<string>)
    ensures forall x :: x in r <==> x in xs
  {
    set x | x in xs
  }

  /** The rules one role gives its users: those of its actions and its stored or derived permissions. */
  function RoleRules(role: Role, legacy: LegacyMap): set<string> {
    Elements(MappedRules(role.actions, legacy)) + Elements(Derive(role, legacy))
  }

  /** No removed action maps to any rule. */
  predicate RemovedSilent(legacy: LegacyMap) {
    forall a | a in REMOVED :: Mapped(legacy, a) == []
  }

  lemma RoleRulesMember(role: Role, legacy: LegacyMap, s: string)
    ensures s in RoleRules(role, legacy) <==>
            s in role.permissions || exists a | a in role.actions :: s in Mapped(legacy, a)
  {
    MappedMember(role.actions, legacy, s);
    hide MappedRules, Mapped;
  }

  lemma SilentMigration(role: Role, legacy: LegacyMap)
    requires RemovedSilent(legacy)
    ensures RoleRules(Migrated(role, legacy), legacy) == RoleRules(role, legacy)
  {
    var new' := Migrated(role, legacy);
    forall s ensures s in RoleRules(new', legacy) <==> s in RoleRules(role, legacy) {
      RoleRulesMember(role, legacy, s);
      RoleRulesMember(new', legacy, s);
      CopiedMember(role.actions, legacy, s);
      assert forall a :: a in new'.actions <==> a in role.actions && a !in REMOVED;
      assert s in new'.permissions <==> s in role.permissions || s in CopiedRules(role.actions, legacy);
      hide RoleRules, Migrated, CopiedRules, KeepsRules;
      assert forall a | a in REMOVED :: s !in Mapped(legacy, a);
    }
  }

  /** A role holding nothing but one action. */
  function OnlyAction(a: string): Role {
    Role("r", [a], [])
  }

  lemma LoudMigration(a: string, legacy: LegacyMap)
    requires a in REMOVED && Mapped(legacy, a) != []
    ensures RoleRules(Migrated(OnlyAction(a), legacy), legacy) != RoleRules(OnlyAction(a), legacy)
  {
    var role := OnlyAction(a);
    var s := Mapped(legacy, a)[0];
    RoleRulesMember(role, legacy, s);
    RoleRulesMember(Migrated(role, legacy), legacy, s);
    MigratedMembers(role, legacy, s);
    KeptActionsStay(a);
    forall x ensures x !in Migrated(role, legacy).actions {
      MigratedMembers(role, legacy, x);
    }
    assert a in role.actions;
    hide RoleRules, Migrated, KeepsRules, Mapped;
  }

  /** The rewrite keeps the rules of every possible role exactly when no removed action maps to a rule. */
  lemma MigrationKeepsRulesIff(legacy: LegacyMap)
    ensures (forall role :: RoleRules(Migrated(role, legacy), legacy) == RoleRules(role, legacy)) <==>
            RemovedSilent(legacy)
  {
    if RemovedSilent(legacy) {
      forall role ensures RoleRules(Migrated(role, legacy), legacy) == RoleRules(role, legacy) {
        SilentMigration(role, legacy);
      }
    } else {
      var a :| a in REMOVED && Mapped(legacy, a) != [];
      LoudMigration(a, legacy);
    }
  }

  // ---------- The store ----------

  function MigratedAll(roles: seq<Role>, legacy: LegacyMap): (r: seq<Role>)
    ensures |r| == |roles| && forall i | 0 <= i < |roles| :: r[i] == Migrated(roles[i], legacy)
  {
    seq(|roles|, i requires 0 <= i < |roles| => Migrated(roles[i], legacy))
  }

  /** How many roles the rewrite changes. */
  function Changed(roles: seq<Role>, legacy: LegacyMap): nat {
    if roles == [] then 0
    else
      var last := roles[|roles| - 1];
      Changed(roles[..|roles| - 1], legacy) + if Migrated(last, legacy) == last then 0 else 1
  }

  /** It counts each role once that the rewrite makes another. */
  lemma {:induction false} ChangedCounts(roles: seq<Role>, legacy: LegacyMap)
    ensures Changed(roles, legacy) == |set i | 0 <= i < |roles| && Migrated(roles[i], legacy) != roles[i]|
  {
    hide Migrated;
    var all := set i | 0 <= i < |roles| && Migrated(roles[i], legacy) != roles[i];
    if roles != [] {
      var n := |roles| - 1;
      ChangedCounts(roles[..n], legacy);
      var front := set i | 0 <= i < n && Migrated(roles[..n][i], legacy) != roles[..n][i];
      assert all == front + if Migrated(roles[n], legacy) != roles[n] then {n} else {};
    }
  }

  lemma {:induction false} MigratedAllUnchanged(roles: seq<Role>, legacy: LegacyMap)
    requires forall i | 0 <= i < |roles| :: Migrated(roles[i], legacy) == roles[i]
    ensures Changed(roles, legacy) == 0
  {
    if roles != [] {
      MigratedAllUnchanged(roles[..|roles| - 1], legacy);
    }
  }

  /** A second run of the rewrite updates no row. */
  lemma SecondRunUpdatesNothing(roles: seq<Role>, legacy: LegacyMap)
    ensures Changed(MigratedAll(roles, legacy), legacy) == 0
  {
    var once := MigratedAll(roles, legacy);
    forall i | 0 <= i < |once| ensures Migrated(once[i], legacy) == once[i] {
      MigratedTwice(roles[i], legacy);
    }
    MigratedAllUnchanged(once, legacy);
  }

  class AccessControlStore {
    const legacy: LegacyMap
    var roles: seq<Role>

    constructor (roles: seq<Role>, legacy: LegacyMap)
      ensures this.roles == roles && this.legacy == legacy
    {
      this.roles := roles;
      this.legacy := legacy;
    }

    /** normalize_legacy_role_actions, where update `failAt` fails, or the commit after all of them: everything is
        then rolled back and the error raised, None here. */
    method NormalizeLegacyRoleActions(failAt: Option<nat>) returns (updated: Option<nat>)
      modifies this
      ensures updated.None? <==> failAt.Some? && failAt.value <= Changed(old(roles), legacy)
      ensures updated.None? ==> roles == old(roles)
      ensures updated.Some? ==> roles == MigratedAll(old(roles), legacy) && updated.value == Changed(old(roles), legacy)
    {
      hide Migrated;
      var count := 0;
      var before := roles;
      for i := 0 to |roles|
        invariant |roles| == |before|
        invariant forall j | 0 <= j < i :: roles[j] == Migrated(before[j], legacy)
        invariant forall j | i <= j < |roles| :: roles[j] == before[j]
        invariant count == Changed(before[..i], legacy)
        invariant failAt.Some? ==> count <= failAt.value
      {
        assert before[..i + 1][..i] == before[..i];
        var row := roles[i];
        var normalized := Migrated(row, legacy);
        NameKept(row, legacy);
        if row.actions == normalized.actions && row.permissions == normalized.permissions {
          continue;
        }
        if failAt == Some(count) {
          ChangedPrefix(before, i, legacy);
          roles := before;
          return None;
        }
        roles := roles[i := row.(actions := normalized.actions, permissions := normalized.permissions)];
        count := count + 1;
      }
      assert before[..|roles|] == before;
      if failAt == Some(count) {
        roles := before;
        return None;
      }
      return Some(count);
    }
  }

  lemma {:induction false} ChangedPrefix(roles: seq<Role>, i: nat, legacy: LegacyMap)
    requires i <= |roles|
    ensures Changed(roles[..i], legacy) <= Changed(roles, legacy)
    decreases |roles|
  {
    hide Migrated;
    if i < |roles| {
      var n := |roles| - 1;
      ChangedPrefix(roles[..n], i, legacy);
      assert roles[..n][..i] == roles[..i];
    } else {
      assert roles[..i] == roles;
    }
  }

  /** user_permissions, from the rows of the roles the user holds. */
  method UserPermissions(rows: seq<Role>, legacy: LegacyMap)
    returns (names: set<string>, actions: set<string>, permissions: set<string>)
    ensures forall n :: n in names <==> exists i | 0 <= i < |rows| :: rows[i].name == n
    ensures actions == UserActions(rows)
    ensures permissions == UserDerived(rows, legacy)
  {
    hide Derive;
    names, actions, permissions := {}, {}, {};
    for k := 0 to |rows|
      invariant forall n :: n in names <==> exists i | 0 <= i < k :: rows[i].name == n
      invariant actions == UserActions(rows[..k])
      invariant permissions == UserDerived(rows[..k], legacy)
    {
      assert rows[..k + 1][..k] == rows[..k];
      var row := rows[k];
      names := names + {row.name};
      actions := actions + Elements(row.actions);
      permissions := permissions + Elements(Derive(row, legacy));
    }
    assert rows[..|rows|] == rows;
  }

  lemma NameKept(role: Role, legacy: LegacyMap)
    ensures Migrated(role, legacy).name == role.name
  {
  }

  function UserActions(rows: seq<Role>): set<string> {
    if rows == [] then {}
    else UserActions(rows[..|rows| - 1]) + Elements(rows[|rows| - 1].actions)
  }

  function UserDerived(rows: seq<Role>, legacy: LegacyMap): set<string> {
    if rows == [] then {}
    else UserDerived(rows[..|rows| - 1], legacy) + Elements(Derive(rows[|rows| - 1], legacy))
  }

  /** The rules of a set of actions. */
  function ActionRules(actions: set<string>, legacy: LegacyMap): set<string> {
    set a, s | a in actions && a in legacy && s in legacy[a] :: s
  }

  /** custom_roles_actions_rules: what the rows give the user, under a normal legacy map. */
  function CustomRules(rows: seq<Role>, legacy: LegacyMap): set<string> {
    ActionRules(UserActions(rows), legacy) + UserDerived(rows, legacy)
  }

  /** Under a normal map, legacy_actions_to_rules succeeds and returns exactly the mapped rules. */
  lemma LegacyRulesAreActionRules(actions: seq<string>, legacy: LegacyMap)
    requires NormalMap(legacy)
    ensures var r := SortRules(MappedRules(actions, legacy));
            r.Some? && Elements(r.value) == ActionRules(Elements(actions), legacy)
  {
    forall s ensures s in MappedRules(actions, legacy) <==> s in ActionRules(Elements(actions), legacy) {
      MappedMember(actions, legacy, s);
    }
    hide NormalText, MappedRules;
    forall s | s in MappedRules(actions, legacy) ensures NormalText(s) {
      assert s in ActionRules(Elements(actions), legacy);
    }
    NormalizeNormal(MappedRules(actions, legacy));
  }

  lemma ActionRulesUnion(a: set<string>, b: set<string>, legacy: LegacyMap)
    ensures ActionRules(a + b, legacy) == ActionRules(a, legacy) + ActionRules(b, legacy)
  {
  }

  lemma RoleRulesFromActions(role: Role, legacy: LegacyMap)
    ensures RoleRules(role, legacy) == ActionRules(Elements(role.actions), legacy) + Elements(Derive(role, legacy))
  {
    forall s
      ensures s in ActionRules(Elements(role.actions), legacy) <==> s in Elements(MappedRules(role.actions, legacy))
    {
      MappedMember(role.actions, legacy, s);
    }
    hide Derive, MappedRules, ActionRules;
  }

  /** A user's rules are the rules of the roles held, one by one. */
  function RulesOfRows(rows: seq<Role>, legacy: LegacyMap): set<string> {
    if rows == [] then {}
    else RulesOfRows(rows[..|rows| - 1], legacy) + RoleRules(rows[|rows| - 1], legacy)
  }

  lemma {:induction false} CustomRulesByRole(rows: seq<Role>, legacy: LegacyMap)
    ensures CustomRules(rows, legacy) == RulesOfRows(rows, legacy)
  {
    if rows != [] {
      var front, last := rows[..|rows| - 1], rows[|rows| - 1];
      CustomRulesByRole(front, legacy);
      RoleRulesFromActions(last, legacy);
      ActionRulesUnion(UserActions(front), Elements(last.actions), legacy);
      hide Derive, ActionRules, RoleRules;
    }
  }

  lemma {:induction false} SilentRows(rows: seq<Role>, legacy: LegacyMap)
    requires RemovedSilent(legacy)
    ensures RulesOfRows(MigratedAll(rows, legacy), legacy) == RulesOfRows(rows, legacy)
  {
    if rows != [] {
      var front, last := rows[..|rows| - 1], rows[|rows| - 1];
      SilentRows(front, legacy);
      SilentMigration(last, legacy);
      assert MigratedAll(rows, legacy)[..|rows| - 1] == MigratedAll(front, legacy);
      hide RoleRules, Migrated, RemovedSilent;
    }
  }

  datatype Outcome = Allowed | Denied | Raised

  ghost predicate SomeInvalid(rules: set<string>) {
    exists s | s in rules :: Parse(s).None?
  }

  function ParsedRules(rules: set<string>): set<Rule> {
    set s | s in rules && Parse(s).Some? :: Parse(s).value
  }

  /** allowed_user_permission on merged rules: merging sorts them first, which raises on an invalid one. */
  ghost function PermissionAnswer(rules: set<string>, resource: string, operation: string, scope: string): Outcome {
    if SomeInvalid(rules) then Raised
    else if RulesAllow(ParsedRules(rules), resource, operation, scope) then Allowed
    else Denied
  }

  /** allowed_user_action: an action of the policy file, of a held role, or one some merged rule allows. */
  ghost function ActionAnswer(policyActions: set<string>, rows: seq<Role>, rules: set<string>, legacy: LegacyMap,
                              action: string): Outcome
  {
    if SomeInvalid(rules) then Raised
    else
      var derived := LegacyActions(ParsedRules(rules), ParsedMap(legacy));
      if action in policyActions + UserActions(rows) + derived then Allowed else Denied
  }

  /** The rules of each action, parsed. */
  function ParsedMap(legacy: LegacyMap): RuleMap {
    map a | a in legacy :: ParsedSeq(legacy[a])
  }

  function ParsedSeq(texts: seq<string>): seq<Rule> {
    if texts == [] then []
    else
      var r := Parse(texts[|texts| - 1]);
      ParsedSeq(texts[..|texts| - 1]) + if r.Some? then [r.value] else []
  }

  /** The positions a user's memberships name all exist. */
  ghost predicate Within(member: seq<nat>, n: nat) {
    forall k | 0 <= k < |member| :: member[k] < n
  }

  /** The rows the membership query returns. */
  function Held(roles: seq<Role>, member: seq<nat>): (rows: seq<Role>)
    requires Within(member, |roles|)
    ensures |rows| == |member| && forall k | 0 <= k < |member| :: rows[k] == roles[member[k]]
  {
    seq(|member|, k requires 0 <= k < |member| => roles[member[k]])
  }

  /** When no removed action maps to a rule, rewriting all stored roles leaves every user's merged rules as they were;
      the answer about an action then changes exactly when the action is a removed one that the user has by a role
      alone. */
  lemma MigrationKeepsDecisions(roles: seq<Role>, member: seq<nat>, policyActions: set<string>,
                                policyRules: set<string>, legacy: LegacyMap, action: string)
    requires Within(member, |roles|) && RemovedSilent(legacy)
    ensures var rows, after := Held(roles, member), Held(MigratedAll(roles, legacy), member);
            var rules := policyRules + CustomRules(rows, legacy);
            && CustomRules(after, legacy) == CustomRules(rows, legacy)
            && (ActionAnswer(policyActions, after, rules, legacy, action) !=
                ActionAnswer(policyActions, rows, rules, legacy, action) <==>
                action in REMOVED && action in UserActions(rows) && action !in policyActions && !SomeInvalid(rules))
  {
    var rows := Held(roles, member);
    assert Held(MigratedAll(roles, legacy), member) == MigratedAll(rows, legacy);
    KeptRules(rows, legacy);
    MigrationDropsOnlyRemovedActions(rows, legacy);
    RemovedNotDerived(ParsedRules(policyRules + CustomRules(rows, legacy)), legacy, action);
    hide RulesOfRows, CustomRules, Migrated, LegacyActions, SomeInvalid, ParsedRules, UserActions;
  }

  lemma KeptRules(rows: seq<Role>, legacy: LegacyMap)
    requires RemovedSilent(legacy)
    ensures CustomRules(MigratedAll(rows, legacy), legacy) == CustomRules(rows, legacy)
  {
    CustomRulesByRole(rows, legacy);
    CustomRulesByRole(MigratedAll(rows, legacy), legacy);
    SilentRows(rows, legacy);
    hide RulesOfRows, CustomRules, Migrated;
  }

  /** No rule allows an action that maps to none. */
  lemma RemovedNotDerived(rules: set<Rule>, legacy: LegacyMap, action: string)
    requires RemovedSilent(legacy)
    ensures action in REMOVED ==> action !in LegacyActions(rules, ParsedMap(legacy))
  {
    hide RulesAllow;
    if action in REMOVED {
      assert Mapped(legacy, action) == [];
    }
  }

  /** The rewrite changes no permission answer of a user of these roles, errors included. */
  ghost predicate KeepsAnswers(rows: seq<Role>, policyRules: set<string>, legacy: LegacyMap) {
    forall resource, operation, scope ::
      PermissionAnswer(policyRules + CustomRules(MigratedAll(rows, legacy), legacy), resource, operation, scope) ==
      PermissionAnswer(policyRules + CustomRules(rows, legacy), resource, operation, scope)
  }

  lemma OneRow(role: Role, legacy: LegacyMap)
    ensures CustomRules([role], legacy) == RoleRules(role, legacy)
    ensures MigratedAll([role], legacy) == [Migrated(role, legacy)]
  {
    CustomRulesByRole([role], legacy);
    assert [role][..0] == [];
    hide CustomRules, RoleRules, Migrated;
  }

  /** A user with one removed action loses what its first rule allows. */
  lemma LoudAnswer(a: string, legacy: LegacyMap)
    requires NormalMap(legacy) && a in REMOVED && Mapped(legacy, a) != []
    ensures !KeepsAnswers([OnlyAction(a)], {}, legacy)
  {
    var role := OnlyAction(a);
    OneRow(role, legacy);
    OneRow(Migrated(role, legacy), legacy);
    var before, after := RoleRules(role, legacy), RoleRules(Migrated(role, legacy), legacy);
    LoudRules(a, legacy);
    var s := Mapped(legacy, a)[0];
    assert s in before && NormalText(s) && after == {};
    var r := Parse(s).value;
    ParsedIsNormal(s);
    CoversIsPreorder(r, r, r);
    assert r in ParsedRules(before);
    hide CustomRules, RoleRules, Migrated, Parse, Show, Normal;
    assert {} + before == before && {} + after == after;
    assert !SomeInvalid(before) && !SomeInvalid({});
    assert RulesAllow(ParsedRules(before), r.resource, r.operation, r.scope);
    assert ParsedRules({}) == {};
    assert PermissionAnswer(before, r.resource, r.operation, r.scope) == Allowed;
    assert PermissionAnswer({}, r.resource, r.operation, r.scope) == Denied;
  }

  lemma LoudRules(a: string, legacy: LegacyMap)
    requires NormalMap(legacy) && a in REMOVED && Mapped(legacy, a) != []
    ensures var role := OnlyAction(a);
            && (forall s :: s in RoleRules(role, legacy) <==> s in Mapped(legacy, a))
            && (forall s | s in RoleRules(role, legacy) :: NormalText(s))
            && RoleRules(Migrated(role, legacy), legacy) == {}
  {
    var role := OnlyAction(a);
    KeptActionsStay(a);
    forall s ensures s in RoleRules(role, legacy) <==> s in Mapped(legacy, a)
             ensures s !in RoleRules(Migrated(role, legacy), legacy) {
      RoleRulesMember(role, legacy, s);
      RoleRulesMember(Migrated(role, legacy), legacy, s);
      MigratedMembers(role, legacy, s);
      forall x ensures x !in Migrated(role, legacy).actions {
        MigratedMembers(role, legacy, x);
      }
    }
    hide RoleRules, Migrated, KeepsRules, NormalText;
  }

  /** Under a normal map, the rewrite changes no permission answer of any possible user exactly when no removed action
      maps to a rule. */
  lemma MigrationKeepsDecisionsIff(legacy: LegacyMap)
    requires NormalMap(legacy)
    ensures (forall rows, policyRules :: KeepsAnswers(rows, policyRules, legacy)) <==> RemovedSilent(legacy)
  {
    hide KeepsAnswers, CustomRules, Mapped, NormalMap;
    if RemovedSilent(legacy) {
      forall rows, policyRules ensures KeepsAnswers(rows, policyRules, legacy) {
        SilentAnswers(rows, policyRules, legacy);
      }
    } else {
      var a :| a in REMOVED && Mapped(legacy, a) != [];
      LoudAnswer(a, legacy);
    }
  }

  lemma SilentAnswers(rows: seq<Role>, policyRules: set<string>, legacy: LegacyMap)
    requires RemovedSilent(legacy)
    ensures KeepsAnswers(rows, policyRules, legacy)
  {
    KeptRules(rows, legacy);
    hide CustomRules, PermissionAnswer;
  }

  /** The actions a user loses to the rewrite are exactly the removed ones. */
  lemma {:induction false} MigrationDropsOnlyRemovedActions(rows: seq<Role>, legacy: LegacyMap)
    ensures UserActions(MigratedAll(rows, legacy)) == UserActions(rows) - REMOVED
  {
    if rows != [] {
      var front, last := rows[..|rows| - 1], rows[|rows| - 1];
      MigrationDropsOnlyRemovedActions(front, legacy);
      forall a ensures a in Migrated(last, legacy).actions <==> a in last.actions && a !in REMOVED {
        MigratedMembers(last, legacy, a);
      }
      assert MigratedAll(rows, legacy)[..|rows| - 1] == MigratedAll(front, legacy);
      hide Migrated;
    }
  }
}
