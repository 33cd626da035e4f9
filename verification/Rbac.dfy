/**
  RBAC rules (and the resource rules of webhooks and admission policies, which are rewritten by
  the same two functions): which group and resource a rule grants, before and after renaming.
 */
module Rbac {
  import opened Text
  import opened RoundTrips
  import opened Rules

  datatype PolicyRule = PolicyRule(apiGroups: seq<string>, resources: seq<string>)

  // ---------------------------------------------------------------- meaning, as the API server reads it

  predicate GroupMatches(rule: PolicyRule, group: string) {
    "*" in rule.apiGroups || group in rule.apiGroups
  }

  /** Any resource, this resource, or this subresource of any resource. */
  predicate ResourceMatches(rule: PolicyRule, resource: string) {
    var c := Cut(resource, '/');
    "*" in rule.resources || resource in rule.resources || (c.found && "*/" + c.after in rule.resources)
  }

  predicate Grants(rule: PolicyRule, group: string, resource: string) {
    GroupMatches(rule, group) && ResourceMatches(rule, resource)
  }

  // ---------------------------------------------------------------- the rewriting

  ghost predicate IsRuledResource(rs: Rules, resource: string) {
    HasPlural(rs.groups, Cut(resource, '/').before)
  }

  function RenameGroupName(rs: Rules, group: string): string {
    if HasGroup(rs, group) then RenameApiVersion(rs.groupIndex, group) else group
  }

  function RestoreGroupName(rs: Rules, group: string): string {
    if IsRenamedGroup(rs, group) then RestoreApiVersion(rs.groupIndex, group) else group
  }

  ghost function RenameResourceName(rs: Rules, resource: string): string {
    if resource == "*" || resource == "" then resource
    else if IsRuledResource(rs, resource) then RenameResource(rs, resource)
    else resource
  }

  ghost function RestoreResourceName(rs: Rules, resource: string): string {
    if resource == "*" || resource == "" then resource
    else if IsRuledResource(rs, RestoreResource(rs, resource)) then RestoreResource(rs, resource)
    else resource
  }

  predicate TouchesResources(rs: Rules, groups: seq<string>) {
    exists g | g in groups :: HasGroup(rs, g) || g == "*"
  }

  predicate TouchesRestored(rs: Rules, groups: seq<string>) {
    exists g | g in groups :: IsRenamedGroup(rs, g) || g == "*"
  }

  ghost function MapNames(names: seq<string>, f: string -> string): seq<string> {
    seq(|names|, i requires 0 <= i < |names| => f(names[i]))
  }

  ghost function RenamedRule(rs: Rules, rule: PolicyRule): PolicyRule {
    PolicyRule(MapNames(rule.apiGroups, g => RenameGroupName(rs, g)),
               if TouchesResources(rs, rule.apiGroups) then MapNames(rule.resources, r => RenameResourceName(rs, r))
               else rule.resources)
  }

  ghost function RestoredRule(rs: Rules, rule: PolicyRule): PolicyRule {
    PolicyRule(MapNames(rule.apiGroups, g => RestoreGroupName(rs, g)),
               if TouchesRestored(rs, rule.apiGroups) then MapNames(rule.resources, r => RestoreResourceName(rs, r))
               else rule.resources)
  }

  method RenameOne(rs: Rules, resource: string) returns (out: string)
    ensures out == RenameResourceName(rs, resource)
  {
    if resource == "*" || resource == "" { return resource; }
    var found := FindByPlural(rs, resource);
    out := if found.Some? then RenameResource(rs, resource) else resource;
  }

  method RestoreOne(rs: Rules, resource: string) returns (out: string)
    ensures out == RestoreResourceName(rs, resource)
  {
    if resource == "*" || resource == "" { return resource; }
    var original := RestoreResource(rs, resource);
    var found := FindByPlural(rs, original);
    out := if found.Some? then original else resource;
  }

  /** The pass over apiGroups, which also notes whether resources are to be renamed. */
  method RenameGroups(rs: Rules, apiGroups: seq<string>) returns (groups: seq<string>, renameResources: bool)
    ensures |groups| == |apiGroups| && forall j | 0 <= j < |groups| :: groups[j] == RenameGroupName(rs, apiGroups[j])
    ensures renameResources <==> TouchesResources(rs, apiGroups)
  {
    renameResources := false;
    groups := [];
    for i := 0 to |apiGroups|
      invariant |groups| == i && forall j | 0 <= j < i :: groups[j] == RenameGroupName(rs, apiGroups[j])
      invariant renameResources <==> exists j | 0 <= j < i :: HasGroup(rs, apiGroups[j]) || apiGroups[j] == "*"
    {
      var group := apiGroups[i];
      if HasGroup(rs, group) {
        renameResources := true;
        group := RenameApiVersion(rs.groupIndex, group);
      } else if group == "*" {
        renameResources := true;
      }
      groups := groups + [group];
    }
  }

  method RenameResourceRule(rs: Rules, rule: PolicyRule) returns (out: PolicyRule)
    ensures out == RenamedRule(rs, rule)
  {
    var groups, renameResources := RenameGroups(rs, rule.apiGroups);
    if !renameResources {
      return PolicyRule(groups, rule.resources);
    }
    var resources: seq<string> := [];
    for i := 0 to |rule.resources|
      invariant |resources| == i && forall j | 0 <= j < i :: resources[j] == RenameResourceName(rs, rule.resources[j])
    {
      var resource := RenameOne(rs, rule.resources[i]);
      resources := resources + [resource];
    }
    out := PolicyRule(groups, resources);
  }

  /** The pass over apiGroups, which also notes whether resources are to be restored. */
  method RestoreGroups(rs: Rules, apiGroups: seq<string>) returns (groups: seq<string>, restoreResources: bool)
    ensures |groups| == |apiGroups| && forall j | 0 <= j < |groups| :: groups[j] == RestoreGroupName(rs, apiGroups[j])
    ensures restoreResources <==> TouchesRestored(rs, apiGroups)
  {
    restoreResources := false;
    groups := [];
    for i := 0 to |apiGroups|
      invariant |groups| == i && forall j | 0 <= j < i :: groups[j] == RestoreGroupName(rs, apiGroups[j])
      invariant restoreResources <==> TouchesRestored(rs, apiGroups[..i])
    {
      var group := apiGroups[i];
      assert apiGroups[..i + 1] == apiGroups[..i] + [group];
      if IsRenamedGroup(rs, group) {
        restoreResources := true;
        group := RestoreApiVersion(rs.groupIndex, group);
      } else if group == "*" {
        restoreResources := true;
      }
      groups := groups + [group];
    }
    assert apiGroups[..|apiGroups|] == apiGroups;
  }

  method RestoreResourceRule(rs: Rules, rule: PolicyRule) returns (out: PolicyRule)
    ensures out == RestoredRule(rs, rule)
  {
    var groups, restoreResources := RestoreGroups(rs, rule.apiGroups);
    if !restoreResources {
      return PolicyRule(groups, rule.resources);
    }
    var resources: seq<string> := [];
    for i := 0 to |rule.resources|
      invariant |resources| == i && forall j | 0 <= j < i :: resources[j] == RestoreResourceName(rs, rule.resources[j])
    {
      var resource := RestoreOne(rs, rule.resources[i]);
      resources := resources + [resource];
    }
    out := PolicyRule(groups, resources);
  }

  // ---------------------------------------------------------------- names

  /** The name of an already renamed resource: not ruled itself, but ruled without the prefix. */
  ghost predicate IsRenamedResource(rs: Rules, resource: string) {
    !IsRuledResource(rs, resource) && HasPrefix(resource, rs.resourceTypePrefix) && IsRuledResource(rs, RestoreResource(rs, resource))
  }

  ghost predicate ClientRule(rs: Rules, rule: PolicyRule) {
    && (forall g | g in rule.apiGroups :: !IsRenamedGroup(rs, g))
    && (forall r | r in rule.resources :: !IsRenamedResource(rs, r))
  }

  lemma GroupNameFacts(rs: Rules, group: string)
    requires CoherentGroups(rs) && !IsRenamedGroup(rs, group)
    ensures RestoreGroupName(rs, RenameGroupName(rs, group)) == group
    ensures HasGroup(rs, group) ==> IsRenamedGroup(rs, RenameGroupName(rs, group))
    ensures RenameGroupName(rs, group) == "*" <==> group == "*"
  {
    ApiVersionRoundTrip(rs.groupIndex, group);
    ApiVersionGroups(rs.groupIndex, group);
    assert GroupOf("*") == "*";
  }

  lemma RuledResourceShape(rs: Rules, resource: string)
    requires CoherentResources(rs) && IsRuledResource(rs, resource)
    ensures var c, c' := Cut(resource, '/'), Cut(RenameResource(rs, resource), '/');
            && resource != "" && resource[0] != '*' && RenameResource(rs, resource)[0] != '*'
            && c'.found == c.found && c'.after == c.after
  {
    HasPluralMeans(rs, Cut(resource, '/').before);
    var c, prefix := Cut(resource, '/'), rs.resourceTypePrefix;
    var g :| IsRuled(rs.groups, g, c.before);
    assert GoodSegment(c.before) && resource[0] == c.before[0];
    if c.found {
      assert prefix + resource == (prefix + c.before) + ['/'] + c.after;
      CutOfJoin(prefix + c.before, '/', c.after);
    } else {
      assert '/' !in prefix + resource;
    }
    assert prefix != "" ==> (prefix + resource)[0] == prefix[0];
  }

  lemma ResourceNameRoundTrip(rs: Rules, resource: string)
    requires CoherentResources(rs) && !IsRenamedResource(rs, resource)
    ensures RestoreResourceName(rs, RenameResourceName(rs, resource)) == resource
  {
    TrimOfPrefixed(rs.resourceTypePrefix, resource);
    if IsRuledResource(rs, resource) { RuledResourceShape(rs, resource); }
  }

  /** Wildcards are never produced and never lost, and the subresource stays. */
  lemma ResourceNameShape(rs: Rules, resource: string)
    requires CoherentResources(rs)
    ensures var c, c' := Cut(resource, '/'), Cut(RenameResourceName(rs, resource), '/'); c'.found == c.found && c'.after == c.after
    ensures forall any: string | any != "" && any[0] == '*' :: RenameResourceName(rs, resource) == any <==> resource == any
  {
    if IsRuledResource(rs, resource) { RuledResourceShape(rs, resource); }
  }

  lemma ResourceNameFacts(rs: Rules, resource: string)
    requires CoherentResources(rs) && !IsRenamedResource(rs, resource)
    ensures RestoreResourceName(rs, RenameResourceName(rs, resource)) == resource
    ensures var c, c' := Cut(resource, '/'), Cut(RenameResourceName(rs, resource), '/'); c'.found == c.found && c'.after == c.after
    ensures RenameResourceName(rs, resource) == "*" <==> resource == "*"
    ensures forall sub :: RenameResourceName(rs, resource) == "*/" + sub <==> resource == "*/" + sub
  {
    ResourceNameRoundTrip(rs, resource);
    ResourceNameShape(rs, resource);
    assert forall sub: string :: ("*/" + sub)[0] == '*';
  }

  // ---------------------------------------------------------------- grants

  lemma MapNamesMember(names: seq<string>, f: string -> string, g: string -> string, x: string)
    requires g(f(x)) == x && forall y | y in names :: g(f(y)) == y
    ensures f(x) in MapNames(names, f) <==> x in names
  {
    if f(x) in MapNames(names, f) {
      var i :| 0 <= i < |names| && f(names[i]) == f(x);
      assert g(f(names[i])) == names[i];
    }
    if x in names {
      var i :| 0 <= i < |names| && names[i] == x;
      assert MapNames(names, f)[i] == f(x);
    }
  }

  lemma GroupMatchPreserved(rs: Rules, rule: PolicyRule, group: string)
    requires CoherentGroups(rs) && ClientRule(rs, rule) && !IsRenamedGroup(rs, group)
    ensures GroupMatches(rule, group) <==> GroupMatches(RenamedRule(rs, rule), RenameGroupName(rs, group))
  {
    var f, g := (x: string) => RenameGroupName(rs, x), (x: string) => RestoreGroupName(rs, x);
    forall y | y in rule.apiGroups ensures g(f(y)) == y { GroupNameFacts(rs, y); }
    GroupNameFacts(rs, group);
    MapNamesMember(rule.apiGroups, f, g, group);
    StarIsKept(rule.apiGroups, f) by {
      forall y | y in rule.apiGroups ensures f(y) == "*" <==> y == "*" { GroupNameFacts(rs, y); }
    }
  }

  lemma StarIsKept(names: seq<string>, f: string -> string)
    requires forall y | y in names :: f(y) == "*" <==> y == "*"
    ensures "*" in MapNames(names, f) <==> "*" in names
  {
    if "*" in names {
      var i :| 0 <= i < |names| && names[i] == "*";
      assert MapNames(names, f)[i] == "*";
    }
  }

  lemma ResourceMatchPreserved(rs: Rules, rule: PolicyRule, resource: string)
    requires CoherentResources(rs) && ClientRule(rs, rule) && !IsRenamedResource(rs, resource)
    ensures var renamed := PolicyRule([], MapNames(rule.resources, r => RenameResourceName(rs, r)));
            ResourceMatches(rule, resource) <==> ResourceMatches(renamed, RenameResourceName(rs, resource))
  {
    var f, g := (x: string) => RenameResourceName(rs, x), (x: string) => RestoreResourceName(rs, x);
    forall y | y in rule.resources ensures g(f(y)) == y { ResourceNameRoundTrip(rs, y); }
    ResourceNameRoundTrip(rs, resource);
    MapNamesMember(rule.resources, f, g, resource);
    WildcardsKept(rs, rule.resources, f, resource);
    ResourceNameShape(rs, resource);
    var renamed := PolicyRule([], MapNames(rule.resources, f));
    assert ByWildcard(renamed, f(resource)) <==> ByWildcard(renamed, resource);
    MatchesByNameOrWildcard(PolicyRule([], rule.resources), rule, resource);
    MatchesByNameOrWildcard(renamed, renamed, f(resource));
    assert renamed.resources == MapNames(rule.resources, r => RenameResourceName(rs, r));
  }

  /**
    A client's rule grants a pair exactly when the renamed rule grants the renamed pair: for every
    resource of a ruled group, and for every pair whose resource has no rule, subresources and
    wildcards included.
   */
  lemma GrantsPreserved(rs: Rules, rule: PolicyRule, group: string, resource: string)
    requires CoherentGroups(rs) && CoherentResources(rs) && ClientRule(rs, rule)
    requires !IsRenamedGroup(rs, group) && !IsRenamedResource(rs, resource)
    requires HasGroup(rs, group) || !IsRuledResource(rs, resource)
    ensures Grants(rule, group, resource)
            <==> Grants(RenamedRule(rs, rule), RenameGroupName(rs, group), RenameResourceName(rs, resource))
  {
    GroupMatchPreserved(rs, rule, group);
    if TouchesResources(rs, rule.apiGroups) {
      ResourceMatchPreserved(rs, rule, resource);
    }
  }

  /** For a resource of a ruled group: the grant is on the renamed group and the prefixed resource. */
  lemma RuledGrant(rs: Rules, rule: PolicyRule, group: string, resource: string)
    requires CoherentGroups(rs) && CoherentResources(rs) && ClientRule(rs, rule) && group in rs.groups
    requires !IsRenamedGroup(rs, group) && IsRuledResource(rs, resource) && resource !in {"*", ""}
    ensures Grants(rule, group, resource) <==> Grants(RenamedRule(rs, rule), rs.groupIndex.idx[group], rs.resourceTypePrefix + resource)
  {
    GrantsPreserved(rs, rule, group, resource);
    assert GroupOf(group) == group;
  }

  /** Restoring undoes renaming, entry by entry. */
  lemma RuleRoundTrip(rs: Rules, rule: PolicyRule)
    requires CoherentGroups(rs) && CoherentResources(rs) && ClientRule(rs, rule)
    ensures RestoredRule(rs, RenamedRule(rs, rule)) == rule
  {
    var sent := RenamedRule(rs, rule);
    forall i | 0 <= i < |rule.apiGroups|
      ensures RestoreGroupName(rs, sent.apiGroups[i]) == rule.apiGroups[i]
      ensures (HasGroup(rs, rule.apiGroups[i]) || rule.apiGroups[i] == "*") <==> (IsRenamedGroup(rs, sent.apiGroups[i]) || sent.apiGroups[i] == "*")
    {
      GroupNameFacts(rs, rule.apiGroups[i]);
    }
    assert TouchesResources(rs, rule.apiGroups) <==> TouchesRestored(rs, sent.apiGroups);
    forall r | r in rule.resources ensures RestoreResourceName(rs, RenameResourceName(rs, r)) == r { ResourceNameFacts(rs, r); }
    assert RestoredRule(rs, sent).apiGroups == rule.apiGroups;
    assert RestoredRule(rs, sent).resources == rule.resources;
  }

  /** The rule grants the resource by a wildcard. */
  predicate ByWildcard(rule: PolicyRule, resource: string) {
    var c := Cut(resource, '/');
    "*" in rule.resources || (c.found && "*/" + c.after in rule.resources)
  }

  /** The rule names a ruled resource whose renamed name is this one. */
  ghost predicate NamesUnprefixed(rs: Rules, rule: PolicyRule, resource: string) {
    && HasPrefix(resource, rs.resourceTypePrefix)
    && IsRuledResource(rs, RestoreResource(rs, resource)) && RestoreResource(rs, resource) in rule.resources
  }

  lemma MapNamesOf(names: seq<string>, f: string -> string, x: string)
    ensures x in MapNames(names, f) <==> exists y :: y in names && f(y) == x
  {
    if y :| y in names && f(y) == x {
      var i :| 0 <= i < |names| && names[i] == y;
      assert MapNames(names, f)[i] == x;
    }
  }

  /** A name that a rule renames to this resource is its unprefixed form; any other name stays. */
  lemma OnlyUnprefixedRenamesTo(rs: Rules, name: string, resource: string)
    requires RenameResourceName(rs, name) == resource && name != resource
    ensures HasPrefix(resource, rs.resourceTypePrefix) && RestoreResource(rs, resource) == name && IsRuledResource(rs, name)
  {
    TrimOfPrefixed(rs.resourceTypePrefix, name);
  }

  lemma UnprefixedRenamesTo(rs: Rules, resource: string)
    requires CoherentResources(rs) && HasPrefix(resource, rs.resourceTypePrefix) && IsRuledResource(rs, RestoreResource(rs, resource))
    ensures RenameResourceName(rs, RestoreResource(rs, resource)) == resource
  {
    RuledResourceShape(rs, RestoreResource(rs, resource));
  }

  /** A resource is renamed to itself only if it has no rule, or there is no prefix. */
  lemma StaysOnlyUnruled(rs: Rules, resource: string)
    requires CoherentResources(rs) && IsRuledResource(rs, resource) && RenameResourceName(rs, resource) == resource
    ensures rs.resourceTypePrefix == "" && RestoreResource(rs, resource) == resource
  {
    RuledResourceShape(rs, resource);
    assert |RenameResource(rs, resource)| == |rs.resourceTypePrefix| + |resource|;
  }

  /** A ruled or already renamed name is among the renamed names of a client's rule exactly when its unprefixed form was named. */
  lemma TakenNameAfter(rs: Rules, names: seq<string>, f: string -> string, resource: string)
    requires CoherentResources(rs) && (IsRuledResource(rs, resource) || resource !in names)
    requires forall y :: f(y) == RenameResourceName(rs, y)
    ensures resource in MapNames(names, f) <==> NamesUnprefixed(rs, PolicyRule([], names), resource)
  {
    MapNamesOf(names, f, resource);
    if NamesUnprefixed(rs, PolicyRule([], names), resource) {
      UnprefixedRenamesTo(rs, resource);
      assert f(RestoreResource(rs, resource)) == resource;
    }
    if z :| z in names && f(z) == resource {
      if z == resource { StaysOnlyUnruled(rs, resource); } else { OnlyUnprefixedRenamesTo(rs, z, resource); }
    }
  }

  lemma WildcardsKept(rs: Rules, names: seq<string>, f: string -> string, resource: string)
    requires CoherentResources(rs) && forall y :: f(y) == RenameResourceName(rs, y)
    ensures ByWildcard(PolicyRule([], MapNames(names, f)), resource) <==> ByWildcard(PolicyRule([], names), resource)
  {
    var any := "*/" + Cut(resource, '/').after;
    MapNamesOf(names, f, "*");
    MapNamesOf(names, f, any);
    forall y ensures (f(y) == "*" <==> y == "*") && (f(y) == any <==> y == any) {
      ResourceNameShape(rs, y);
      assert any[0] == '*' && "*"[0] == '*';
    }
    assert f("*") == "*" && f(any) == any;
  }

  /**
    The remaining pairs under a group without a rule: a ruled resource name, or an already renamed
    one. The rule grants the pair as before exactly unless it also names a ruled group or all
    groups, has no wildcard for the resource, and names just one of the resource and its
    unprefixed form.
   */
  lemma UnruledGroupExactly(rs: Rules, rule: PolicyRule, group: string, resource: string)
    requires CoherentGroups(rs) && CoherentResources(rs) && ClientRule(rs, rule)
    requires !HasGroup(rs, group) && !IsRenamedGroup(rs, group)
    requires IsRuledResource(rs, resource) || IsRenamedResource(rs, resource)
    ensures (Grants(rule, group, resource) <==> Grants(RenamedRule(rs, rule), group, resource)) <==>
            (GroupMatches(rule, group) && TouchesResources(rs, rule.apiGroups) && !ByWildcard(rule, resource) ==>
               (resource in rule.resources <==> NamesUnprefixed(rs, rule, resource)))
  {
    GroupMatchPreserved(rs, rule, group);
    if TouchesResources(rs, rule.apiGroups) {
      var f := (x: string) => RenameResourceName(rs, x);
      var renamed := MapNames(rule.resources, f);
      assert RenamedRule(rs, rule).resources == renamed;
      TakenNameAfter(rs, rule.resources, f, resource);
      WildcardsKept(rs, rule.resources, f, resource);
      MatchesByNameOrWildcard(PolicyRule([], renamed), RenamedRule(rs, rule), resource);
      MatchesByNameOrWildcard(PolicyRule([], rule.resources), rule, resource);
    }
  }

  lemma MatchesByNameOrWildcard(plain: PolicyRule, rule: PolicyRule, resource: string)
    requires plain.resources == rule.resources
    ensures ResourceMatches(rule, resource) <==> resource in rule.resources || ByWildcard(plain, resource)
    ensures ByWildcard(plain, resource) <==> ByWildcard(rule, resource)
  {
  }

  /** A rule that names a ruled and an unruled group together loses the unruled group's resource of the same name. */
  lemma MixedRuleLosesGrant(rs: Rules, ruled: string, other: string, resource: string)
    requires CoherentGroups(rs) && CoherentResources(rs) && rs.resourceTypePrefix != ""
    requires HasGroup(rs, ruled) && !HasGroup(rs, other) && !IsRenamedGroup(rs, other) && other != "*"
    requires IsRuledResource(rs, resource) && resource !in {"*", ""}
    ensures var rule := PolicyRule([ruled, other], [resource]);
            && Grants(rule, other, resource)
            && !Grants(RenamedRule(rs, rule), RenameGroupName(rs, other), resource)
  {
    var rule := PolicyRule([ruled, other], [resource]);
    RuledResourceShape(rs, resource);
    assert other in rule.apiGroups && resource in rule.resources;
    MixedResources(rs, ruled, other, resource);
    assert |RenameResource(rs, resource)| == |rs.resourceTypePrefix| + |resource|;
    NameMatchesOnlyItself(RenamedRule(rs, rule), RenameResource(rs, resource), resource);
  }

  lemma MixedResources(rs: Rules, ruled: string, other: string, resource: string)
    requires HasGroup(rs, ruled) && IsRuledResource(rs, resource) && resource !in {"*", ""}
    ensures RenamedRule(rs, PolicyRule([ruled, other], [resource])).resources == [RenameResource(rs, resource)]
  {
    assert ruled in PolicyRule([ruled, other], [resource]).apiGroups;
  }

  /** The same rule gains the unruled group's resource of the renamed name. */
  lemma MixedRuleGainsGrant(rs: Rules, ruled: string, other: string, resource: string)
    requires CoherentGroups(rs) && CoherentResources(rs)
    requires HasGroup(rs, ruled) && !HasGroup(rs, other) && !IsRenamedGroup(rs, ruled) && !IsRenamedGroup(rs, other) && other != "*"
    requires IsRuledResource(rs, resource) && IsRenamedResource(rs, RenameResource(rs, resource))
    ensures var rule := PolicyRule([ruled, other], [resource]);
            && ClientRule(rs, rule)
            && !Grants(rule, other, RenameResource(rs, resource))
            && Grants(RenamedRule(rs, rule), other, RenameResource(rs, resource))
  {
    RuledResourceShape(rs, resource);
    RuledIsNotRenamed(rs, resource);
    MixedRuleIsClient(rs, ruled, other, resource);
    assert resource != RenameResource(rs, resource);
    NameMatchesOnlyItself(PolicyRule([ruled, other], [resource]), resource, RenameResource(rs, resource));
    RenamedMixedRule(rs, ruled, other, resource);
  }

  lemma RuledIsNotRenamed(rs: Rules, resource: string)
    requires IsRuledResource(rs, resource)
    ensures !IsRenamedResource(rs, resource)
  {
  }

  lemma MixedRuleIsClient(rs: Rules, ruled: string, other: string, resource: string)
    requires !IsRenamedGroup(rs, ruled) && !IsRenamedGroup(rs, other) && !IsRenamedResource(rs, resource)
    ensures ClientRule(rs, PolicyRule([ruled, other], [resource]))
  {
  }

  lemma RenamedMixedRule(rs: Rules, ruled: string, other: string, resource: string)
    requires HasGroup(rs, ruled) && !HasGroup(rs, other) && IsRuledResource(rs, resource) && resource !in {"*", ""}
    ensures Grants(RenamedRule(rs, PolicyRule([ruled, other], [resource])), other, RenameResource(rs, resource))
  {
    var rule := PolicyRule([ruled, other], [resource]);
    assert ruled in rule.apiGroups;
    var out := RenamedRule(rs, rule);
    assert out.apiGroups[1] == other && out.resources[0] == RenameResource(rs, resource);
  }

  /** A rule that names one resource, no wildcard, grants no other. */
  lemma NameMatchesOnlyItself(rule: PolicyRule, name: string, resource: string)
    requires rule.resources == [name] && name != resource && name != "" && name[0] != '*'
    ensures !ResourceMatches(rule, resource)
  {
    assert ("*/" + Cut(resource, '/').after)[0] == '*';
  }
}
