/** The rule set: API groups, resources, kinds, and the two-way index of group names. */
module Rules {
  import opened Text
  import opened NameRewriting
  import opened RoundTrips
  import opened LabelMaps

  datatype GroupRule = GroupRule(group: string, renamed: string)

  datatype ResourceRule = ResourceRule(kind: string, listKind: string, plural: string, singular: string,
                                       shortNames: seq<string>, categories: Option<seq<string>>)

  datatype APIGroupRule = APIGroupRule(groupRule: GroupRule, resourceRules: map<string, ResourceRule>)

  type Groups = map<string, APIGroupRule>

  datatype ExcludeRule = ExcludeRule(kinds: seq<string>, matchNames: seq<string>, matchLabels: map<string, string>)

  // ---------------------------------------------------------------- the two-way group index

  datatype GroupIndex = GroupIndex(idx: map<string, string>, reverse: map<string, string>)
  {
    function Add(original: string, renamed: string): GroupIndex {
      GroupIndex(idx[original := renamed], reverse[renamed := original])
    }

    function Rename(group: string): string {
      if group in idx then idx[group] else group
    }

    function Restore(group: string): string {
      if group in reverse then reverse[group] else group
    }
  }

  const EMPTY_INDEX := GroupIndex(map[], map[])

  class MapIndexer {
    var idx: map<string, string>
    var reverse: map<string, string>

    function View(): GroupIndex
      reads this
    {
      GroupIndex(idx, reverse)
    }

    constructor ()
      ensures View() == EMPTY_INDEX
    {
      idx, reverse := map[], map[];
    }

    method AddPair(original: string, renamed: string)
      modifies this
      ensures View() == old(View()).Add(original, renamed)
    {
      idx := idx[original := renamed];
      reverse := reverse[renamed := original];
    }
  }

  type Pairs = seq<(string, string)>

  function AddAll(pairs: Pairs): GroupIndex {
    if pairs == [] then EMPTY_INDEX
    else
      var last := pairs[|pairs| - 1];
      AddAll(pairs[..|pairs| - 1]).Add(last.0, last.1)
  }

  predicate Distinct(pairs: Pairs) {
    forall i, j | 0 <= i < j < |pairs| :: pairs[i].0 != pairs[j].0 && pairs[i].1 != pairs[j].1
  }

  /** With distinct originals and distinct renames the index is the set of pairs, read both ways. */
  lemma {:induction false} IndexIsThePairs(pairs: Pairs, original: string, renamed: string)
    requires Distinct(pairs)
    ensures var g := AddAll(pairs);
            && (original in g.idx && g.idx[original] == renamed <==> (original, renamed) in pairs)
            && (renamed in g.reverse && g.reverse[renamed] == original <==> (original, renamed) in pairs)
  {
    if pairs != [] {
      var front, last := pairs[..|pairs| - 1], pairs[|pairs| - 1];
      IndexIsThePairs(front, original, renamed);
      LastPair(pairs, (original, renamed));
    }
  }

  lemma LastPair(pairs: Pairs, pair: (string, string))
    requires Distinct(pairs) && pairs != []
    ensures var front, last := pairs[..|pairs| - 1], pairs[|pairs| - 1];
            && (pair in pairs <==> pair in front || pair == last)
            && (pair in front ==> pair.0 != last.0 && pair.1 != last.1)
  {
    var front, last := pairs[..|pairs| - 1], pairs[|pairs| - 1];
    assert pairs == front + [last];
    if i :| 0 <= i < |front| && front[i] == pair {
      assert pairs[i] == pair;
    }
  }

  lemma SameIndexBelow(pairs: Pairs, shuffled: Pairs)
    requires Distinct(pairs) && Distinct(shuffled)
    requires forall p | p in pairs :: p in shuffled
    ensures forall o | o in AddAll(pairs).idx :: o in AddAll(shuffled).idx && AddAll(shuffled).idx[o] == AddAll(pairs).idx[o]
    ensures forall n | n in AddAll(pairs).reverse ::
              n in AddAll(shuffled).reverse && AddAll(shuffled).reverse[n] == AddAll(pairs).reverse[n]
  {
    var g := AddAll(pairs);
    forall o | o in g.idx ensures o in AddAll(shuffled).idx && AddAll(shuffled).idx[o] == g.idx[o] {
      IndexIsThePairs(pairs, o, g.idx[o]);
      IndexIsThePairs(shuffled, o, g.idx[o]);
    }
    forall n | n in g.reverse ensures n in AddAll(shuffled).reverse && AddAll(shuffled).reverse[n] == g.reverse[n] {
      IndexIsThePairs(pairs, g.reverse[n], n);
      IndexIsThePairs(shuffled, g.reverse[n], n);
    }
  }

  /** So the order of the calls does not show. */
  lemma IndexIgnoresOrder(pairs: Pairs, shuffled: Pairs)
    requires Distinct(pairs) && Distinct(shuffled)
    requires forall p :: p in pairs <==> p in shuffled
    ensures AddAll(pairs) == AddAll(shuffled)
  {
    SameIndexBelow(pairs, shuffled);
    SameIndexBelow(shuffled, pairs);
  }

  /** And the two maps are mutually inverse. */
  lemma IndexInverts(pairs: Pairs)
    requires Distinct(pairs)
    ensures Inverse(AddAll(pairs).idx, AddAll(pairs).reverse)
  {
    var g := AddAll(pairs);
    forall o | o in g.idx ensures g.idx[o] in g.reverse && g.reverse[g.idx[o]] == o { IndexIsThePairs(pairs, o, g.idx[o]); }
    forall n | n in g.reverse ensures g.reverse[n] in g.idx && g.idx[g.reverse[n]] == n { IndexIsThePairs(pairs, g.reverse[n], n); }
  }

  predicate DistinctOriginals(pairs: Pairs) {
    forall i, j | 0 <= i < j < |pairs| :: pairs[i].0 != pairs[j].0
  }

  lemma {:induction false} IndexedOriginals(pairs: Pairs, original: string)
    requires original in AddAll(pairs).idx
    ensures exists i | 0 <= i < |pairs| :: pairs[i].0 == original
  {
    var front, last := pairs[..|pairs| - 1], pairs[|pairs| - 1];
    if original == last.0 {
      assert pairs[|pairs| - 1].0 == original;
    } else {
      IndexedOriginals(front, original);
      var i :| 0 <= i < |front| && front[i].0 == original;
      assert pairs[i].0 == original;
    }
  }

  ghost predicate ReverseFollows(g: GroupIndex) {
    && (forall o | o in g.idx :: g.idx[o] in g.reverse)
    && (forall n | n in g.reverse :: g.reverse[n] in g.idx && g.idx[g.reverse[n]] == n)
  }

  lemma FollowsAfterAdd(g: GroupIndex, original: string, renamed: string)
    requires ReverseFollows(g) && original !in g.idx
    ensures ReverseFollows(g.Add(original, renamed))
  {
  }

  lemma {:induction false} ReverseFollowsIndex(pairs: Pairs)
    requires DistinctOriginals(pairs)
    ensures ReverseFollows(AddAll(pairs))
  {
    if pairs != [] {
      var front, last := pairs[..|pairs| - 1], pairs[|pairs| - 1];
      ReverseFollowsIndex(front);
      forall i | 0 <= i < |front| ensures front[i].0 != last.0 { assert front[i] == pairs[i]; }
      if last.0 in AddAll(front).idx { IndexedOriginals(front, last.0); }
      FollowsAfterAdd(AddAll(front), last.0, last.1);
    }
  }

  /** Every original group can be restored exactly when no two of them share a renamed group. */
  lemma GroupsRestoredExactly(pairs: Pairs)
    requires DistinctOriginals(pairs)
    ensures var g := AddAll(pairs);
            (forall o | o in g.idx :: g.Restore(g.Rename(o)) == o)
            <==> (forall a, b | a in g.idx && b in g.idx && g.idx[a] == g.idx[b] :: a == b)
  {
    ReverseFollowsIndex(pairs);
    var g := AddAll(pairs);
    assert forall o | o in g.idx :: g.Rename(o) == g.idx[o];
    if forall o | o in g.idx :: g.Restore(g.Rename(o)) == o {
      forall a, b | a in g.idx && b in g.idx && g.idx[a] == g.idx[b] ensures a == b {
        assert g.Restore(g.Rename(a)) == a && g.Restore(g.Rename(b)) == b;
      }
    }
  }

  // ---------------------------------------------------------------- apiVersion

  function GroupOf(apiVersion: string): string {
    Cut(apiVersion, '/').before
  }

  function RenameApiVersion(g: GroupIndex, apiVersion: string): string {
    var c := Cut(apiVersion, '/');
    if !c.found then g.Rename(apiVersion) else g.Rename(c.before) + "/" + c.after
  }

  function RestoreApiVersion(g: GroupIndex, apiVersion: string): string {
    var c := Cut(apiVersion, '/');
    if !c.found then g.Restore(apiVersion) else g.Restore(c.before) + "/" + c.after
  }

  predicate SlashFree(m: map<string, string>) {
    forall k | k in m :: '/' !in k && '/' !in m[k]
  }

  predicate GoodIndex(g: GroupIndex) {
    Inverse(g.idx, g.reverse) && SlashFree(g.idx) && SlashFree(g.reverse)
  }

  lemma ApiVersionGroups(g: GroupIndex, apiVersion: string)
    requires SlashFree(g.idx) && SlashFree(g.reverse)
    ensures GroupOf(RenameApiVersion(g, apiVersion)) == g.Rename(GroupOf(apiVersion))
    ensures GroupOf(RestoreApiVersion(g, apiVersion)) == g.Restore(GroupOf(apiVersion))
    ensures Cut(RenameApiVersion(g, apiVersion), '/').after == Cut(apiVersion, '/').after
    ensures Cut(RenameApiVersion(g, apiVersion), '/').found == Cut(apiVersion, '/').found
  {
    var c := Cut(apiVersion, '/');
    if c.found {
      CutOfJoin(g.Rename(c.before), '/', c.after);
      CutOfJoin(g.Restore(c.before), '/', c.after);
    }
  }

  /** A client's apiVersion, any version suffix, comes back exactly when its group is not merely a renamed name. */
  lemma ApiVersionRoundTrip(g: GroupIndex, apiVersion: string)
    requires GoodIndex(g)
    ensures RestoreApiVersion(g, RenameApiVersion(g, apiVersion)) == apiVersion
            <==> (GroupOf(apiVersion) in g.reverse ==> GroupOf(apiVersion) in g.idx)
  {
    ApiVersionGroups(g, apiVersion);
    ApiVersionGroups(g, RenameApiVersion(g, apiVersion));
    var group := GroupOf(apiVersion);
    assert RestoreApiVersion(g, RenameApiVersion(g, apiVersion)) == apiVersion ==> g.Restore(g.Rename(group)) == group;
  }

  // ---------------------------------------------------------------- the initialised rule set

  datatype Rules = Rules(
    kindPrefix: string,
    resourceTypePrefix: string,
    shortNamePrefix: string,
    categories: Option<seq<string>>,
    groups: Groups,
    labels: NameRewriter,
    annotations: NameRewriter,
    finalizers: NameRewriter,
    excludes: seq<ExcludeRule>,
    groupIndex: GroupIndex)

  predicate HasGroup(rs: Rules, apiGroup: string) {
    GroupOf(apiGroup) in rs.groups
  }

  predicate IsRenamedGroup(rs: Rules, apiGroup: string) {
    GroupOf(apiGroup) in rs.groupIndex.reverse
  }

  function RenameKind(rs: Rules, kind: string): string {
    rs.kindPrefix + kind
  }

  function RestoreKind(rs: Rules, kind: string): string {
    TrimPrefix(kind, rs.kindPrefix)
  }

  function RenameResource(rs: Rules, resource: string): string {
    rs.resourceTypePrefix + resource
  }

  function RestoreResource(rs: Rules, resource: string): string {
    TrimPrefix(resource, rs.resourceTypePrefix)
  }

  /** ResourceRules: by group (any version suffix) and plural (any subresource suffix). */
  function ResourceRules(rs: Rules, apiGroup: string, resource: string): Option<ResourceRule> {
    var g, p := GroupOf(apiGroup), Cut(resource, '/').before;
    if g in rs.groups && p in rs.groups[g].resourceRules then Some(rs.groups[g].resourceRules[p]) else None
  }

  /** A subresource is ruled as its resource is. */
  lemma SubresourceShares(rs: Rules, group: string, version: string, plural: string, sub: string)
    requires '/' !in group && '/' !in plural
    ensures var rule := if IsRuled(rs.groups, group, plural) then Some(rs.groups[group].resourceRules[plural]) else None;
            && ResourceRules(rs, group, plural) == rule && ResourceRules(rs, group, plural + "/" + sub) == rule
            && ResourceRules(rs, group + "/" + version, plural + "/" + sub) == rule
  {
    CutOfJoin(plural, '/', sub);
    CutOfJoin(group, '/', version);
  }

  ghost predicate KindIn(group: APIGroupRule, kind: string) {
    exists p | p in group.resourceRules :: group.resourceRules[p].kind == kind || group.resourceRules[p].listKind == kind
  }

  /** KindRules finds a rule: the group is ruled and one of its resources has the kind or the list kind. */
  ghost predicate HasKindRules(rs: Rules, apiGroup: string, kind: string) {
    HasGroup(rs, apiGroup) && KindIn(rs.groups[GroupOf(apiGroup)], kind)
  }

  predicate IsRuled(groups: Groups, g: string, p: string) {
    g in groups && p in groups[g].resourceRules
  }

  ghost predicate HasKind(groups: Groups, kind: string) {
    exists g, p :: IsRuled(groups, g, p) && groups[g].resourceRules[p].kind == kind
  }

  ghost predicate HasListKind(groups: Groups, kind: string) {
    exists g, p :: IsRuled(groups, g, p) && groups[g].resourceRules[p].listKind == kind
  }

  ghost predicate HasPlural(groups: Groups, plural: string) {
    exists g, p :: IsRuled(groups, g, p) && groups[g].resourceRules[p].plural == plural
  }

  /** GroupResourceRules: a rule with this plural, of whatever group ranging over the map meets first. */
  ghost function GroupResourceRules(rs: Rules, resource: string): Option<(GroupRule, ResourceRule)> {
    var plural := Cut(resource, '/').before;
    if HasPlural(rs.groups, plural) then
      var g, p :| IsRuled(rs.groups, g, p) && rs.groups[g].resourceRules[p].plural == plural;
      Some((rs.groups[g].groupRule, rs.groups[g].resourceRules[p]))
    else None
  }

  /** GroupResourceRules as an executable search over both maps, in whatever order they are ranged over. */
  method FindByPlural(rs: Rules, resource: string) returns (found: Option<(GroupRule, ResourceRule)>)
    ensures found.Some? <==> HasPlural(rs.groups, Cut(resource, '/').before)
    ensures found.Some? ==> found.value.1.plural == Cut(resource, '/').before
    ensures found.Some? ==> exists g, p :: IsRuled(rs.groups, g, p) &&
                              found.value == (rs.groups[g].groupRule, rs.groups[g].resourceRules[p])
  {
    var plural := Cut(resource, '/').before;
    var gs := rs.groups.Keys;
    while gs != {}
      invariant gs <= rs.groups.Keys
      invariant forall g, p | IsRuled(rs.groups, g, p) && g !in gs :: rs.groups[g].resourceRules[p].plural != plural
      decreases gs
    {
      var g :| g in gs;
      var group := rs.groups[g];
      var ps := group.resourceRules.Keys;
      while ps != {}
        invariant ps <= group.resourceRules.Keys
        invariant forall p | p in group.resourceRules && p !in ps :: group.resourceRules[p].plural != plural
        decreases ps
      {
        var p :| p in ps;
        if group.resourceRules[p].plural == plural {
          assert IsRuled(rs.groups, g, p);
          return Some((group.groupRule, group.resourceRules[p]));
        }
        ps := ps - {p};
      }
      gs := gs - {g};
    }
    found := None;
  }

  // ---------------------------------------------------------------- coherent rules

  predicate GoodSegment(s: string) {
    s != "" && '/' !in s && '.' !in s && '*' !in s
  }

  predicate CoherentGroups(rs: Rules) {
    && GoodIndex(rs.groupIndex)
    && rs.groupIndex.idx.Keys == rs.groups.Keys
    && (forall g | g in rs.groups ::
          && rs.groups[g].groupRule == GroupRule(g, rs.groupIndex.idx[g])
          && g != "" && rs.groupIndex.idx[g] != "" && g != "*" && rs.groupIndex.idx[g] != "*"
          && rs.groupIndex.idx[g] !in rs.groups)
  }

  /** Groups are kept under their own names. Several of them may share a renamed group. */
  predicate OwnNames(rs: Rules) {
    forall g | g in rs.groups :: rs.groups[g].groupRule.group == g && g != ""
  }

  /** Every group is indexed to its rename and recognised by it, and no rename is an original group; renames may be shared. */
  predicate RenamesApart(rs: Rules) {
    && rs.groupIndex.idx.Keys == rs.groups.Keys
    && (forall g | g in rs.groups ::
          && rs.groups[g].groupRule == GroupRule(g, rs.groupIndex.idx[g])
          && '/' !in g && '/' !in rs.groupIndex.idx[g] && rs.groupIndex.idx[g] != ""
          && rs.groupIndex.idx[g] in rs.groupIndex.reverse && rs.groupIndex.idx[g] !in rs.groups)
  }

  ghost predicate CoherentResources(rs: Rules) {
    && '/' !in rs.resourceTypePrefix && '.' !in rs.resourceTypePrefix && '*' !in rs.resourceTypePrefix
    && (forall g, p | IsRuled(rs.groups, g, p) ::
          GoodSegment(p) && rs.groups[g].resourceRules[p].plural == p && rs.groups[g].resourceRules[p].kind != "")
    && (forall g, h, p | IsRuled(rs.groups, g, p) && IsRuled(rs.groups, h, p) :: g == h)
  }

  ghost predicate CoherentRules(rs: Rules) {
    && CoherentGroups(rs) && CoherentResources(rs)
    && Coherent(rs.labels) && NamesFollow(rs.labels)
    && Coherent(rs.annotations) && NamesFollow(rs.annotations)
    && Coherent(rs.finalizers)
  }

  lemma HasPluralMeans(rs: Rules, plural: string)
    requires CoherentResources(rs)
    ensures HasPlural(rs.groups, plural) <==> exists g :: IsRuled(rs.groups, g, plural)
  {
    forall g | IsRuled(rs.groups, g, plural) ensures HasPlural(rs.groups, plural) {
      assert rs.groups[g].resourceRules[plural].plural == plural;
    }
  }

  /** With unique plurals the search has one possible answer. */
  lemma PluralIsFound(rs: Rules, g: string, p: string, resource: string)
    requires CoherentResources(rs) && IsRuled(rs.groups, g, p) && Cut(resource, '/').before == p
    ensures GroupResourceRules(rs, resource) == Some((rs.groups[g].groupRule, rs.groups[g].resourceRules[p]))
  {
    assert rs.groups[g].resourceRules[p].plural == p;
  }
}
