/** Initialising the rule set, and dropping excluded objects from what the client sees. */
module Excludes {
  import opened Text
  import opened NameRewriting
  import opened RoundTrips
  import opened Rules
  import opened Json
  import opened Arrays
  import opened Transforms

  // ---------------------------------------------------------------- matching

  function EffectiveKind(kind: string, own: string): string {
    if kind == "" then own else kind
  }

  /** A label that is not there compares as the empty string. */
  ghost function LabelText(obj: Json, name: string): string {
    match Get2(obj, "metadata", "labels") case Some(labels) => TextAt(labels, name) case None => ""
  }

  ghost function NameText(obj: Json): string {
    match Get(obj, "metadata") case Some(meta) => TextAt(meta, "name") case None => ""
  }

  ghost predicate MatchesRule(rule: ExcludeRule, obj: Json, kind: string) {
    && (rule.kinds == [] || EffectiveKind(kind, TextAt(obj, "kind")) in rule.kinds)
    && (forall k | k in rule.matchLabels :: LabelText(obj, k) == rule.matchLabels[k])
    && (rule.matchNames == [] || NameText(obj) in rule.matchNames)
  }

  ghost predicate ShouldExclude(excludes: seq<ExcludeRule>, obj: Json, kind: string) {
    exists i | 0 <= i < |excludes| :: MatchesRule(excludes[i], obj, kind)
  }

  /** The labels of an object as a map of texts. */
  ghost function LabelsOf(obj: Json): map<string, string> {
    match Get2(obj, "metadata", "labels")
    case Some(labels) => (if labels.Obj? then map k | k in labels.fields :: AsText(labels.fields[k]) else map[])
    case None => map[]
  }

  /** ExcludeRule.Match on what it reads from an object: its kind, its name and its labels. */
  method Match(rule: ExcludeRule, kind: string, name: string, labels: map<string, string>) returns (matches: bool)
    ensures matches <==>
              && (rule.kinds == [] || kind in rule.kinds)
              && (forall k | k in rule.matchLabels :: (if k in labels then labels[k] else "") == rule.matchLabels[k])
              && (rule.matchNames == [] || name in rule.matchNames)
  {
    var kindMatch := Listed(rule.kinds, kind);
    var nameMatch := Listed(rule.matchNames, name);
    var labelMatch := true;
    var rest := rule.matchLabels.Keys;
    while rest != {} && labelMatch
      invariant rest <= rule.matchLabels.Keys
      invariant labelMatch <==> forall k | k in rule.matchLabels && k !in rest :: (if k in labels then labels[k] else "") == rule.matchLabels[k]
      decreases rest, labelMatch
    {
      var k :| k in rest;
      labelMatch := (if k in labels then labels[k] else "") == rule.matchLabels[k];
      rest := rest - {k};
    }
    matches := kindMatch && labelMatch && nameMatch;
  }

  /** An empty list of wanted values admits every value. */
  method Listed(wanted: seq<string>, value: string) returns (found: bool)
    ensures found <==> wanted == [] || value in wanted
  {
    found := |wanted| == 0;
    for i := 0 to |wanted|
      invariant found <==> wanted == [] || value in wanted[..i]
    {
      if wanted[i] == value { return true; }
    }
  }

  /** The predicate that the rest of the model uses is what Match answers on an object's kind, name and labels. */
  lemma MatchesRuleMeans(rule: ExcludeRule, obj: Json, kind: string)
    ensures MatchesRule(rule, obj, kind) <==>
              var own := if kind == "" then TextAt(obj, "kind") else kind;
              && (rule.kinds == [] || own in rule.kinds)
              && (forall k | k in rule.matchLabels :: (if k in LabelsOf(obj) then LabelsOf(obj)[k] else "") == rule.matchLabels[k])
              && (rule.matchNames == [] || NameText(obj) in rule.matchNames)
  {
    forall k ensures LabelText(obj, k) == if k in LabelsOf(obj) then LabelsOf(obj)[k] else "" {}
  }

  /** An object is excluded exactly when some rule admits its kind, its name and all its wanted labels. */
  lemma ExcludedExactly(excludes: seq<ExcludeRule>, obj: Json, kind: string)
    requires kind != ""
    ensures ShouldExclude(excludes, obj, kind) <==>
              exists rule :: rule in excludes
                && (rule.kinds == [] || kind in rule.kinds) && (rule.matchNames == [] || NameText(obj) in rule.matchNames)
                && forall k | k in rule.matchLabels :: (if k in LabelsOf(obj) then LabelsOf(obj)[k] else "") == rule.matchLabels[k]
  {
    forall rule ensures MatchesRule(rule, obj, kind) <==>
                          && (rule.kinds == [] || kind in rule.kinds) && (rule.matchNames == [] || NameText(obj) in rule.matchNames)
                          && forall k | k in rule.matchLabels :: (if k in LabelsOf(obj) then LabelsOf(obj)[k] else "") == rule.matchLabels[k]
    {
      MatchesRuleMeans(rule, obj, kind);
    }
    if i :| 0 <= i < |excludes| && MatchesRule(excludes[i], obj, kind) { assert excludes[i] in excludes; }
    if rule :| rule in excludes && MatchesRule(rule, obj, kind) {
      var i :| 0 <= i < |excludes| && excludes[i] == rule;
    }
  }

  // ---------------------------------------------------------------- Init

  ghost predicate OriginalKind(groups: Groups, kind: string) {
    HasKind(groups, kind) || HasListKind(groups, kind)
  }

  ghost predicate ListsOriginalKinds(groups: Groups, kinds: seq<string>) {
    forall k :: k in kinds <==> OriginalKind(groups, k)
  }

  /** Init appends one exclude rule that lists every original kind and list kind, if there are any. */
  ghost predicate Extended(groups: Groups, before: seq<ExcludeRule>, after: seq<ExcludeRule>) {
    exists kinds | ListsOriginalKinds(groups, kinds) ::
      after == before + (if kinds == [] then [] else [ExcludeRule(kinds, [], map[])])
  }

  /** The group pairs in the order of keys, each group once. */
  predicate EnumeratedBy(groups: Groups, keys: seq<string>, pairs: Pairs) {
    && |keys| == |pairs|
    && (forall i | 0 <= i < |keys| :: keys[i] in groups && pairs[i] == PairOf(groups, keys[i]))
    && (forall i, j | 0 <= i < j < |keys| :: keys[i] != keys[j])
    && (forall g | g in groups :: g in keys)
  }

  ghost predicate Enumerates(groups: Groups, pairs: Pairs) {
    exists keys :: EnumeratedBy(groups, keys, pairs)
  }

  function PairOf(groups: Groups, g: string): (string, string)
    requires g in groups
  {
    (groups[g].groupRule.group, groups[g].groupRule.renamed)
  }

  class RewriteRules {
    const groups: Groups
    const labels: MetadataReplace
    const annotations: MetadataReplace
    const finalizers: MetadataReplace
    var excludes: seq<ExcludeRule>
    var labelsRewriter: NameRewriter
    var annotationsRewriter: NameRewriter
    var finalizersRewriter: NameRewriter
    var apiGroupsIndex: MapIndexer

    constructor (groups: Groups, labels: MetadataReplace, annotations: MetadataReplace, finalizers: MetadataReplace,
                 excludes: seq<ExcludeRule>)
      ensures this.groups == groups && this.labels == labels && this.annotations == annotations
      ensures this.finalizers == finalizers && this.excludes == excludes
    {
      this.groups, this.labels, this.annotations, this.finalizers := groups, labels, annotations, finalizers;
      this.excludes := excludes;
      var none := NameRewriter(map[], map[], map[], map[]);
      labelsRewriter, annotationsRewriter, finalizersRewriter := none, none, none;
      apiGroupsIndex := new MapIndexer();
    }

    static method NewPrefixedNameRewriter(rules: MetadataReplace) returns (r: NameRewriter)
      ensures r == NewNameRewriter(rules)
    {
      var a := IndexRules(rules.names);
      var b := IndexRulesReverse(rules.names);
      var c := IndexRules(rules.prefixes);
      var d := IndexRulesReverse(rules.prefixes);
      r := NameRewriter(a, b, c, d);
    }

    method Init()
      modifies this
      ensures labelsRewriter == NewNameRewriter(labels)
      ensures annotationsRewriter == NewNameRewriter(annotations)
      ensures finalizersRewriter == NewNameRewriter(finalizers)
      ensures Extended(groups, old(excludes), excludes)
      ensures exists pairs :: Enumerates(groups, pairs) && apiGroupsIndex.View() == AddAll(pairs)
    {
      labelsRewriter := NewPrefixedNameRewriter(labels);
      annotationsRewriter := NewPrefixedNameRewriter(annotations);
      finalizersRewriter := NewPrefixedNameRewriter(finalizers);
      var originalKinds := CollectKinds(groups);
      if |originalKinds| > 0 {
        excludes := excludes + [ExcludeRule(originalKinds, [], map[])];
      }
      assert Extended(groups, old(excludes), excludes);
      apiGroupsIndex := IndexGroups(groups);
    }
  }

  method CollectKinds(groups: Groups) returns (kinds: seq<string>)
    ensures ListsOriginalKinds(groups, kinds)
  {
    kinds := [];
    var gs := groups.Keys;
    while gs != {}
      invariant gs <= groups.Keys
      invariant forall k | k in kinds :: OriginalKind(groups, k)
      invariant forall g, p | IsRuled(groups, g, p) && g !in gs ::
                  groups[g].resourceRules[p].kind in kinds && groups[g].resourceRules[p].listKind in kinds
      decreases gs
    {
      var g :| g in gs;
      var ps := groups[g].resourceRules.Keys;
      while ps != {}
        invariant ps <= groups[g].resourceRules.Keys
        invariant forall k | k in kinds :: OriginalKind(groups, k)
        invariant forall h, p | IsRuled(groups, h, p) && h !in gs ::
                    groups[h].resourceRules[p].kind in kinds && groups[h].resourceRules[p].listKind in kinds
        invariant forall p | p in groups[g].resourceRules && p !in ps ::
                    groups[g].resourceRules[p].kind in kinds && groups[g].resourceRules[p].listKind in kinds
        decreases ps
      {
        var p :| p in ps;
        assert IsRuled(groups, g, p);
        kinds := kinds + [groups[g].resourceRules[p].kind, groups[g].resourceRules[p].listKind];
        ps := ps - {p};
      }
      gs := gs - {g};
    }
  }

  method IndexGroups(groups: Groups) returns (index: MapIndexer)
    ensures fresh(index)
    ensures exists pairs :: Enumerates(groups, pairs) && index.View() == AddAll(pairs)
  {
    index := new MapIndexer();
    ghost var keys: seq<string>, pairs: Pairs := [], [];
    var gs := groups.Keys;
    while gs != {}
      invariant gs <= groups.Keys && fresh(index)
      invariant |keys| == |pairs|
      invariant forall i | 0 <= i < |keys| :: keys[i] in groups && keys[i] !in gs && pairs[i] == PairOf(groups, keys[i])
      invariant forall i, j | 0 <= i < j < |keys| :: keys[i] != keys[j]
      invariant forall g | g in groups && g !in gs :: g in keys
      invariant index.View() == AddAll(pairs)
      decreases gs
    {
      var g :| g in gs;
      index.AddPair(groups[g].groupRule.group, groups[g].groupRule.renamed);
      assert (pairs + [PairOf(groups, g)])[..|pairs|] == pairs;
      keys, pairs := keys + [g], pairs + [PairOf(groups, g)];
      gs := gs - {g};
    }
    assert EnumeratedBy(groups, keys, pairs);
  }

  /** What Init adds to the exclusion decision: exactly the objects of an original kind. */
  lemma ExtendedDecision(groups: Groups, before: seq<ExcludeRule>, after: seq<ExcludeRule>, obj: Json, kind: string)
    requires Extended(groups, before, after)
    ensures ShouldExclude(after, obj, kind)
            <==> ShouldExclude(before, obj, kind) || OriginalKind(groups, EffectiveKind(kind, TextAt(obj, "kind")))
  {
    var kinds :| ListsOriginalKinds(groups, kinds) &&
      after == before + (if kinds == [] then [] else [ExcludeRule(kinds, [], map[])]);
    var k := EffectiveKind(kind, TextAt(obj, "kind"));
    if kinds != [] {
      assert after[|before|] == ExcludeRule(kinds, [], map[]);
      assert MatchesRule(after[|before|], obj, kind) <==> k in kinds;
    } else {
      assert k !in kinds;
    }
    forall i | 0 <= i < |before| ensures after[i] == before[i] {}
  }

  /** Repeating Init changes no exclusion decision. */
  lemma InitIsIdempotent(groups: Groups, e0: seq<ExcludeRule>, e1: seq<ExcludeRule>, e2: seq<ExcludeRule>, obj: Json, kind: string)
    requires Extended(groups, e0, e1) && Extended(groups, e1, e2)
    ensures ShouldExclude(e2, obj, kind) <==> ShouldExclude(e1, obj, kind)
  {
    ExtendedDecision(groups, e0, e1, obj, kind);
    ExtendedDecision(groups, e1, e2, obj, kind);
  }

  lemma EnumeratedPairs(groups: Groups, keys: seq<string>, pairs: Pairs)
    requires EnumeratedBy(groups, keys, pairs)
    requires forall g | g in groups :: groups[g].groupRule.group == g
    requires forall g, h | g in groups && h in groups && groups[g].groupRule.renamed == groups[h].groupRule.renamed :: g == h
    ensures Distinct(pairs)
    ensures forall o, n :: (o, n) in pairs <==> o in groups && groups[o].groupRule.renamed == n
  {
    forall o, n ensures (o, n) in pairs <==> o in groups && groups[o].groupRule.renamed == n {
      if o in groups && groups[o].groupRule.renamed == n {
        var i :| 0 <= i < |keys| && keys[i] == o;
        assert pairs[i] == (o, n);
      }
    }
  }

  /** Keyed by their own names and with distinct renames, the groups index the same way in every order. */
  lemma InitIndex(groups: Groups, pairs: Pairs)
    requires Enumerates(groups, pairs)
    requires forall g | g in groups :: groups[g].groupRule.group == g
    requires forall g, h | g in groups && h in groups && groups[g].groupRule.renamed == groups[h].groupRule.renamed :: g == h
    ensures AddAll(pairs).idx == map g | g in groups :: groups[g].groupRule.renamed
    ensures Inverse(AddAll(pairs).idx, AddAll(pairs).reverse)
  {
    var keys :| EnumeratedBy(groups, keys, pairs);
    EnumeratedPairs(groups, keys, pairs);
    IndexInverts(pairs);
    var idx := AddAll(pairs).idx;
    forall g | g in groups ensures g in idx && idx[g] == groups[g].groupRule.renamed {
      IndexIsThePairs(pairs, g, groups[g].groupRule.renamed);
    }
    forall g | g in idx ensures g in groups {
      IndexIsThePairs(pairs, g, idx[g]);
    }
  }

  // ---------------------------------------------------------------- FilterExcludes

  predicate Excludable(kind: string) {
    kind !in {"APIGroupList", "APIGroup", "APIResourceList", "APIGroupDiscoveryList", "AdmissionReview"}
  }

  ghost function ExcludeItem(rs: Rules, kind: string): Json -> Outcome<Json> {
    item => if ShouldExclude(rs.excludes, item, kind) then Skip else Keep
  }

  ghost function FilterExcludes(rs: Rules, obj: Json, action: Action): Outcome<Json> {
    var kind := TextAt(obj, "kind");
    if action.Renaming? || !Excludable(kind) then Replace(obj)
    else if ShouldExclude(rs.excludes, obj, kind) then Skip
    else if !HasSuffix(kind, "List") then Replace(obj)
    else match RewriteArray(obj, "items", ExcludeItem(rs, TrimSuffix(kind, "List")))
      case Some(out) => Replace(out)
      case None => Abort
  }

  /** A list passes with exactly its non-excluded items, unchanged and in order. Filtering never fails. */
  lemma FilteredList(rs: Rules, obj: Json)
    requires var kind := TextAt(obj, "kind");
             Excludable(kind) && HasSuffix(kind, "List") && !ShouldExclude(rs.excludes, obj, kind)
    ensures var single := TrimSuffix(TextAt(obj, "kind"), "List");
            var items := ItemsAt(obj, "items");
            var out := FilterExcludes(rs, obj, Restoring);
            && out.Replace?
            && FilterMap(items, ExcludeItem(rs, single)) == Some(ItemsAt(out.body, "items"))
            && FilterMap(ItemsAt(out.body, "items"), ExcludeItem(rs, single)) == Some(ItemsAt(out.body, "items"))
            && (forall x :: x in ItemsAt(out.body, "items") <==> x in items && !ShouldExclude(rs.excludes, x, single))
  {
    KeepOrSkipFilters(ItemsAt(obj, "items"), ExcludeItem(rs, TrimSuffix(TextAt(obj, "kind"), "List")));
  }

  lemma DecisionIgnoresItems(excludes: seq<ExcludeRule>, obj: Json, items: Json, kind: string)
    requires obj.Obj?
    ensures ShouldExclude(excludes, Set(obj, "items", items), kind) <==> ShouldExclude(excludes, obj, kind)
  {
    var out := Set(obj, "items", items);
    assert Get(out, "metadata") == Get(obj, "metadata") && Get(out, "kind") == Get(obj, "kind");
    assert forall rule :: MatchesRule(rule, out, kind) == MatchesRule(rule, obj, kind);
  }

  /** Filtering what was filtered changes nothing, list or single object. */
  lemma FilterIsIdempotent(rs: Rules, obj: Json, action: Action)
    ensures match FilterExcludes(rs, obj, action)
            case Replace(out) => FilterExcludes(rs, out, action) == Replace(out)
            case Skip => true
            case _ => false
  {
    var kind := TextAt(obj, "kind");
    if action.Restoring? && Excludable(kind) && !ShouldExclude(rs.excludes, obj, kind) && HasSuffix(kind, "List") {
      FilteredList(rs, obj);
      if ItemsAt(obj, "items") != [] {
        var out := FilterExcludes(rs, obj, action).body;
        DecisionIgnoresItems(rs.excludes, obj, Arr(ItemsAt(out, "items")), kind);
        assert out == Set(obj, "items", Arr(ItemsAt(out, "items"))) && TextAt(out, "kind") == kind;
        assert Set(out, "items", Arr(ItemsAt(out, "items"))) == out;
      }
    }
  }
}
