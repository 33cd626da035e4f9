/**
  Names of labels, annotations and finalizers: PrefixedNameRewriter.

  A rewriter holds four maps. A name is looked up in three layers: the pair `name=value`, then
  the exact name, then the part before the first slash. Restoring a name that is itself an
  original hides it behind a `preserved-original-` prefix, and renaming takes the prefix off.
 */
module NameRewriting {
  import opened Text

  const PRESERVED := "preserved-original-"

  datatype ReplaceRule = ReplaceRule(original: string, renamed: string, originalValue: string, renamedValue: string)
  {
    /** Only a rule that gives both values is a value rule. */
    predicate HasValues() {
      originalValue != "" && renamedValue != ""
    }

    function Key(): string {
      if HasValues() then JoinKV(original, originalValue) else original
    }

    /** The same rule read from the server's side. */
    function Flip(): ReplaceRule {
      ReplaceRule(renamed, original, renamedValue, originalValue)
    }
  }

  datatype MetadataReplace = MetadataReplace(prefixes: seq<ReplaceRule>, names: seq<ReplaceRule>)

  datatype NameRewriter = NameRewriter(
    namesRename: map<string, string>,
    namesRestore: map<string, string>,
    prefixRename: map<string, string>,
    prefixRestore: map<string, string>)

  function JoinKV(name: string, value: string): string {
    name + "=" + value
  }

  function SplitKV(s: string): (string, string) {
    var c := Cut(s, '=');
    (c.before, c.after)
  }

  lemma SplitOfJoin(name: string, value: string)
    requires '=' !in name
    ensures SplitKV(JoinKV(name, value)) == (name, value)
  {
    CutOfJoin(name, '=', value);
  }

  // ---------------------------------------------------------------- indexes

  function FlipAll(rules: seq<ReplaceRule>): seq<ReplaceRule> {
    seq(|rules|, i requires 0 <= i < |rules| => rules[i].Flip())
  }

  /** Later rules overwrite earlier ones. */
  function Indexed(rules: seq<ReplaceRule>): map<string, string> {
    if rules == [] then map[]
    else
      var last := rules[|rules| - 1];
      Indexed(rules[..|rules| - 1])[last.Key() := last.Flip().Key()]
  }

  method IndexRules(rules: seq<ReplaceRule>) returns (idx: map<string, string>)
    ensures idx == Indexed(rules)
  {
    idx := map[];
    for i := 0 to |rules|
      invariant idx == Indexed(rules[..i])
    {
      var rule := rules[i];
      assert rules[..i + 1][..i] == rules[..i];
      if rule.originalValue != "" && rule.renamedValue != "" {
        idx := idx[JoinKV(rule.original, rule.originalValue) := rule.renamed + "=" + rule.renamedValue];
      } else {
        idx := idx[rule.original := rule.renamed];
      }
    }
    assert rules[..|rules|] == rules;
  }

  method IndexRulesReverse(rules: seq<ReplaceRule>) returns (idx: map<string, string>)
    ensures idx == Indexed(FlipAll(rules))
  {
    idx := map[];
    var flipped := FlipAll(rules);
    for i := 0 to |rules|
      invariant idx == Indexed(flipped[..i])
    {
      var rule := rules[i];
      assert flipped[..i + 1][..i] == flipped[..i];
      if rule.originalValue != "" && rule.renamedValue != "" {
        idx := idx[JoinKV(rule.renamed, rule.renamedValue) := rule.original + "=" + rule.originalValue];
      } else {
        idx := idx[rule.renamed := rule.original];
      }
    }
    assert flipped[..|rules|] == flipped;
  }

  function NewNameRewriter(rules: MetadataReplace): NameRewriter {
    NameRewriter(Indexed(rules.names), Indexed(FlipAll(rules.names)),
                 Indexed(rules.prefixes), Indexed(FlipAll(rules.prefixes)))
  }

  // ---------------------------------------------------------------- lookup

  predicate IsPreserved(name: string) {
    HasPrefix(name, PRESERVED)
  }

  /** The name layer, then the prefix layer. */
  function PlainLookup(names: map<string, string>, prefixes: map<string, string>, name: string): Option<string> {
    if name in names then Some(names[name])
    else
      var c := Cut(name, '/');
      if c.found && c.before in prefixes then Some(prefixes[c.before] + "/" + c.after) else None
  }

  /** All three layers. */
  function Lookup(names: map<string, string>, prefixes: map<string, string>, name: string, value: string)
    : Option<(string, string)>
  {
    if value != "" && JoinKV(name, value) in names then Some(SplitKV(names[JoinKV(name, value)]))
    else match PlainLookup(names, prefixes, name)
      case Some(m) => Some((m, value))
      case None => None
  }

  predicate IsOriginal(r: NameRewriter, name: string, value: string) {
    Lookup(r.namesRename, r.prefixRename, name, value).Some?
  }

  predicate IsRenamed(r: NameRewriter, name: string, value: string) {
    Lookup(r.namesRestore, r.prefixRestore, name, value).Some?
  }

  function Rename(r: NameRewriter, name: string, value: string): (string, string) {
    if IsPreserved(name) then (TrimPrefix(name, PRESERVED), value)
    else match Lookup(r.namesRename, r.prefixRename, name, value)
      case Some(nv) => nv
      case None => (name, value)
  }

  function Restore(r: NameRewriter, name: string, value: string): (string, string) {
    if IsOriginal(r, name, value) then (PRESERVED + name, value)
    else match Lookup(r.namesRestore, r.prefixRestore, name, value)
      case Some(nv) => nv
      case None => (name, value)
  }

  // ---------------------------------------------------------------- the linear scan

  function LastValueRule(rules: seq<ReplaceRule>, name: string, value: string): Option<ReplaceRule> {
    if rules == [] then None
    else
      var last := rules[|rules| - 1];
      if last.HasValues() && last.original == name && last.originalValue == value then Some(last)
      else LastValueRule(rules[..|rules| - 1], name, value)
  }

  function LastPlainRule(rules: seq<ReplaceRule>, name: string): Option<ReplaceRule> {
    if rules == [] then None
    else
      var last := rules[|rules| - 1];
      if !last.HasValues() && last.original == name then Some(last)
      else LastPlainRule(rules[..|rules| - 1], name)
  }

  /** What the rule list means, read as a list: the last matching rule of the first layer that matches. */
  function Scan(rules: MetadataReplace, name: string, value: string): Option<(string, string)> {
    match LastValueRule(rules.names, name, value)
    case Some(rule) => Some((rule.renamed, rule.renamedValue))
    case None =>
      match LastPlainRule(rules.names, name)
      case Some(rule) => Some((rule.renamed, value))
      case None =>
        var c := Cut(name, '/');
        if !c.found then None
        else match LastPlainRule(rules.prefixes, c.before)
          case Some(rule) => Some((rule.renamed + "/" + c.after, value))
          case None => None
  }

  function FlipRules(rules: MetadataReplace): MetadataReplace {
    MetadataReplace(FlipAll(rules.prefixes), FlipAll(rules.names))
  }

  function ScanRename(rules: MetadataReplace, name: string, value: string): (string, string) {
    if IsPreserved(name) then (TrimPrefix(name, PRESERVED), value)
    else match Scan(rules, name, value) case Some(nv) => nv case None => (name, value)
  }

  function ScanRestore(rules: MetadataReplace, name: string, value: string): (string, string) {
    if Scan(rules, name, value).Some? then (PRESERVED + name, value)
    else match Scan(FlipRules(rules), name, value) case Some(nv) => nv case None => (name, value)
  }

  predicate EqualsFree(rules: seq<ReplaceRule>) {
    forall rule | rule in rules :: '=' !in rule.original && '=' !in rule.renamed
  }

  /** The index holds, under name=value, what the last such rule says; names are '='-free, so nothing else gets in the way. */
  lemma {:induction false} IndexedPairMeansLast(rules: seq<ReplaceRule>, name: string, value: string)
    requires EqualsFree(rules) && '=' !in name && value != ""
    ensures var idx, pair := Indexed(rules), JoinKV(name, value);
            match LastValueRule(rules, name, value)
            case Some(rule) => pair in idx && SplitKV(idx[pair]) == (rule.renamed, rule.renamedValue)
            case None => pair !in idx
  {
    if rules != [] {
      var last := rules[|rules| - 1];
      IndexedPairMeansLast(rules[..|rules| - 1], name, value);
      SplitOfJoin(name, value);
      SplitOfJoin(last.original, last.originalValue);
      SplitOfJoin(last.renamed, last.renamedValue);
      assert '=' in JoinKV(name, value);
    }
  }

  lemma {:induction false} NoRuleForEmptyValue(rules: seq<ReplaceRule>, name: string)
    ensures LastValueRule(rules, name, "").None?
  {
    if rules != [] { NoRuleForEmptyValue(rules[..|rules| - 1], name); }
  }

  lemma IndexedMeansLast(rules: seq<ReplaceRule>, name: string, value: string)
    requires EqualsFree(rules) && '=' !in name
    ensures var idx := Indexed(rules);
            && (value != "" ==>
                  match LastValueRule(rules, name, value)
                  case Some(rule) => JoinKV(name, value) in idx && SplitKV(idx[JoinKV(name, value)]) == (rule.renamed, rule.renamedValue)
                  case None => JoinKV(name, value) !in idx)
            && (value == "" ==> LastValueRule(rules, name, value).None?)
            && match LastPlainRule(rules, name)
               case Some(rule) => name in idx && idx[name] == rule.renamed
               case None => name !in idx
  {
    if value == "" { NoRuleForEmptyValue(rules, name); } else { IndexedPairMeansLast(rules, name, value); }
    IndexedPrefixMeansLast(rules, name);
  }

  /** A prefix is only ever looked up '='-free, so the prefix list needs no condition. */
  lemma {:induction false} IndexedPrefixMeansLast(rules: seq<ReplaceRule>, name: string)
    requires '=' !in name
    ensures match LastPlainRule(rules, name)
            case Some(rule) => name in Indexed(rules) && Indexed(rules)[name] == rule.renamed
            case None => name !in Indexed(rules)
  {
    if rules != [] {
      var last := rules[|rules| - 1];
      IndexedPrefixMeansLast(rules[..|rules| - 1], name);
      assert '=' in JoinKV(last.original, last.originalValue);
    }
  }

  lemma LookupIsScan(rules: MetadataReplace, name: string, value: string)
    requires EqualsFree(rules.names) && '=' !in name
    ensures Lookup(Indexed(rules.names), Indexed(rules.prefixes), name, value) == Scan(rules, name, value)
  {
    IndexedMeansLast(rules.names, name, value);
    var c := Cut(name, '/');
    IndexedPrefixMeansLast(rules.prefixes, c.before);
  }

  /** The four maps compute exactly what reading the rule list computes. */
  lemma IndexesRefineScan(rules: MetadataReplace, name: string, value: string)
    requires EqualsFree(rules.names) && '=' !in name
    ensures Rename(NewNameRewriter(rules), name, value) == ScanRename(rules, name, value)
    ensures Restore(NewNameRewriter(rules), name, value) == ScanRestore(rules, name, value)
  {
    LookupIsScan(rules, name, value);
    LookupIsScan(FlipRules(rules), name, value);
  }
}
