/** Custom resource definitions: renamed when a client creates them, restored when it reads them. */
module Crd {
  import opened Text
  import opened Rules
  import opened Json
  import opened Arrays
  import opened Transforms
  import opened Excludes

  function PrefixAll(prefix: string, names: seq<string>): seq<string> {
    seq(|names|, i requires 0 <= i < |names| => prefix + names[i])
  }

  function TrimAll(prefix: string, names: seq<string>): seq<string> {
    seq(|names|, i requires 0 <= i < |names| => TrimPrefix(names[i], prefix))
  }

  /** A list that may never have been set: then it is written as null. */
  function OptionalStrings(names: Option<seq<string>>): Json {
    match names case Some(items) => Strings(items) case None => Null
  }

  /** What renameCRDSpec writes into spec.names, field by field. */
  function RenamedNames(rs: Rules, rule: ResourceRule): Fields {
    map["categories" := if rule.categories.None? || rule.categories.value == [] then Strings([]) else OptionalStrings(rs.categories),
        "kind" := Str(RenameKind(rs, rule.kind)),
        "listKind" := Str(RenameKind(rs, rule.listKind)),
        "plural" := Str(RenameResource(rs, rule.plural)),
        "singular" := Str(RenameResource(rs, rule.singular)),
        "shortNames" := Strings(PrefixAll(rs.shortNamePrefix, rule.shortNames))]
  }

  /** What RestoreCRD writes into spec.names, field by field. */
  function RestoredNames(rs: Rules, rule: ResourceRule): Fields {
    map["categories" := OptionalStrings(rule.categories),
        "kind" := Str(RestoreKind(rs, rule.kind)),
        "listKind" := Str(RestoreKind(rs, rule.listKind)),
        "plural" := Str(RestoreResource(rs, rule.plural)),
        "singular" := Str(RestoreResource(rs, rule.singular)),
        "shortNames" := Strings(TrimAll(rs.shortNamePrefix, rule.shortNames))]
  }

  /** Only fields that are already there are written. */
  function Overwrite(m: Fields, values: Fields): Fields {
    map k | k in m :: if k in values then values[k] else m[k]
  }

  function FieldsOf(v: Option<Json>): Fields {
    match v case Some(j) => (if j.Obj? then j.fields else map[]) case None => map[]
  }

  ghost function RenameCrdSpec(rs: Rules, rule: ResourceRule, spec: Json): Json {
    var spec1 := TransformString(spec, "group", g => RenameApiVersion(rs.groupIndex, g));
    WithNames(spec1, Overwrite(FieldsOf(Get(spec1, "names")), RenamedNames(rs, rule)))
  }

  function WithNames(spec: Json, names: Fields): Json {
    Set(spec, "names", Obj(names))
  }

  function RestoreCrdSpec(restored: Fields, spec: Json, group: string): Json {
    var spec1 := Set(spec, "group", Str(group));
    WithNames(spec1, FieldsOf(Get(spec1, "names")) + restored)
  }

  ghost function SetName(obj: Json, name: string): Json {
    Set(obj, "metadata", Set(Obj(FieldsOf(Get(obj, "metadata"))), "name", Str(name)))
  }

  ghost function RenameCRD(rs: Rules, obj: Json): Outcome<Json> {
    var c := Cut(NameText(obj), '.');
    if !c.found then Abort
    else match ResourceRules(rs, c.after, c.before)
      case None => Keep
      case Some(rule) =>
        var name := RenameResource(rs, c.before) + "." + RenameApiVersion(rs.groupIndex, c.after);
        Replace(Set(SetName(obj, name), "spec", RenameCrdSpec(rs, rule, Obj(FieldsOf(Get(obj, "spec"))))))
  }

  ghost function RestoreCRD(rs: Rules, obj: Json): Outcome<Json> {
    var c := Cut(NameText(obj), '.');
    if !c.found then Abort
    else if HasGroup(rs, c.after) then Skip
    else if !IsRenamedGroup(rs, c.after) then Keep
    else match GroupResourceRules(rs, RestoreResource(rs, c.before))
      case None => Keep
      case Some((groupRule, rule)) =>
        var spec := RestoreCrdSpec(RestoredNames(rs, rule), Obj(FieldsOf(Get(obj, "spec"))), groupRule.group);
        Replace(Set(SetName(obj, rule.plural + "." + groupRule.group), "spec", spec))
  }

  lemma KindStays(obj: Json, name: string, spec: Json)
    ensures TextAt(Set(SetName(obj, name), "spec", spec), "kind") == TextAt(obj, "kind")
  {
    assert Get(SetName(obj, name), "kind") == Get(obj, "kind");
  }

  /** Neither direction touches the kind. */
  lemma RenameCrdKeepsKind(rs: Rules, obj: Json)
    requires RenameCRD(rs, obj).Replace?
    ensures TextAt(RenameCRD(rs, obj).body, "kind") == TextAt(obj, "kind")
  {
    var c := Cut(NameText(obj), '.');
    var rule := ResourceRules(rs, c.after, c.before).value;
    KindStays(obj, RenameResource(rs, c.before) + "." + RenameApiVersion(rs.groupIndex, c.after),
              RenameCrdSpec(rs, rule, Obj(FieldsOf(Get(obj, "spec")))));
  }

  lemma RestoreCrdKeepsKind(rs: Rules, obj: Json)
    requires RestoreCRD(rs, obj).Replace?
    ensures TextAt(RestoreCRD(rs, obj).body, "kind") == TextAt(obj, "kind")
  {
    var c := Cut(NameText(obj), '.');
    var (groupRule, rule) := GroupResourceRules(rs, RestoreResource(rs, c.before)).value;
    KindStays(obj, rule.plural + "." + groupRule.group,
              RestoreCrdSpec(RestoredNames(rs, rule), Obj(FieldsOf(Get(obj, "spec"))), groupRule.group));
  }

  // ---------------------------------------------------------------- which CRDs are touched

  /** Renaming fails on a name without a dot, and leaves alone exactly the CRDs that no rule of their group knows. */
  lemma RenameCrdOutcome(rs: Rules, obj: Json, plural: string, group: string)
    ensures '.' !in NameText(obj) ==> RenameCRD(rs, obj) == Abort
    ensures NameText(obj) == plural + "." + group && '.' !in plural && '/' !in plural && '/' !in group ==>
              RenameCRD(rs, obj).Replace? == IsRuled(rs.groups, group, plural) && (RenameCRD(rs, obj).Replace? || RenameCRD(rs, obj) == Keep)
  {
    if NameText(obj) == plural + "." + group && '.' !in plural { CutOfJoin(plural, '.', group); }
  }

  /** Restoring also skips the CRDs of original groups, and leaves alone those of groups that nobody renames or whose plural no rule knows. */
  lemma RestoreCrdOutcome(rs: Rules, obj: Json, plural: string, group: string)
    ensures '.' !in NameText(obj) ==> RestoreCRD(rs, obj) == Abort
    ensures NameText(obj) == plural + "." + group && '.' !in plural && '/' !in plural && '/' !in group ==>
              && (RestoreCRD(rs, obj) == Skip <==> group in rs.groups)
              && (RestoreCRD(rs, obj) == Keep
                  <==> group !in rs.groups && (group !in rs.groupIndex.reverse || !HasPlural(rs.groups, TrimPrefix(plural, rs.resourceTypePrefix))))
  {
    if NameText(obj) == plural + "." + group && '.' !in plural { CutOfJoin(plural, '.', group); }
  }

  // ---------------------------------------------------------------- what a renamed CRD contains

  /** The name under field, if there is one, is this value afterwards; otherwise it stays absent. */
  predicate NameTo(before: Json, after: Json, field: string, value: Json) {
    Get(after, field) == if Get(before, field).Some? then Some(value) else None
  }

  function PrefixedNames(prefix: string, names: seq<string>): seq<string> {
    if names == [] then [] else [prefix + names[0]] + PrefixedNames(prefix, names[1..])
  }

  /** The six names of a CRD, each prefixed as the rule says, and all others as they were. */
  ghost predicate NamesPrefixed(rs: Rules, rule: ResourceRule, names: Json, out: Json) {
    && NameTo(names, out, "kind", Str(rs.kindPrefix + rule.kind))
    && NameTo(names, out, "listKind", Str(rs.kindPrefix + rule.listKind))
    && NameTo(names, out, "plural", Str(rs.resourceTypePrefix + rule.plural))
    && NameTo(names, out, "singular", Str(rs.resourceTypePrefix + rule.singular))
    && NameTo(names, out, "shortNames", Strings(PrefixedNames(rs.shortNamePrefix, rule.shortNames)))
    && NameTo(names, out, "categories",
              if rule.categories.None? || rule.categories.value == [] then Arr([])
              else if rs.categories.None? then Null else Strings(rs.categories.value))
    && forall field | field !in {"kind", "listKind", "plural", "singular", "shortNames", "categories"} :: Get(out, field) == Get(names, field)
  }

  lemma {:induction false} PrefixedNamesAre(prefix: string, names: seq<string>)
    ensures PrefixedNames(prefix, names) == PrefixAll(prefix, names)
  {
    if names != [] { PrefixedNamesAre(prefix, names[1..]); }
  }

  lemma NamesAreRenamed(rs: Rules, rule: ResourceRule, names: Fields)
    ensures NamesPrefixed(rs, rule, Obj(names), Obj(Overwrite(names, RenamedNames(rs, rule))))
  {
    var values := RenamedNames(rs, rule);
    RenamedNamesAt(rs, rule);
    forall field
      ensures field in values ==> NameTo(Obj(names), Obj(Overwrite(names, values)), field, values[field])
      ensures field !in values ==> Get(Obj(Overwrite(names, values)), field) == Get(Obj(names), field)
    {
    }
    assert "kind" in values && "listKind" in values && "plural" in values;
    assert "singular" in values && "shortNames" in values && "categories" in values;
  }

  lemma RenamedNamesAt(rs: Rules, rule: ResourceRule)
    ensures var values := RenamedNames(rs, rule);
            && values.Keys == {"kind", "listKind", "plural", "singular", "shortNames", "categories"}
            && values["kind"] == Str(rs.kindPrefix + rule.kind) && values["listKind"] == Str(rs.kindPrefix + rule.listKind)
            && values["plural"] == Str(rs.resourceTypePrefix + rule.plural) && values["singular"] == Str(rs.resourceTypePrefix + rule.singular)
            && values["shortNames"] == Strings(PrefixedNames(rs.shortNamePrefix, rule.shortNames))
            && values["categories"] == if rule.categories.None? || rule.categories.value == [] then Arr([])
                                       else if rs.categories.None? then Null else Strings(rs.categories.value)
  {
    PrefixedNamesAre(rs.shortNamePrefix, rule.shortNames);
    assert Strings([]) == Arr([]);
  }

  /** What a ruled CRD becomes: name, group and names prefixed or renamed, everything else kept. */
  ghost predicate CrdRenamedTo(rs: Rules, obj: Json, out: Json, plural: string, group: string, renamed: string, rule: ResourceRule) {
    match (Get(obj, "metadata"), Get(obj, "spec"), Get(out, "metadata"), Get(out, "spec"))
    case (Some(m), Some(s), Some(m'), Some(s')) =>
      && Get(m', "name") == Some(Str(rs.resourceTypePrefix + plural + "." + renamed))
      && (forall field | field != "name" :: Get(m', field) == Get(m, field))
      && (match Get(s, "group") case Some(g) => (AsText(g) == group ==> Get(s', "group") == Some(Str(renamed))) case None => Get(s', "group").None?)
      && Get(s, "names").Some? && Get(s', "names").Some? && NamesPrefixed(rs, rule, Get(s, "names").value, Get(s', "names").value)
      && (forall field | field != "group" && field != "names" :: Get(s', field) == Get(s, field))
      && (forall field | field != "metadata" && field != "spec" :: Get(out, field) == Get(obj, field))
    case _ => false
  }

  lemma SpecIsRenamed(rs: Rules, rule: ResourceRule, spec: Json)
    requires spec.Obj? && Get(spec, "names").Some? && Get(spec, "names").value.Obj?
    ensures var out := RenameCrdSpec(rs, rule, spec);
            && Get(out, "names").Some? && NamesPrefixed(rs, rule, Get(spec, "names").value, Get(out, "names").value)
            && (match Get(spec, "group")
                case Some(g) => Get(out, "group") == Some(Str(RenameApiVersion(rs.groupIndex, AsText(g))))
                case None => Get(out, "group").None?)
            && (forall field | field != "group" && field != "names" :: Get(out, field) == Get(spec, field))
  {
    NamesAreRenamed(rs, rule, Get(spec, "names").value.fields);
    assert Obj(Get(spec, "names").value.fields) == Get(spec, "names").value;
  }

  lemma NameIsSet(obj: Json, name: string, spec: Json)
    requires obj.Obj? && Get(obj, "metadata").Some? && Get(obj, "metadata").value.Obj?
    ensures var out := Set(SetName(obj, name), "spec", spec);
            && Get(out, "spec") == Some(spec) && Get(out, "metadata").Some?
            && Get(Get(out, "metadata").value, "name") == Some(Str(name))
            && (forall field | field != "name" :: Get(Get(out, "metadata").value, field) == Get(Get(obj, "metadata").value, field))
            && (forall field | field != "metadata" && field != "spec" :: Get(out, field) == Get(obj, field))
  {
  }

  lemma CrdIsRenamed(rs: Rules, obj: Json, plural: string, group: string)
    requires RenamesApart(rs) && CoherentResources(rs) && IsRuled(rs.groups, group, plural)
    requires IsCrd(obj, plural, group)
    ensures RenameCRD(rs, obj).Replace?
    ensures CrdRenamedTo(rs, obj, RenameCRD(rs, obj).body, plural, group, rs.groupIndex.idx[group], rs.groups[group].resourceRules[plural])
  {
    var rule := rs.groups[group].resourceRules[plural];
    RenamedCrdName(rs, plural, group);
    CrdHasParts(obj, plural, group);
    RenameCrdUnfolds(rs, obj, plural + "." + group, plural, group, rule);
    var name := RenameResource(rs, plural) + "." + RenameApiVersion(rs.groupIndex, group);
    SpecIsRenamed(rs, rule, Get(obj, "spec").value);
    NameIsSet(obj, name, RenameCrdSpec(rs, rule, Get(obj, "spec").value));
  }

  /** What a renamed CRD of the server's becomes: original name and group, all six names set, everything else kept. */
  ghost predicate CrdRestoredTo(obj: Json, out: Json, plural: string, group: string, names: Fields) {
    match (Get(obj, "metadata"), Get(obj, "spec"), Get(out, "metadata"), Get(out, "spec"))
    case (Some(m), Some(s), Some(m'), Some(s')) =>
      && Get(m', "name") == Some(Str(plural + "." + group))
      && (forall field | field != "name" :: Get(m', field) == Get(m, field))
      && Get(s', "group") == Some(Str(group)) && Get(s', "names").Some?
      && (forall field :: Get(Get(s', "names").value, field) == if field in names then Some(names[field]) else Get2(s, "names", field))
      && (forall field | field != "group" && field != "names" :: Get(s', field) == Get(s, field))
      && (forall field | field != "metadata" && field != "spec" :: Get(out, field) == Get(obj, field))
    case _ => false
  }

  lemma SpecIsRestored(names: Fields, spec: Json, group: string)
    requires spec.Obj? && Get(spec, "names").Some? && Get(spec, "names").value.Obj?
    ensures var out := RestoreCrdSpec(names, spec, group);
            && Get(out, "group") == Some(Str(group)) && Get(out, "names").Some?
            && (forall field :: Get(Get(out, "names").value, field) == if field in names then Some(names[field]) else Get2(spec, "names", field))
            && (forall field | field != "group" && field != "names" :: Get(out, field) == Get(spec, field))
  {
  }

  lemma CrdIsRestored(rs: Rules, obj: Json, plural: string, group: string)
    requires RenamesApart(rs) && CoherentResources(rs) && IsRuled(rs.groups, group, plural)
    requires IsCrd(obj, rs.resourceTypePrefix + plural, rs.groupIndex.idx[group])
    ensures RestoreCRD(rs, obj).Replace?
    ensures CrdRestoredTo(obj, RestoreCRD(rs, obj).body, plural, group, RestoredNames(rs, rs.groups[group].resourceRules[plural]))
  {
    var rule, renamed := rs.groups[group].resourceRules[plural], rs.groupIndex.idx[group];
    RenamedCrdName(rs, plural, group);
    CrdHasParts(obj, rs.resourceTypePrefix + plural, renamed);
    RestoreCrdUnfolds(rs, obj, rs.resourceTypePrefix + plural, renamed, (GroupRule(group, renamed), rule));
    SpecIsRestored(RestoredNames(rs, rule), Get(obj, "spec").value, group);
    NameIsSet(obj, plural + "." + group, RestoreCrdSpec(RestoredNames(rs, rule), Get(obj, "spec").value, group));
  }

  // ---------------------------------------------------------------- round trip

  predicate NoneStartWith(prefix: string, names: seq<string>) {
    prefix == "" || forall i | 0 <= i < |names| :: !(prefix <= names[i])
  }

  /** No name of the rule starts with its own prefix. */
  predicate Unprefixed(rs: Rules, rule: ResourceRule) {
    && NoneStartWith(rs.kindPrefix, [rule.kind, rule.listKind]) && NoneStartWith(rs.resourceTypePrefix, [rule.plural, rule.singular])
    && NoneStartWith(rs.shortNamePrefix, rule.shortNames)
  }

  /** The names of the rule, as they stand there. */
  function OwnNamesOf(rule: ResourceRule): Fields {
    map["kind" := Str(rule.kind), "listKind" := Str(rule.listKind), "plural" := Str(rule.plural), "singular" := Str(rule.singular),
        "shortNames" := Strings(rule.shortNames), "categories" := if rule.categories.None? then Null else Strings(rule.categories.value)]
  }

  /** What a CRD is restored to are the rule's own names exactly when none of them starts with its prefix. */
  lemma RestoredToTheRule(rs: Rules, rule: ResourceRule)
    ensures RestoredNames(rs, rule) == OwnNamesOf(rule) <==> Unprefixed(rs, rule)
  {
    var restored, own := RestoredNames(rs, rule), OwnNamesOf(rule);
    NothingToTrim(rs.kindPrefix, rule.kind);
    NothingToTrim(rs.kindPrefix, rule.listKind);
    NothingToTrim(rs.resourceTypePrefix, rule.plural);
    NothingToTrim(rs.resourceTypePrefix, rule.singular);
    NothingToTrimIn(rs.shortNamePrefix, rule.shortNames);
    TwoUnprefixed(rs.kindPrefix, rule.kind, rule.listKind);
    TwoUnprefixed(rs.resourceTypePrefix, rule.plural, rule.singular);
    assert restored.Keys == own.Keys && restored["categories"] == own["categories"];
    if restored == own {
      assert restored["kind"] == own["kind"] && restored["listKind"] == own["listKind"] && restored["plural"] == own["plural"];
      assert restored["singular"] == own["singular"] && restored["shortNames"] == own["shortNames"];
    }
  }

  lemma TwoUnprefixed(prefix: string, a: string, b: string)
    ensures NoneStartWith(prefix, [a, b]) <==> prefix == "" || (!(prefix <= a) && !(prefix <= b))
  {
    assert [a, b][0] == a && [a, b][1] == b;
  }

  lemma NothingToTrim(prefix: string, name: string)
    ensures TrimPrefix(name, prefix) == name <==> prefix == "" || !(prefix <= name)
  {
  }

  lemma NothingToTrimIn(prefix: string, names: seq<string>)
    ensures Strings(TrimAll(prefix, names)) == Strings(names) <==> NoneStartWith(prefix, names)
  {
    var trimmed := TrimAll(prefix, names);
    forall i | 0 <= i < |names| ensures trimmed[i] == names[i] <==> prefix == "" || !(prefix <= names[i]) { NothingToTrim(prefix, names[i]); }
    if Strings(trimmed) == Strings(names) {
      forall i | 0 <= i < |names| ensures trimmed[i] == names[i] { assert Strings(trimmed).items[i] == Strings(names).items[i]; }
    }
    if NoneStartWith(prefix, names) { assert trimmed == names; }
  }

  predicate IsCrd(obj: Json, plural: string, group: string) {
    && obj.Obj?
    && (match Get(obj, "metadata") case Some(m) => Get(m, "name") == Some(Str(plural + "." + group)) case None => false)
    && (match Get(obj, "spec") case Some(s) => (match Get(s, "names") case Some(n) => n.Obj? case None => false) case None => false)
  }

  /** The CRD says about its group and names what the rule restores them to. */
  predicate AgreesWithRule(rs: Rules, obj: Json, group: string, rule: ResourceRule) {
    match Get(obj, "spec")
    case None => false
    case Some(spec) =>
      && Get(spec, "group") == Some(Str(group))
      && match Get(spec, "names")
         case None => false
         case Some(names) => forall k | k in RestoredNames(rs, rule) :: Get(names, k) == Some(RestoredNames(rs, rule)[k])
  }

  lemma RenamedCrdName(rs: Rules, plural: string, group: string)
    requires RenamesApart(rs) && CoherentResources(rs) && IsRuled(rs.groups, group, plural)
    ensures Cut(plural + "." + group, '.') == CutResult(plural, group, true)
    ensures ResourceRules(rs, group, plural) == Some(rs.groups[group].resourceRules[plural])
    ensures var renamed := rs.groupIndex.idx[group];
            && RenameApiVersion(rs.groupIndex, group) == renamed
            && Cut(RenameResource(rs, plural) + "." + renamed, '.') == CutResult(RenameResource(rs, plural), renamed, true)
            && !HasGroup(rs, renamed) && IsRenamedGroup(rs, renamed)
    ensures GroupResourceRules(rs, RestoreResource(rs, RenameResource(rs, plural)))
            == Some((GroupRule(group, rs.groupIndex.idx[group]), rs.groups[group].resourceRules[plural]))
  {
    CutOfJoin(plural, '.', group);
    CutOfJoin(RenameResource(rs, plural), '.', rs.groupIndex.idx[group]);
    TrimOfPrefixed(rs.resourceTypePrefix, plural);
    assert GroupOf(group) == group && GroupOf(rs.groupIndex.idx[group]) == rs.groupIndex.idx[group];
    PluralIsFound(rs, group, plural, plural);
  }

  /** What renaming and restoring a spec leaves, for any contents: only the group and the restored names are decided by the rule. */
  lemma RestoredSpec(rs: Rules, rule: ResourceRule, restored: Fields, spec: Json, group: string)
    requires spec.Obj? && RenamedNames(rs, rule).Keys == restored.Keys
    ensures RestoreCrdSpec(restored, RenameCrdSpec(rs, rule, spec), group) == RestoreCrdSpec(restored, spec, group)
  {
    var m, renamed := FieldsOf(Get(spec, "names")), RenamedNames(rs, rule);
    var sent := RenameCrdSpec(rs, rule, spec);
    assert FieldsOf(Get(sent, "names")) == Overwrite(m, renamed);
    assert Overwrite(m, renamed) + restored == m + restored;
    assert sent.fields["group" := Str(group)]["names" := Obj(m + restored)]
        == spec.fields["group" := Str(group)]["names" := Obj(m + restored)];
  }

  lemma SpecIsRestoredExactly(restored: Fields, spec: Json, group: string)
    requires spec.Obj? && Get(spec, "names").Some? && Get(spec, "names").value.Obj?
    ensures RestoreCrdSpec(restored, spec, group) == spec <==>
              && Get(spec, "group") == Some(Str(group))
              && forall k | k in restored :: Get(Get(spec, "names").value, k) == Some(restored[k])
  {
    var names := Get(spec, "names").value.fields;
    var back := RestoreCrdSpec(restored, spec, group);
    assert back.fields == spec.fields["group" := Str(group)]["names" := Obj(names + restored)];
    assert back == spec ==> back.fields["names"] == Obj(names) && back.fields["group"] == spec.fields["group"];
    if names + restored == names {
      forall k | k in restored ensures k in names && names[k] == restored[k] { assert k in names + restored; }
    }
  }

  lemma SetNameAndSpec(obj: Json, name: string, spec: Json)
    ensures var out := Set(SetName(obj, name), "spec", spec);
            NameText(out) == name && Get(out, "spec") == Some(spec) && out.Obj?
  {
  }

  /** RenameCRD and RestoreCRD unfolded, once their lookups are known. */
  lemma RenameCrdUnfolds(rs: Rules, obj: Json, name: string, resource: string, group: string, rule: ResourceRule)
    requires NameText(obj) == name && Cut(name, '.') == CutResult(resource, group, true)
    requires ResourceRules(rs, group, resource) == Some(rule)
    requires Get(obj, "spec").Some? && Get(obj, "spec").value.Obj?
    ensures var renamed := RenameResource(rs, resource) + "." + RenameApiVersion(rs.groupIndex, group);
            var spec := RenameCrdSpec(rs, rule, Get(obj, "spec").value);
            && RenameCRD(rs, obj) == Replace(Set(SetName(obj, renamed), "spec", spec))
            && NameText(RenameCRD(rs, obj).body) == renamed && Get(RenameCRD(rs, obj).body, "spec") == Some(spec)
  {
    var renamed := RenameResource(rs, resource) + "." + RenameApiVersion(rs.groupIndex, group);
    SetNameAndSpec(obj, renamed, RenameCrdSpec(rs, rule, Get(obj, "spec").value));
    assert Obj(FieldsOf(Get(obj, "spec"))) == Get(obj, "spec").value;
  }

  lemma RestoreCrdUnfolds(rs: Rules, obj: Json, resource: string, group: string, found: (GroupRule, ResourceRule))
    requires Cut(NameText(obj), '.') == CutResult(resource, group, true)
    requires !HasGroup(rs, group) && IsRenamedGroup(rs, group)
    requires GroupResourceRules(rs, RestoreResource(rs, resource)) == Some(found)
    requires Get(obj, "spec").Some? && Get(obj, "spec").value.Obj?
    ensures RestoreCRD(rs, obj)
            == Replace(Set(SetName(obj, found.1.plural + "." + found.0.group), "spec",
                           RestoreCrdSpec(RestoredNames(rs, found.1), Get(obj, "spec").value, found.0.group)))
  {
    assert Obj(FieldsOf(Get(obj, "spec"))) == Get(obj, "spec").value;
  }

  lemma ThereAndBack(rs: Rules, obj: Json, name: string, plural: string, group: string, renamed: string, rule: ResourceRule)
    requires name == plural + "." + group && Cut(name, '.') == CutResult(plural, group, true)
    requires ResourceRules(rs, group, plural) == Some(rule) && RenameApiVersion(rs.groupIndex, group) == renamed
    requires Cut(RenameResource(rs, plural) + "." + renamed, '.') == CutResult(RenameResource(rs, plural), renamed, true)
    requires !HasGroup(rs, renamed) && IsRenamedGroup(rs, renamed) && rule.plural == plural
    requires GroupResourceRules(rs, RestoreResource(rs, RenameResource(rs, plural))) == Some((GroupRule(group, renamed), rule))
    requires Get(obj, "spec").Some? && Get(obj, "spec").value.Obj? && NameText(obj) == name
    requires Get(obj, "metadata").Some? && Get(Get(obj, "metadata").value, "name") == Some(Str(name))
    ensures RenameCRD(rs, obj).Replace?
    ensures RestoreCRD(rs, RenameCRD(rs, obj).body)
            == Replace(Obj(obj.fields["spec" := RestoreCrdSpec(RestoredNames(rs, rule), Get(obj, "spec").value, group)]))
  {
    RenameCrdUnfolds(rs, obj, name, plural, group, rule);
    BackAgain(rs, obj, RenameCRD(rs, obj).body, plural, name, group, renamed, rule);
  }

  lemma BackAgain(rs: Rules, obj: Json, sent: Json, plural: string, name: string, group: string, renamed: string, rule: ResourceRule)
    requires Get(obj, "spec").Some? && Get(obj, "spec").value.Obj?
    requires Get(obj, "metadata").Some? && Get(Get(obj, "metadata").value, "name") == Some(Str(name))
    requires sent == Set(SetName(obj, NameText(sent)), "spec", RenameCrdSpec(rs, rule, Get(obj, "spec").value))
    requires NameText(sent) == RenameResource(rs, plural) + "." + renamed && name == rule.plural + "." + group
    requires Cut(RenameResource(rs, plural) + "." + renamed, '.') == CutResult(RenameResource(rs, plural), renamed, true)
    requires !HasGroup(rs, renamed) && IsRenamedGroup(rs, renamed)
    requires GroupResourceRules(rs, RestoreResource(rs, RenameResource(rs, plural))) == Some((GroupRule(group, renamed), rule))
    ensures RestoreCRD(rs, sent)
            == Replace(Obj(obj.fields["spec" := RestoreCrdSpec(RestoredNames(rs, rule), Get(obj, "spec").value, group)]))
  {
    RestoreCrdUnfolds(rs, sent, RenameResource(rs, plural), renamed, (GroupRule(group, renamed), rule));
    RestoredBody(rs, rule, obj, sent, NameText(sent), name, group);
  }

  lemma RestoredBody(rs: Rules, rule: ResourceRule, obj: Json, sent: Json, renamed: string, name: string, group: string)
    requires Get(obj, "spec").Some? && Get(obj, "spec").value.Obj?
    requires Get(obj, "metadata").Some? && Get(Get(obj, "metadata").value, "name") == Some(Str(name))
    requires sent == Set(SetName(obj, renamed), "spec", RenameCrdSpec(rs, rule, Get(obj, "spec").value))
    ensures Set(SetName(sent, name), "spec", RestoreCrdSpec(RestoredNames(rs, rule), Get(sent, "spec").value, group))
            == Obj(obj.fields["spec" := RestoreCrdSpec(RestoredNames(rs, rule), Get(obj, "spec").value, group)])
  {
    SameKeys(rs, rule);
    RestoredSpec(rs, rule, RestoredNames(rs, rule), Get(obj, "spec").value, group);
    NameIsBack(obj, sent, renamed, name);
  }

  lemma SameKeys(rs: Rules, rule: ResourceRule)
    ensures RenamedNames(rs, rule).Keys == RestoredNames(rs, rule).Keys
  {
  }

  lemma NameIsBack(obj: Json, sent: Json, renamed: string, name: string)
    requires obj.Obj? && Get(obj, "spec").Some? && sent.Obj? && Get(sent, "spec").Some?
    requires Get(obj, "metadata").Some? && Get(Get(obj, "metadata").value, "name") == Some(Str(name))
    requires sent == Set(SetName(obj, renamed), "spec", Get(sent, "spec").value)
    ensures forall spec :: Set(SetName(sent, name), "spec", spec) == Obj(obj.fields["spec" := spec])
  {
    var meta := Get(obj, "metadata").value;
    assert FieldsOf(Get(sent, "metadata")) == meta.fields["name" := Str(renamed)];
    assert meta.fields["name" := Str(renamed)]["name" := Str(name)] == meta.fields;
    forall spec ensures Set(SetName(sent, name), "spec", spec) == Obj(obj.fields["spec" := spec]) {
      assert Set(SetName(sent, name), "spec", spec).fields == obj.fields["spec" := spec];
    }
  }

  /**
    A ruled CRD is always renamed, its renamed form is always restored and never skipped, and what
    comes back is the CRD itself exactly when its group and its six names agree with the rule.
   */
  lemma CrdRoundTrip(rs: Rules, obj: Json, plural: string, group: string)
    requires RenamesApart(rs) && CoherentResources(rs) && IsRuled(rs.groups, group, plural)
    requires IsCrd(obj, plural, group)
    ensures RenameCRD(rs, obj).Replace?
    ensures RestoreCRD(rs, RenameCRD(rs, obj).body).Replace?
    ensures RestoreCRD(rs, RenameCRD(rs, obj).body) == Replace(obj)
            <==> AgreesWithRule(rs, obj, group, rs.groups[group].resourceRules[plural])
  {
    var rule := rs.groups[group].resourceRules[plural];
    CrdThereAndBack(rs, obj, plural, group);
    AgreementDecides(rs, obj, group, rule, plural);
  }

  /** What comes back differs from the CRD in its spec at most. */
  lemma CrdThereAndBack(rs: Rules, obj: Json, plural: string, group: string)
    requires RenamesApart(rs) && CoherentResources(rs) && IsRuled(rs.groups, group, plural)
    requires IsCrd(obj, plural, group)
    ensures RenameCRD(rs, obj).Replace?
    ensures RestoreCRD(rs, RenameCRD(rs, obj).body)
            == Replace(Obj(obj.fields["spec" := RestoreCrdSpec(RestoredNames(rs, rs.groups[group].resourceRules[plural]), Get(obj, "spec").value, group)]))
  {
    RenamedCrdName(rs, plural, group);
    CrdHasParts(obj, plural, group);
    ThereAndBack(rs, obj, plural + "." + group, plural, group, rs.groupIndex.idx[group], rs.groups[group].resourceRules[plural]);
  }

  lemma CrdHasParts(obj: Json, plural: string, group: string)
    requires IsCrd(obj, plural, group)
    ensures Get(obj, "spec").Some? && Get(obj, "spec").value.Obj? && NameText(obj) == plural + "." + group
    ensures Get(obj, "metadata").Some? && Get(Get(obj, "metadata").value, "name") == Some(Str(plural + "." + group))
  {
  }

  lemma AgreementDecides(rs: Rules, obj: Json, group: string, rule: ResourceRule, plural: string)
    requires IsCrd(obj, plural, group)
    ensures Obj(obj.fields["spec" := RestoreCrdSpec(RestoredNames(rs, rule), Get(obj, "spec").value, group)]) == obj
            <==> AgreesWithRule(rs, obj, group, rule)
  {
    var spec := Get(obj, "spec").value;
    SpecIsRestoredExactly(RestoredNames(rs, rule), spec, group);
    var back := RestoreCrdSpec(RestoredNames(rs, rule), spec, group);
    assert obj.fields["spec" := back]["spec"] == back;
    assert obj.fields["spec" := spec] == obj.fields;
  }
}
