/**
  What the rewriters write, field by field, in terms of the rules alone. The round trips say that
  nothing is lost on the way there and back; these lemmas say where it is in between.
 */
module Results {
  import opened Text
  import opened NameRewriting
  import opened RoundTrips
  import opened LabelMaps
  import opened Rules
  import opened Json
  import opened Arrays
  import opened Transforms
  import opened Excludes
  import opened Payload
  import opened Transparency
  import opened Lists
  import Pointers = JsonPointer
  import Ops = JsonPatches
  import Roles = Rbac

  // ---------------------------------------------------------------- versions and kinds

  /** What follows the group in an apiVersion: nothing, or a slash and the version. */
  function Tail(apiVersion: string): string {
    var c := Cut(apiVersion, '/');
    if c.found then "/" + c.after else ""
  }

  /** The groups that the index knows are the ruled ones, and none of their names holds a slash. */
  predicate PlainGroups(rs: Rules) {
    rs.groupIndex.idx.Keys == rs.groups.Keys && SlashFree(rs.groupIndex.idx) && SlashFree(rs.groupIndex.reverse)
  }

  lemma VersionParts(group: string, version: string)
    requires '/' !in group
    ensures GroupOf(group + "/" + version) == group && Tail(group + "/" + version) == "/" + version
    ensures GroupOf(group) == group && Tail(group) == ""
  {
    CutOfJoin(group, '/', version);
  }

  /** The version that replaces a, its group looked up in the index one way or the other. */
  function VersionTo(rs: Rules, action: Action, a: string): string {
    var index := if action.Renaming? then rs.groupIndex.idx else rs.groupIndex.reverse;
    (if GroupOf(a) in index then index[GroupOf(a)] else GroupOf(a)) + Tail(a)
  }

  lemma VersionWritten(rs: Rules, action: Action, a: string)
    ensures ApiVersionAction(rs, action, a) == VersionTo(rs, action, a)
  {
  }

  function KindTo(rs: Rules, action: Action, kind: string): string {
    if action.Renaming? then rs.kindPrefix + kind
    else if rs.kindPrefix <= kind then kind[|rs.kindPrefix|..]
    else kind
  }

  /** Some resource of the group has this kind or list kind. */
  ghost predicate RuledKind(rs: Rules, group: string, kind: string) {
    exists p :: IsRuled(rs.groups, group, p)
             && (rs.groups[group].resourceRules[p].kind == kind || rs.groups[group].resourceRules[p].listKind == kind)
  }

  /** y is x with these two fields, and all others as they were. */
  ghost predicate HeaderTo(x: Json, y: Json, kind: string, apiVersion: string) {
    && y.Obj? && Get(y, "kind") == Some(Str(kind)) && Get(y, "apiVersion") == Some(Str(apiVersion))
    && forall field | field != "kind" && field != "apiVersion" :: Get(y, field) == Get(x, field)
  }

  // ---------------------------------------------------------------- items

  /** An owner reference of a ruled kind has both fields rewritten; any other stays as it is. */
  ghost predicate OwnerTo(rs: Rules, action: Action, x: Json, y: Json) {
    var kind, apiVersion := TextAt(x, "kind"), TextAt(x, "apiVersion");
    var original := GroupOf(if action.Renaming? then apiVersion else VersionTo(rs, action, apiVersion));
    var ruled := if action.Renaming? then RuledKind(rs, original, kind)
                 else GroupOf(apiVersion) in rs.groupIndex.reverse && RuledKind(rs, original, KindTo(rs, action, kind));
    if ruled then HeaderTo(x, y, KindTo(rs, action, kind), VersionTo(rs, action, apiVersion)) else y == x
  }

  lemma OwnerWritten(rs: Rules, action: Action, x: Json)
    ensures OwnerTo(rs, action, x, OwnerItem(rs, action)(x))
  {
    var kind, apiVersion := TextAt(x, "kind"), TextAt(x, "apiVersion");
    VersionWritten(rs, action, apiVersion);
    KindRulesMean(rs, apiVersion, kind);
    KindRulesMean(rs, ApiVersionAction(rs, action, apiVersion), KindAction(rs, action, kind));
    assert KindAction(rs, action, kind) == KindTo(rs, action, kind);
    GvkWritten(x, KindTo(rs, action, kind), VersionTo(rs, action, apiVersion));
  }

  lemma KindRulesMean(rs: Rules, apiVersion: string, kind: string)
    ensures HasKindRules(rs, apiVersion, kind) <==> RuledKind(rs, GroupOf(apiVersion), kind)
  {
    if HasKindRules(rs, apiVersion, kind) {
      var rules := rs.groups[GroupOf(apiVersion)].resourceRules;
      var p :| p in rules && (rules[p].kind == kind || rules[p].listKind == kind);
      assert IsRuled(rs.groups, GroupOf(apiVersion), p);
    }
  }

  lemma GvkWritten(x: Json, kind: string, apiVersion: string)
    ensures SetGVK(x, "apiVersion", kind, apiVersion).Obj?
    ensures Get(SetGVK(x, "apiVersion", kind, apiVersion), "kind") == Some(Str(kind))
    ensures Get(SetGVK(x, "apiVersion", kind, apiVersion), "apiVersion") == Some(Str(apiVersion))
    ensures forall field | field != "kind" && field != "apiVersion" :: Get(SetGVK(x, "apiVersion", kind, apiVersion), field) == Get(x, field)
  {
  }

  /** A client's owner reference of a ruled kind: prefixed kind, renamed group, same version, all else kept. */
  lemma OwnerRenamed(rs: Rules, v: Json, group: string, version: string, kind: string, plural: string)
    requires PlainGroups(rs) && IsRuled(rs.groups, group, plural)
    requires kind in {rs.groups[group].resourceRules[plural].kind, rs.groups[group].resourceRules[plural].listKind}
    requires Get(v, "kind") == Some(Str(kind)) && Get(v, "apiVersion") == Some(Str(group + "/" + version))
    ensures HeaderTo(v, OwnerItem(rs, Renaming)(v), rs.kindPrefix + kind, rs.groupIndex.idx[group] + "/" + version)
  {
    VersionLookedUp(rs, Renaming, group, version, rs.groupIndex.idx);
    TextAtString(v, "kind", kind);
    TextAtString(v, "apiVersion", group + "/" + version);
    assert RuledKind(rs, group, kind);
    OwnerWritten(rs, Renaming, v);
  }

  lemma TextAtString(v: Json, field: string, text: string)
    requires Get(v, field) == Some(Str(text))
    ensures TextAt(v, field) == text
  {
  }

  lemma VersionLookedUp(rs: Rules, action: Action, group: string, version: string, index: map<string, string>)
    requires index == if action.Renaming? then rs.groupIndex.idx else rs.groupIndex.reverse
    requires '/' !in group && group in index
    ensures VersionTo(rs, action, group + "/" + version) == index[group] + "/" + version && GroupOf(group + "/" + version) == group
  {
    VersionParts(group, version);
    assert index[group] + ("/" + version) == index[group] + "/" + version;
  }

  /** The server's owner reference of a renamed kind: kind and group restored, same version, all else kept. */
  lemma OwnerRestored(rs: Rules, v: Json, group: string, version: string, kind: string, plural: string)
    requires PlainGroups(rs) && Inverse(rs.groupIndex.idx, rs.groupIndex.reverse) && IsRuled(rs.groups, group, plural)
    requires kind in {rs.groups[group].resourceRules[plural].kind, rs.groups[group].resourceRules[plural].listKind}
    requires Get(v, "kind") == Some(Str(rs.kindPrefix + kind)) && Get(v, "apiVersion") == Some(Str(rs.groupIndex.idx[group] + "/" + version))
    ensures HeaderTo(v, OwnerItem(rs, Restoring)(v), kind, group + "/" + version)
  {
    var renamed := rs.groupIndex.idx[group];
    VersionLookedUp(rs, Restoring, renamed, version, rs.groupIndex.reverse);
    VersionParts(group, version);
    TextAtString(v, "kind", rs.kindPrefix + kind);
    TextAtString(v, "apiVersion", renamed + "/" + version);
    KindUnprefixed(rs, kind);
    assert RuledKind(rs, group, kind);
    OwnerWritten(rs, Restoring, v);
  }

  lemma KindUnprefixed(rs: Rules, kind: string)
    ensures KindTo(rs, Restoring, rs.kindPrefix + kind) == kind
  {
  }

  /** Without a rule for its kind in its group an owner reference stays as it is, in both directions. */
  lemma UnruledOwnerStays(rs: Rules, v: Json)
    ensures !RuledKind(rs, GroupOf(TextAt(v, "apiVersion")), TextAt(v, "kind")) ==> OwnerItem(rs, Renaming)(v) == v
    ensures GroupOf(TextAt(v, "apiVersion")) !in rs.groupIndex.reverse ==> OwnerItem(rs, Restoring)(v) == v
  {
    OwnerWritten(rs, Renaming, v);
    OwnerWritten(rs, Restoring, v);
  }

  /** The name a finalizer, label or annotation rewriter gives, by the direction. */
  function NameTo(r: NameRewriter, action: Action, name: string, value: string): (string, string) {
    if action.Renaming? then Rename(r, name, value) else Restore(r, name, value)
  }

  ghost predicate FinalizerTo(r: NameRewriter, action: Action, x: Json, y: Json) {
    y == Str(NameTo(r, action, AsText(x), "").0)
  }

  lemma FinalizerWritten(r: NameRewriter, action: Action, x: Json)
    ensures FinalizerTo(r, action, x, FinalizerItem(r, action)(x))
  {
  }

  /** For a rewriter made from rule lists: what reading the lists gives. */
  lemma FinalizerScanned(rules: MetadataReplace, x: Json)
    requires EqualsFree(rules.names) && '=' !in AsText(x)
    ensures FinalizerItem(NewNameRewriter(rules), Renaming)(x) == Str(ScanRename(rules, AsText(x), "").0)
    ensures FinalizerItem(NewNameRewriter(rules), Restoring)(x) == Str(ScanRestore(rules, AsText(x), "").0)
  {
    IndexesRefineScan(rules, AsText(x), "");
  }

  ghost predicate ManagedTo(rs: Rules, action: Action, x: Json, y: Json) {
    match Get(x, "apiVersion")
    case None => y == x
    case Some(a) =>
      && y.Obj? && Get(y, "apiVersion") == Some(Str(VersionTo(rs, action, AsText(a))))
      && forall field | field != "apiVersion" :: Get(y, field) == Get(x, field)
  }

  lemma ManagedWritten(rs: Rules, action: Action, x: Json)
    ensures ManagedTo(rs, action, x, ManagedItem(rs, action)(x))
  {
    if Get(x, "apiVersion").Some? { VersionWritten(rs, action, AsText(Get(x, "apiVersion").value)); }
  }

  type Relation = (Json, Json) -> bool

  ghost function Owners(rs: Rules, action: Action): Relation { (x, y) => OwnerTo(rs, action, x, y) }

  ghost function Finalizers(r: NameRewriter, action: Action): Relation { (x, y) => FinalizerTo(r, action, x, y) }

  ghost function Managed(rs: Rules, action: Action): Relation { (x, y) => ManagedTo(rs, action, x, y) }

  /** An array goes to an array of as many items, each related to its own; null and the empty array stay, a lone value is an array of one. */
  ghost predicate ItemsTo(v: Json, w: Json, each: Relation) {
    if v == Null || v == Arr([]) then w == v
    else
      var items := if v.Arr? then v.items else [v];
      w.Arr? && |w.items| == |items| && forall i | 0 <= i < |items| :: each(items[i], w.items[i])
  }

  lemma ItemsWritten(f: Json -> Json, each: Relation, v: Json)
    requires forall x :: each(x, f(x))
    ensures ItemsTo(v, OverItems(f)(v), each)
  {
    if v.Arr? && v.items != [] {
      var w := MapSeq(v.items, f);
      forall i | 0 <= i < |w| ensures each(v.items[i], w[i]) { assert w[i] == f(v.items[i]); }
    } else if !v.Null? && !v.Arr? {
      assert each(v, f(v)) && OverItems(f)(v) == Arr([f(v)]);
    }
  }

  // ---------------------------------------------------------------- label and annotation maps

  ghost predicate EntryTo(r: NameRewriter, action: Action, k: string, v: Json, k': string, v': Json) {
    var (name, text) := NameTo(r, action, k, AsText(v));
    k' == name && v' == if v.Null? && text == "" then Null else Str(text)
  }

  /** A map goes to a map with an entry under every new name, each the image of an entry; anything else stays. */
  ghost predicate LabelsTo(r: NameRewriter, action: Action, v: Json, w: Json) {
    if !v.Obj? then w == v
    else
      && w.Obj?
      && (forall k | k in v.fields :: NameTo(r, action, k, AsText(v.fields[k])).0 in w.fields)
      && (forall k' | k' in w.fields :: exists k | k in v.fields :: EntryTo(r, action, k, v.fields[k], k', w.fields[k']))
  }

  lemma LabelsWritten(r: NameRewriter, action: Action, v: Json)
    ensures LabelsTo(r, action, v, LabelsField(r, action)(v))
  {
    if v.Obj? && v.fields != map[] { ImageWritten(r, action, v.fields, Image(v.fields, JsonEntry(Rewriter(r, action)))); }
  }

  lemma EntryWritten(r: NameRewriter, action: Action, k: string, v: Json)
    ensures var out := JsonEntry(Rewriter(r, action))(k, v); EntryTo(r, action, k, v, out.0, out.1)
    ensures JsonEntry(Rewriter(r, action))(k, v).0 == NameTo(r, action, k, AsText(v)).0
  {
  }

  lemma ImageWritten(r: NameRewriter, action: Action, m: Fields, out: Fields)
    requires IsImage(m, JsonEntry(Rewriter(r, action)), out)
    ensures forall k | k in m :: NameTo(r, action, k, AsText(m[k])).0 in out
    ensures forall k' | k' in out :: exists k | k in m :: EntryTo(r, action, k, m[k], k', out[k'])
  {
    forall k | k in m ensures NameTo(r, action, k, AsText(m[k])).0 in out { KeyWritten(r, action, m, out, k); }
    forall k' | k' in out ensures exists k | k in m :: EntryTo(r, action, k, m[k], k', out[k']) {
      var k := SourceOf(r, action, m, out, k');
    }
  }

  lemma KeyWritten(r: NameRewriter, action: Action, m: Fields, out: Fields, k: string)
    requires IsImage(m, JsonEntry(Rewriter(r, action)), out) && k in m
    ensures NameTo(r, action, k, AsText(m[k])).0 in out
  {
    EntryWritten(r, action, k, m[k]);
    assert NewKey(m, JsonEntry(Rewriter(r, action)), k) in out;
  }

  lemma SourceOf(r: NameRewriter, action: Action, m: Fields, out: Fields, k': string) returns (k: string)
    requires IsImage(m, JsonEntry(Rewriter(r, action)), out) && k' in out
    ensures k in m && EntryTo(r, action, k, m[k], k', out[k'])
  {
    k :| Yields(m, JsonEntry(Rewriter(r, action)), k, k', out[k']);
    EntryWritten(r, action, k, m[k]);
  }

  // ---------------------------------------------------------------- metadata

  ghost function Labels(r: NameRewriter, action: Action): Relation { (x, y) => LabelsTo(r, action, x, y) }

  ghost function EachOf(each: Relation): Relation { (v, w) => ItemsTo(v, w, each) }

  /** A field that is there is related to what replaces it; one that is not stays absent. */
  ghost predicate FieldTo(before: Json, after: Json, field: string, related: Relation) {
    match Get(before, field)
    case Some(v) => Get(after, field).Some? && related(v, Get(after, field).value)
    case None => Get(after, field).None?
  }

  /** What each of these fields is to become; all others stay. */
  ghost predicate FieldsTo(before: Json, after: Json, names: seq<string>, related: seq<Relation>)
    requires |names| == |related|
  {
    && after.Obj?
    && (forall i | 0 <= i < |names| :: FieldTo(before, after, names[i], related[i]))
    && (forall field | field !in names :: Get(after, field) == Get(before, field))
  }

  lemma FieldsWritten(j: Json, names: seq<string>, fs: seq<Json -> Json>, related: seq<Relation>)
    requires j.Obj? && |names| == |fs| == |related| && AllDistinct(names)
    requires forall i, x | 0 <= i < |names| :: related[i](x, fs[i](x))
    ensures FieldsTo(j, AtFields(j, names, fs), names, related)
  {
    var out := AtFields(j, names, fs);
    FieldAfter(j, names, fs, "");
    forall i | 0 <= i < |names| ensures FieldTo(j, out, names[i], related[i]) { FieldAfter(j, names, fs, names[i]); }
    forall field | field !in names ensures Get(out, field) == Get(j, field) { FieldAfter(j, names, fs, field); }
  }

  /** The metadata of any object: labels, annotations, finalizers and owner references. */
  ghost function MetadataRelations(rs: Rules, action: Action): seq<Relation> {
    [Labels(rs.labels, action), Labels(rs.annotations, action), EachOf(Finalizers(rs.finalizers, action)), EachOf(Owners(rs, action))]
  }

  ghost predicate MetadataTo(rs: Rules, action: Action, m: Json, w: Json) {
    if m.Obj? then FieldsTo(m, w, METADATA, MetadataRelations(rs, action)) else w == m
  }

  lemma EachWritten(rs: Rules, action: Action)
    ensures forall x :: Labels(rs.labels, action)(x, LabelsField(rs.labels, action)(x))
    ensures forall x :: Labels(rs.annotations, action)(x, LabelsField(rs.annotations, action)(x))
    ensures forall x :: EachOf(Finalizers(rs.finalizers, action))(x, OverItems(FinalizerItem(rs.finalizers, action))(x))
    ensures forall x :: EachOf(Owners(rs, action))(x, OverItems(OwnerItem(rs, action))(x))
    ensures forall x :: EachOf(Managed(rs, action))(x, OverItems(ManagedItem(rs, action))(x))
  {
    forall x ensures Labels(rs.labels, action)(x, LabelsField(rs.labels, action)(x)) { LabelsWritten(rs.labels, action, x); }
    forall x ensures Labels(rs.annotations, action)(x, LabelsField(rs.annotations, action)(x)) { LabelsWritten(rs.annotations, action, x); }
    forall x ensures Finalizers(rs.finalizers, action)(x, FinalizerItem(rs.finalizers, action)(x)) { FinalizerWritten(rs.finalizers, action, x); }
    forall x ensures Owners(rs, action)(x, OwnerItem(rs, action)(x)) { OwnerWritten(rs, action, x); }
    forall x ensures Managed(rs, action)(x, ManagedItem(rs, action)(x)) { ManagedWritten(rs, action, x); }
    forall x ensures EachOf(Finalizers(rs.finalizers, action))(x, OverItems(FinalizerItem(rs.finalizers, action))(x)) {
      ItemsWritten(FinalizerItem(rs.finalizers, action), Finalizers(rs.finalizers, action), x);
    }
    forall x ensures EachOf(Owners(rs, action))(x, OverItems(OwnerItem(rs, action))(x)) {
      ItemsWritten(OwnerItem(rs, action), Owners(rs, action), x);
    }
    forall x ensures EachOf(Managed(rs, action))(x, OverItems(ManagedItem(rs, action))(x)) {
      ItemsWritten(ManagedItem(rs, action), Managed(rs, action), x);
    }
  }

  lemma MetadataWritten(rs: Rules, action: Action, m: Json)
    ensures MetadataTo(rs, action, m, RewriteMetadata(rs, action)(m))
  {
    MetadataDistinct();
    if m.Obj? {
      EachWritten(rs, action);
      var fs, related := MetadataRewriters(rs, action), MetadataRelations(rs, action);
      assert |fs| == 4 && |related| == 4;
      forall i, x | 0 <= i < 4 ensures related[i](x, fs[i](x)) { assert i == 0 || i == 1 || i == 2 || i == 3; }
      FieldsWritten(m, METADATA, fs, related);
    }
  }

  // ---------------------------------------------------------------- single objects

  /** The metadata of a custom resource: also its managed fields. */
  ghost predicate CustomMetadataTo(rs: Rules, action: Action, m: Json, w: Json) {
    if m.Obj? then FieldsTo(m, w, ["managedFields"] + METADATA, [EachOf(Managed(rs, action))] + MetadataRelations(rs, action)) else w == m
  }

  lemma CustomMetadataWritten(rs: Rules, action: Action, m: Json)
    ensures CustomMetadataTo(rs, action, m, MetadataField(rs, action)(m))
  {
    if m.Obj? {
      MetadataNamesDistinct();
      ManagedThenMetadata(rs, m, action);
      EachWritten(rs, action);
      var fs, related := AllMetadata(rs, action), [EachOf(Managed(rs, action))] + MetadataRelations(rs, action);
      AllMetadataAt(rs, action);
      forall i, x | 0 <= i < 5 ensures related[i](x, fs[i](x)) { assert i == 0 || i == 1 || i == 2 || i == 3 || i == 4; }
      FieldsWritten(m, ["managedFields"] + METADATA, fs, related);
    } else {
      NonObjectStays(rs, m, action);
    }
  }

  ghost function CustomMetadata(rs: Rules, action: Action): Relation { (m, w) => CustomMetadataTo(rs, action, m, w) }

  ghost function AnyMetadata(rs: Rules, action: Action): Relation { (m, w) => MetadataTo(rs, action, m, w) }

  /** A custom resource: apiVersion and kind, metadata, and nothing else. */
  ghost predicate ResourceTo(rs: Rules, action: Action, obj: Json, out: Json, kind: string, apiVersion: string) {
    && out.Obj?
    && Get(out, "kind") == Some(Str(KindTo(rs, action, kind)))
    && Get(out, "apiVersion") == Some(Str(VersionTo(rs, action, apiVersion)))
    && FieldTo(obj, out, "metadata", CustomMetadata(rs, action))
    && forall field | field !in TOP :: Get(out, field) == Get(obj, field)
  }

  lemma TopWritten(rs: Rules, action: Action, obj: Json, kind: string, apiVersion: string)
    requires Get(obj, "apiVersion") == Some(Str(apiVersion)) && Get(obj, "kind") == Some(Str(kind))
    ensures |TOP| == |TopRewriters(rs, action)|
    ensures ResourceTo(rs, action, obj, AtFields(obj, TOP, TopRewriters(rs, action)), kind, apiVersion)
  {
    TopNamesDistinct();
    var fs := TopRewriters(rs, action);
    var out := AtFields(obj, TOP, fs);
    FieldAfter(obj, TOP, fs, TOP[0]);
    FieldAfter(obj, TOP, fs, TOP[1]);
    FieldAfter(obj, TOP, fs, TOP[2]);
    VersionWritten(rs, action, apiVersion);
    TextFieldAt(VersionAction(rs, action), apiVersion);
    TextFieldAt(KindField(rs, action), kind);
    if "metadata" in obj.fields { CustomMetadataWritten(rs, action, obj.fields["metadata"]); }
    forall field | field !in TOP ensures Get(out, field) == Get(obj, field) { FieldAfter(obj, TOP, fs, field); }
  }

  /** RewriteJSONPayload on a custom resource of a ruled kind, in both directions. */
  lemma CustomResourceWritten(rs: Rules, fo: Foreign, obj: Json, action: Action, apiVersion: string, kind: string)
    requires Get(obj, "apiVersion") == Some(Str(apiVersion)) && Get(obj, "kind") == Some(Str(kind))
    requires CustomKind(fo, kind) && !HasSuffix(KindTo(rs, action, kind), LIST)
    requires HasKind(rs.groups, if action.Restoring? then KindTo(rs, action, kind) else kind)
    requires action.Restoring? ==> !ShouldExclude(rs.excludes, obj, kind)
    ensures var out := RewriteJSONPayload(rs, fo, obj, action);
            out.Replace? && ResourceTo(rs, action, obj, out.body, kind, apiVersion)
  {
    assert KindAction(rs, action, kind) == KindTo(rs, action, kind);
    CustomResourcePayload(rs, fo, obj, action, apiVersion, kind);
    TopWritten(rs, action, obj, kind, apiVersion);
  }

  /** The header of a list of custom resources, and of a bookmark: kind and version by the rules, all else kept. */
  lemma HeaderWritten(rs: Rules, obj: Json, action: Action)
    ensures HeaderTo(obj, RewriteVersionAndKind(rs, obj, action), KindTo(rs, action, TextAt(obj, "kind")), VersionTo(rs, action, TextAt(obj, "apiVersion")))
  {
    VersionWritten(rs, action, TextAt(obj, "apiVersion"));
    assert KindAction(rs, action, TextAt(obj, "kind")) == KindTo(rs, action, TextAt(obj, "kind"));
  }

  /** The last step of every payload: the metadata of an object, or of each item of a list. */
  ghost predicate FinishTo(rs: Rules, action: Action, obj: Json, out: Json) {
    if HasSuffix(TextAt(obj, "kind"), LIST)
    then FieldTo(obj, out, "items", EachOf(WithMetadata(rs, action))) && forall field | field != "items" :: Get(out, field) == Get(obj, field)
    else MetadataFieldTo(rs, action, obj, out)
  }

  ghost predicate MetadataFieldTo(rs: Rules, action: Action, obj: Json, out: Json) {
    FieldTo(obj, out, "metadata", AnyMetadata(rs, action)) && forall field | field != "metadata" :: Get(out, field) == Get(obj, field)
  }

  ghost function WithMetadata(rs: Rules, action: Action): Relation { (x, y) => MetadataFieldTo(rs, action, x, y) }

  lemma OneMetadataWritten(rs: Rules, action: Action, obj: Json)
    ensures MetadataFieldTo(rs, action, obj, OneMetadata(rs, action)(obj))
  {
    forall m ensures AnyMetadata(rs, action)(m, RewriteMetadata(rs, action)(m)) { MetadataWritten(rs, action, m); }
    FieldWritten(obj, "metadata", RewriteMetadata(rs, action), AnyMetadata(rs, action));
  }

  /** One field, whatever is done to it. */
  lemma FieldWritten(obj: Json, field: string, f: Json -> Json, related: Relation)
    requires forall v :: related(v, f(v))
    ensures FieldTo(obj, AtField(obj, field, f), field, related)
    ensures forall other | other != field :: Get(AtField(obj, field, f), other) == Get(obj, other)
  {
  }

  lemma MetadataFinished(rs: Rules, action: Action, obj: Json)
    ensures FinishTo(rs, action, obj, FinishMetadata(rs, obj, action))
  {
    if HasSuffix(TextAt(obj, "kind"), LIST) {
      forall x ensures WithMetadata(rs, action)(x, OneMetadata(rs, action)(x)) { OneMetadataWritten(rs, action, x); }
      forall v ensures EachOf(WithMetadata(rs, action))(v, OverItems(OneMetadata(rs, action))(v)) {
        ItemsWritten(OneMetadata(rs, action), WithMetadata(rs, action), v);
      }
      FieldWritten(obj, "items", OverItems(OneMetadata(rs, action)), EachOf(WithMetadata(rs, action)));
    } else {
      OneMetadataWritten(rs, action, obj);
    }
  }

  /** y is x with this field, if it is there, replaced by what the kind's own rewriter makes of it. */
  ghost predicate InsideTo(fo: Foreign, single: string, action: Action, field: string, x: Json, y: Json) {
    && (match Get(x, field) case Some(v) => Get(y, field) == Some(fo.inside(single, v, action)) case None => Get(y, field).None?)
    && forall other | other != field :: Get(y, other) == Get(x, other)
  }

  /** RewriteJSONPayload on a single object of a built-in kind: its own field, then its metadata. */
  lemma BuiltInWritten(rs: Rules, fo: Foreign, obj: Json, single: string, action: Action)
    requires ListedKind(fo, single) && TextAt(obj, "kind") == single && (action.Restoring? ==> !ShouldExclude(rs.excludes, obj, single))
    ensures var out := RewriteJSONPayload(rs, fo, obj, action);
            out.Replace? && exists mid :: InsideTo(fo, single, action, fo.builtIn[single], obj, mid) && MetadataFieldTo(rs, action, mid, out.body)
  {
    BuiltInItem(rs, fo, single, obj, action);
    var mid := RewriteBuiltIn(fo, single, action)(obj);
    OneMetadataWritten(rs, action, mid);
    assert InsideTo(fo, single, action, fo.builtIn[single], obj, mid);
  }

  /** A single ServiceMonitor: its spec, then its metadata. */
  lemma MonitorWritten(rs: Rules, fo: Foreign, obj: Json, action: Action)
    requires TextAt(obj, "kind") == MONITOR_KIND && (action.Restoring? ==> !ShouldExclude(rs.excludes, obj, MONITOR_KIND))
    ensures var out := RewriteJSONPayload(rs, fo, obj, action);
            out.Replace? && exists mid :: InsideTo(fo, MONITOR_KIND, action, "spec", obj, mid) && MetadataFieldTo(rs, action, mid, out.body)
  {
    var mid := AtField(obj, "spec", v => fo.inside(MONITOR_KIND, v, action));
    assert InsideTo(fo, MONITOR_KIND, action, "spec", obj, mid);
    MonitorKind();
    assert Dispatch(rs, fo, MONITOR_KIND, obj, action) == Replace(mid);
    SinglePayload(rs, fo, obj, action, MONITOR_KIND, mid);
    OneMetadataWritten(rs, action, mid);
  }

  lemma MonitorKind()
    ensures Excludable(MONITOR_KIND) && !HasSuffix(MONITOR_KIND, LIST) && MONITOR_KIND != CRD_KIND && MONITOR_KIND != CRD_KIND + LIST
  {
    assert MONITOR_KIND[0] == 'S' && (CRD_KIND + LIST)[0] == 'C';
  }

  /** A kind that no rule and no built-in rewriter knows: its metadata only. */
  lemma UnruledWritten(rs: Rules, fo: Foreign, obj: Json, kind: string, action: Action)
    requires TextAt(obj, "kind") == kind && CustomKind(fo, kind) && (action.Restoring? ==> !ShouldExclude(rs.excludes, obj, kind))
    requires var original := if action.Restoring? then KindTo(rs, action, kind) else kind;
             !HasKind(rs.groups, original) && !HasListKind(rs.groups, original)
    ensures var out := RewriteJSONPayload(rs, fo, obj, action); out.Replace? && MetadataFieldTo(rs, action, obj, out.body)
  {
    assert KindAction(rs, action, kind) == KindTo(rs, action, kind);
    CustomIsDispatched(rs, fo, kind, obj, action);
    SinglePayload(rs, fo, obj, action, kind, obj);
    OneMetadataWritten(rs, action, obj);
  }

  /** The discovery kinds and AdmissionReview are never excluded, and are handed to their own rewriters. */
  lemma SpecialWritten(rs: Rules, fo: Foreign, obj: Json, action: Action)
    requires !Excludable(TextAt(obj, "kind"))
    ensures match fo.special(TextAt(obj, "kind"), obj, action)
            case Replace(body) =>
              RewriteJSONPayload(rs, fo, obj, action).Replace? && FinishTo(rs, action, body, RewriteJSONPayload(rs, fo, obj, action).body)
            case other => RewriteJSONPayload(rs, fo, obj, action) == other
  {
    var out := fo.special(TextAt(obj, "kind"), obj, action);
    if out.Replace? { MetadataFinished(rs, action, out.body); }
  }

  // ---------------------------------------------------------------- role rules

  /** The rule's groups decide: the resources are rewritten beside a group of the index, or a wildcard. */
  predicate RewritesResources(rs: Rules, action: Action, groups: seq<string>) {
    exists g | g in groups :: g == "*" || GroupOf(g) in if action.Renaming? then rs.groupIndex.idx else rs.groupIndex.reverse
  }

  /** A resource that some rule knows by its original plural gets the prefix, or loses it. */
  ghost predicate ResourceNameTo(rs: Rules, action: Action, x: string, y: string) {
    var original := if action.Renaming? then x else if rs.resourceTypePrefix <= x then x[|rs.resourceTypePrefix|..] else x;
    if x != "*" && x != "" && HasPlural(rs.groups, Cut(original, '/').before)
    then y == if action.Renaming? then rs.resourceTypePrefix + x else original
    else y == x
  }

  ghost predicate RuleTo(rs: Rules, action: Action, rule: Roles.PolicyRule, out: Roles.PolicyRule) {
    && |out.apiGroups| == |rule.apiGroups| && (forall i | 0 <= i < |rule.apiGroups| :: out.apiGroups[i] == VersionTo(rs, action, rule.apiGroups[i]))
    && if RewritesResources(rs, action, rule.apiGroups)
       then |out.resources| == |rule.resources| && forall i | 0 <= i < |rule.resources| :: ResourceNameTo(rs, action, rule.resources[i], out.resources[i])
       else out.resources == rule.resources
  }

  /** Every group by the index, and every ruled resource by its prefix, in both directions. */
  lemma RuleWritten(rs: Rules, rule: Roles.PolicyRule)
    requires rs.groupIndex.idx.Keys == rs.groups.Keys
    ensures RuleTo(rs, Renaming, rule, Roles.RenamedRule(rs, rule)) && RuleTo(rs, Restoring, rule, Roles.RestoredRule(rs, rule))
  {
    var renamed, restored := Roles.RenamedRule(rs, rule), Roles.RestoredRule(rs, rule);
    forall i | 0 <= i < |rule.apiGroups|
      ensures renamed.apiGroups[i] == VersionTo(rs, Renaming, rule.apiGroups[i]) && restored.apiGroups[i] == VersionTo(rs, Restoring, rule.apiGroups[i])
    {
      GroupNameWritten(rs, rule.apiGroups[i]);
    }
    forall x ensures ResourceNameTo(rs, Renaming, x, Roles.RenameResourceName(rs, x)) && ResourceNameTo(rs, Restoring, x, Roles.RestoreResourceName(rs, x)) {
      ResourceNameWritten(rs, x);
    }
    assert Roles.TouchesResources(rs, rule.apiGroups) == RewritesResources(rs, Renaming, rule.apiGroups);
    assert Roles.TouchesRestored(rs, rule.apiGroups) == RewritesResources(rs, Restoring, rule.apiGroups);
  }

  lemma GroupNameWritten(rs: Rules, g: string)
    requires rs.groupIndex.idx.Keys == rs.groups.Keys
    ensures Roles.RenameGroupName(rs, g) == VersionTo(rs, Renaming, g) && Roles.RestoreGroupName(rs, g) == VersionTo(rs, Restoring, g)
  {
    VersionWritten(rs, Renaming, g);
    VersionWritten(rs, Restoring, g);
    assert GroupOf(g) + Tail(g) == g;
  }

  lemma ResourceNameWritten(rs: Rules, x: string)
    ensures ResourceNameTo(rs, Renaming, x, Roles.RenameResourceName(rs, x)) && ResourceNameTo(rs, Restoring, x, Roles.RestoreResourceName(rs, x))
  {
  }

  // ---------------------------------------------------------------- JSON Patch operations

  /** An operation on a whole metadata field, or on all of metadata: its value, and nothing else of it. */
  ghost predicate ValueTo(op: Ops.PatchOp, out: Ops.PatchOp, related: Relation) {
    && out.op == op.op && out.path == op.path
    && match op.value case Some(v) => out.value.Some? && related(v, out.value.value) case None => out.value.None?
  }

  lemma WholeOpsWritten(rs: Rules, op: Ops.PatchOp)
    ensures op.path == "/metadata/labels" ==> ValueTo(op, Ops.RenameOp(rs, op), Labels(rs.labels, Renaming))
    ensures op.path == "/metadata/annotations" ==> ValueTo(op, Ops.RenameOp(rs, op), Labels(rs.annotations, Renaming))
    ensures op.path == "/metadata/finalizers" ==> ValueTo(op, Ops.RenameOp(rs, op), EachOf(Finalizers(rs.finalizers, Renaming)))
    ensures op.path == "/metadata/ownerReferences" ==> ValueTo(op, Ops.RenameOp(rs, op), EachOf(Owners(rs, Renaming)))
    ensures op.path == "/metadata" ==> ValueTo(op, Ops.RenameOp(rs, op), AnyMetadata(rs, Renaming))
  {
    PathsDiffer();
    EachWritten(rs, Renaming);
    if op.value.Some? { MetadataWritten(rs, Renaming, op.value.value); }
  }

  lemma PathsDiffer()
    ensures |Ops.LABELS| == 16 && |Ops.ANNOTATIONS| == 21 && |Ops.FINALIZERS| == 20 && |Ops.OWNERS| == 25 && |Ops.META| == 9
  {
  }

  /** An operation on one finalizer: the token after the directory is decoded, renamed and encoded again. */
  lemma FinalizerOpWritten(rs: Rules, op: Ops.PatchOp, token: string)
    requires op.path == "/metadata/finalizers/" + token
    ensures Ops.RenameOp(rs, op)
            == op.(path := var name := Pointers.Decode(token);
                           if Rename(rs.finalizers, name, "").0 == name then op.path
                           else "/metadata/finalizers/" + Pointers.Encode(Rename(rs.finalizers, name, "").0))
  {
    FinalizerPath(op.path, token);
  }

  lemma FinalizerPath(path: string, token: string)
    requires path == "/metadata/finalizers/" + token
    ensures HasPrefix(path, Ops.FINALIZERS + "/") && TrimPrefix(path, Ops.FINALIZERS + "/") == token && Ops.FINALIZERS + "/" == "/metadata/finalizers/"
    ensures !HasPrefix(path, Ops.LABELS + "/") && !HasPrefix(path, Ops.ANNOTATIONS + "/")
    ensures path !in {Ops.LABELS, Ops.ANNOTATIONS, Ops.FINALIZERS, Ops.OWNERS, Ops.META}
  {
    assert path[10] == 'f' && |path| >= 21;
    assert (Ops.LABELS + "/")[10] == 'l' && (Ops.ANNOTATIONS + "/")[10] == 'a' && Ops.OWNERS[10] == 'o';
    PathsDiffer();
  }
}
