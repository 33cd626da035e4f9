/** A custom resource that a client writes is the custom resource it reads. */
module Transparency {
  import opened Text
  import opened NameRewriting
  import opened RoundTrips
  import opened LabelMaps
  import opened Rules
  import opened Json
  import opened Arrays
  import opened Transforms
  import opened Excludes
  import opened Payload

  // ---------------------------------------------------------------- what a client may put into metadata

  ghost predicate ClientFinalizer(r: NameRewriter, v: Json) {
    v.Str? && '=' !in v.s && ClientDomain(r, v.s, "")
  }

  ghost predicate ClientOwner(rs: Rules, v: Json) {
    match (Get(v, "kind"), Get(v, "apiVersion"))
    case (Some(k), Some(a)) => k.Str? && a.Str? && !IsRenamedGroup(rs, a.s)
    case _ => false
  }

  ghost predicate ClientManaged(rs: Rules, v: Json) {
    match Get(v, "apiVersion") case Some(a) => a.Str? && !IsRenamedGroup(rs, a.s) case None => true
  }

  ghost predicate ClientFinalizers(r: NameRewriter, v: Json) {
    v.Null? || (v.Arr? && forall x | x in v.items :: ClientFinalizer(r, x))
  }

  ghost predicate ClientOwners(rs: Rules, v: Json) {
    v.Null? || (v.Arr? && forall x | x in v.items :: ClientOwner(rs, x))
  }

  ghost predicate ClientManagedFields(rs: Rules, v: Json) {
    v.Null? || (v.Arr? && forall x | x in v.items :: ClientManaged(rs, x))
  }

  ghost predicate ClientMap(r: NameRewriter, v: Json) {
    v.Obj? ==> ClientFields(r, v.fields)
  }

  /** No name that stays together with its preserved form. */
  ghost predicate NoTwins(r: NameRewriter, m: Fields, field: string) {
    field in m && m[field].Obj? ==> !Twins(r, m[field].fields.Keys)
  }

  ghost predicate NoTwinsIn(rs: Rules, m: Json) {
    m.Obj? ==> NoTwins(rs.labels, m.fields, "labels") && NoTwins(rs.annotations, m.fields, "annotations")
  }

  ghost predicate ClientMetadata(rs: Rules, m: Fields) {
    && ("managedFields" in m ==> ClientManagedFields(rs, m["managedFields"]))
    && ("labels" in m ==> ClientMap(rs.labels, m["labels"]))
    && ("annotations" in m ==> ClientMap(rs.annotations, m["annotations"]))
    && ("finalizers" in m ==> ClientFinalizers(rs.finalizers, m["finalizers"]))
    && ("ownerReferences" in m ==> ClientOwners(rs, m["ownerReferences"]))
  }

  // ---------------------------------------------------------------- field by field

  /** An array comes back exactly when each of its items does. */
  lemma OverItemsUndone(f: Json -> Json, g: Json -> Json, v: Json)
    requires v.Null? || v.Arr?
    ensures OverItems(g)(OverItems(f)(v)) == v <==> (v.Arr? ==> forall x | x in v.items :: g(f(x)) == x)
  {
    if v.Arr? && v.items != [] {
      var back := MapSeq(MapSeq(v.items, f), g);
      assert |back| == |v.items| && forall i | 0 <= i < |back| :: back[i] == g(f(v.items[i]));
      if back == v.items {
        forall x | x in v.items ensures g(f(x)) == x {
          var i :| 0 <= i < |v.items| && v.items[i] == x;
          assert back[i] == x;
        }
      }
    }
  }

  lemma FinalizerUndone(r: NameRewriter, v: Json)
    requires Coherent(r) && ClientFinalizer(r, v)
    ensures FinalizerItem(r, Restoring)(FinalizerItem(r, Renaming)(v)) == v
  {
    ClientRoundTrip(r, v.s, "");
    EmptyValueStays(r, v.s);
  }

  lemma FinalizersUndone(r: NameRewriter, v: Json)
    requires Coherent(r) && ClientFinalizers(r, v)
    ensures OverItems(FinalizerItem(r, Restoring))(OverItems(FinalizerItem(r, Renaming))(v)) == v
  {
    if v.Arr? {
      forall x | x in v.items ensures FinalizerItem(r, Restoring)(FinalizerItem(r, Renaming)(x)) == x { FinalizerUndone(r, x); }
    }
    OverItemsUndone(FinalizerItem(r, Renaming), FinalizerItem(r, Restoring), v);
  }

  lemma SetGvkBack(v: Json, kind: string, group: string, kind': string, group': string)
    requires Get(v, "kind") == Some(Str(kind)) && Get(v, "apiVersion") == Some(Str(group))
    ensures var sent := SetGVK(v, "apiVersion", kind', group');
            && TextAt(sent, "kind") == kind' && TextAt(sent, "apiVersion") == group'
            && SetGVK(sent, "apiVersion", kind, group) == v
  {
    var sent := SetGVK(v, "apiVersion", kind', group');
    assert SetGVK(sent, "apiVersion", kind, group).fields == v.fields;
  }

  lemma ClientVersionRoundTrip(rs: Rules, apiVersion: string)
    requires CoherentGroups(rs) && !IsRenamedGroup(rs, apiVersion)
    ensures RestoreApiVersion(rs.groupIndex, RenameApiVersion(rs.groupIndex, apiVersion)) == apiVersion
    ensures HasGroup(rs, apiVersion) ==> IsRenamedGroup(rs, RenameApiVersion(rs.groupIndex, apiVersion))
  {
    ApiVersionRoundTrip(rs.groupIndex, apiVersion);
    ApiVersionGroups(rs.groupIndex, apiVersion);
  }

  lemma OwnerUndone(rs: Rules, v: Json)
    requires CoherentGroups(rs) && ClientOwner(rs, v)
    ensures OwnerItem(rs, Restoring)(OwnerItem(rs, Renaming)(v)) == v
  {
    var kind, group := Get(v, "kind").value.s, Get(v, "apiVersion").value.s;
    if HasKindRules(rs, group, kind) {
      ClientVersionRoundTrip(rs, group);
      TrimOfPrefixed(rs.kindPrefix, kind);
      RuledOwnerUndone(rs, v, kind, group);
    }
  }

  lemma RuledOwnerUndone(rs: Rules, v: Json, kind: string, group: string)
    requires Get(v, "kind") == Some(Str(kind)) && Get(v, "apiVersion") == Some(Str(group)) && HasKindRules(rs, group, kind)
    requires RestoreApiVersion(rs.groupIndex, RenameApiVersion(rs.groupIndex, group)) == group
    requires IsRenamedGroup(rs, RenameApiVersion(rs.groupIndex, group)) && RestoreKind(rs, RenameKind(rs, kind)) == kind
    ensures OwnerItem(rs, Restoring)(OwnerItem(rs, Renaming)(v)) == v
  {
    SetGvkBack(v, kind, group, RenameKind(rs, kind), RenameApiVersion(rs.groupIndex, group));
  }

  lemma OwnersUndone(rs: Rules, v: Json)
    requires CoherentGroups(rs) && ClientOwners(rs, v)
    ensures OverItems(OwnerItem(rs, Restoring))(OverItems(OwnerItem(rs, Renaming))(v)) == v
  {
    if v.Arr? {
      forall x | x in v.items ensures OwnerItem(rs, Restoring)(OwnerItem(rs, Renaming)(x)) == x { OwnerUndone(rs, x); }
    }
    OverItemsUndone(OwnerItem(rs, Renaming), OwnerItem(rs, Restoring), v);
  }

  /** The version of an entry comes back exactly when its group is not a renamed one. */
  lemma VersionUndone(rs: Rules, apiVersion: string)
    requires CoherentGroups(rs)
    ensures RestoreApiVersion(rs.groupIndex, RenameApiVersion(rs.groupIndex, apiVersion)) == apiVersion <==> !IsRenamedGroup(rs, apiVersion)
  {
    ApiVersionRoundTrip(rs.groupIndex, apiVersion);
  }

  lemma ManagedTwice(rs: Rules, v: Json)
    ensures ManagedItem(rs, Restoring)(ManagedItem(rs, Renaming)(v))
            == match Get(v, "apiVersion")
               case Some(a) => Set(v, "apiVersion", Str(RestoreApiVersion(rs.groupIndex, RenameApiVersion(rs.groupIndex, AsText(a)))))
               case None => v
  {
    if Get(v, "apiVersion").Some? {
      var a' := RenameApiVersion(rs.groupIndex, AsText(Get(v, "apiVersion").value));
      var sent := Set(v, "apiVersion", Str(a'));
      assert ManagedItem(rs, Renaming)(v) == sent;
      TransformStringAt(sent, "apiVersion", a', VersionAction(rs, Restoring));
      SetTwice(v, "apiVersion", Str(a'), Str(RestoreApiVersion(rs.groupIndex, a')));
    }
  }

  lemma SetTwice(v: Json, field: string, a: Json, b: Json)
    ensures Set(Set(v, field, a), field, b) == Set(v, field, b)
  {
  }

  lemma SetSame(v: Json, field: string, a: Json)
    requires v.Obj? && field in v.fields
    ensures Set(v, field, a) == v <==> v.fields[field] == a
  {
  }

  lemma ManagedItemUndone(rs: Rules, v: Json)
    requires CoherentGroups(rs)
    ensures ManagedItem(rs, Restoring)(ManagedItem(rs, Renaming)(v)) == v <==> ClientManaged(rs, v)
  {
    ManagedTwice(rs, v);
    if Get(v, "apiVersion").Some? {
      var a := Get(v, "apiVersion").value;
      VersionUndone(rs, AsText(a));
      SetSame(v, "apiVersion", Str(RestoreApiVersion(rs.groupIndex, RenameApiVersion(rs.groupIndex, AsText(a)))));
    }
  }

  /** Managed fields come back exactly when every version they name is a string whose group is not a renamed one. */
  lemma ManagedUndone(rs: Rules, v: Json)
    requires CoherentGroups(rs) && (v.Null? || v.Arr?)
    ensures OverItems(ManagedItem(rs, Restoring))(OverItems(ManagedItem(rs, Renaming))(v)) == v <==> ClientManagedFields(rs, v)
  {
    forall x ensures ManagedItem(rs, Restoring)(ManagedItem(rs, Renaming)(x)) == x <==> ClientManaged(rs, x) { ManagedItemUndone(rs, x); }
    OverItemsUndone(ManagedItem(rs, Renaming), ManagedItem(rs, Restoring), v);
  }

  // ---------------------------------------------------------------- the whole metadata object

  ghost function AllMetadata(rs: Rules, action: Action): seq<Json -> Json> {
    [OverItems(ManagedItem(rs, action))] + MetadataRewriters(rs, action)
  }

  lemma MetadataNamesDistinct()
    ensures AllDistinct(["managedFields"] + METADATA)
  {
    assert |METADATA| == 4;
  }

  lemma ManagedThenMetadata(rs: Rules, m: Json, action: Action)
    requires m.Obj?
    ensures RewriteMetadata(rs, action)(RewriteManaged(rs, action)(m)) == AtFields(m, ["managedFields"] + METADATA, AllMetadata(rs, action))
  {
    var names, fs := ["managedFields"] + METADATA, AllMetadata(rs, action);
    assert names[1..] == METADATA && fs[1..] == MetadataRewriters(rs, action);
    assert RewriteManaged(rs, action)(m) == AtField(m, names[0], fs[0]);
  }

  lemma AllMetadataAt(rs: Rules, action: Action)
    ensures var fs := AllMetadata(rs, action);
            && |fs| == 5
            && fs[0] == OverItems(ManagedItem(rs, action))
            && fs[1] == LabelsField(rs.labels, action)
            && fs[2] == LabelsField(rs.annotations, action)
            && fs[3] == OverItems(FinalizerItem(rs.finalizers, action))
            && fs[4] == OverItems(OwnerItem(rs, action))
  {
  }

  ghost predicate ListsUndone(rs: Rules, m: Fields) {
    && FieldUndone(m, "managedFields", OverItems(ManagedItem(rs, Renaming)), OverItems(ManagedItem(rs, Restoring)))
    && FieldUndone(m, "finalizers", OverItems(FinalizerItem(rs.finalizers, Renaming)), OverItems(FinalizerItem(rs.finalizers, Restoring)))
    && FieldUndone(m, "ownerReferences", OverItems(OwnerItem(rs, Renaming)), OverItems(OwnerItem(rs, Restoring)))
  }

  ghost predicate MapsUndone(rs: Rules, m: Fields) {
    && FieldUndone(m, "labels", LabelsField(rs.labels, Renaming), LabelsField(rs.labels, Restoring))
    && FieldUndone(m, "annotations", LabelsField(rs.annotations, Renaming), LabelsField(rs.annotations, Restoring))
  }

  lemma MetadataFieldsUndone(rs: Rules, m: Json)
    requires m.Obj?
    ensures AtFields(AtFields(m, ["managedFields"] + METADATA, AllMetadata(rs, Renaming)), ["managedFields"] + METADATA, AllMetadata(rs, Restoring)) == m
            <==> ListsUndone(rs, m.fields) && MapsUndone(rs, m.fields)
  {
    MetadataNamesDistinct();
    AllMetadataAt(rs, Renaming);
    AllMetadataAt(rs, Restoring);
    FiveUndone(m, ["managedFields"] + METADATA, AllMetadata(rs, Renaming), AllMetadata(rs, Restoring));
  }

  lemma MetadataFieldTwice(rs: Rules, m: Json)
    requires m.Obj?
    ensures MetadataField(rs, Restoring)(MetadataField(rs, Renaming)(m))
            == AtFields(AtFields(m, ["managedFields"] + METADATA, AllMetadata(rs, Renaming)), ["managedFields"] + METADATA, AllMetadata(rs, Restoring))
  {
    MetadataNamesDistinct();
    ManagedThenMetadata(rs, m, Renaming);
    FieldAfter(m, ["managedFields"] + METADATA, AllMetadata(rs, Renaming), "");
    ManagedThenMetadata(rs, AtFields(m, ["managedFields"] + METADATA, AllMetadata(rs, Renaming)), Restoring);
  }

  lemma FiveUndone(m: Json, names: seq<string>, fs: seq<Json -> Json>, gs: seq<Json -> Json>)
    requires m.Obj? && |names| == |fs| == |gs| == 5 && AllDistinct(names)
    ensures AtFields(AtFields(m, names, fs), names, gs) == m <==>
              && FieldUndone(m.fields, names[0], fs[0], gs[0]) && FieldUndone(m.fields, names[1], fs[1], gs[1])
              && FieldUndone(m.fields, names[2], fs[2], gs[2]) && FieldUndone(m.fields, names[3], fs[3], gs[3])
              && FieldUndone(m.fields, names[4], fs[4], gs[4])
  {
    FieldsUndone(m, names, fs, gs);
    if AtFields(AtFields(m, names, fs), names, gs) != m {
      var i :| 0 <= i < 5 && !FieldUndone(m.fields, names[i], fs[i], gs[i]);
      assert i == 0 || i == 1 || i == 2 || i == 3 || i == 4;
    }
  }

  /** A client's label or annotation field comes back exactly when it holds no twins. */
  lemma LabelsUndone(r: NameRewriter, m: Fields, field: string)
    requires Coherent(r) && NamesFollow(r) && (field in m ==> ClientMap(r, m[field]))
    ensures FieldUndone(m, field, LabelsField(r, Renaming), LabelsField(r, Restoring)) <==> NoTwins(r, m, field)
  {
    if field in m { StringMapRoundTrip(r, m[field]); }
  }

  /** Once lists and owner references come back, the metadata comes back exactly when labels and annotations do. */
  lemma MetadataUndone(rs: Rules, m: Json)
    requires m.Obj? ==> ListsUndone(rs, m.fields)
    ensures MetadataField(rs, Restoring)(MetadataField(rs, Renaming)(m)) == m <==> (m.Obj? ==> MapsUndone(rs, m.fields))
  {
    if m.Obj? {
      MetadataFieldsUndone(rs, m);
      MetadataFieldTwice(rs, m);
    } else {
      NonObjectStays(rs, m, Renaming);
      NonObjectStays(rs, m, Restoring);
    }
  }

  lemma NonObjectStays(rs: Rules, m: Json, action: Action)
    requires !m.Obj?
    ensures MetadataField(rs, action)(m) == m
  {
    assert RewriteManaged(rs, action)(m) == m;
  }

  lemma MapFieldsUndone(rs: Rules, m: Fields)
    requires Coherent(rs.labels) && NamesFollow(rs.labels) && Coherent(rs.annotations) && NamesFollow(rs.annotations)
    requires ClientMetadata(rs, m)
    ensures MapsUndone(rs, m) <==> NoTwinsIn(rs, Obj(m))
  {
    LabelsUndone(rs.labels, m, "labels");
    LabelsUndone(rs.annotations, m, "annotations");
  }

  lemma ListFieldsUndone(rs: Rules, m: Fields)
    requires CoherentGroups(rs) && Coherent(rs.finalizers) && ClientMetadata(rs, m)
    ensures ListsUndone(rs, m)
  {
    if "managedFields" in m { ManagedUndone(rs, m["managedFields"]); }
    if "finalizers" in m { FinalizersUndone(rs.finalizers, m["finalizers"]); }
    if "ownerReferences" in m { OwnersUndone(rs, m["ownerReferences"]); }
  }

  // ---------------------------------------------------------------- the whole object

  ghost function TextField(f: string -> string): Json -> Json {
    v => Str(f(AsText(v)))
  }

  ghost function KindField(rs: Rules, action: Action): string -> string {
    k => KindAction(rs, action, k)
  }

  ghost function MetadataField(rs: Rules, action: Action): Json -> Json {
    m => RewriteMetadata(rs, action)(RewriteManaged(rs, action)(m))
  }

  const TOP: seq<string> := ["apiVersion", "kind", "metadata"]

  ghost function TopRewriters(rs: Rules, action: Action): seq<Json -> Json> {
    [TextField(VersionAction(rs, action)), TextField(KindField(rs, action)), MetadataField(rs, action)]
  }

  lemma TopNamesDistinct()
    ensures AllDistinct(TOP) && |TOP| == 3
  {
  }

  lemma AtFieldTwice(j: Json, field: string, f: Json -> Json, g: Json -> Json)
    ensures AtField(AtField(j, field, f), field, g) == match Get(j, field) case Some(v) => Set(j, field, g(f(v))) case None => j
  {
  }

  lemma AtFieldsThree(j: Json, a: string, b: string, c: string, f: Json -> Json, g: Json -> Json, h: Json -> Json)
    ensures AtFields(j, [a, b, c], [f, g, h]) == AtField(AtField(AtField(j, a, f), b, g), c, h)
  {
    var j1 := AtField(j, a, f);
    var j2 := AtField(j1, b, g);
    assert [a, b, c][1..] == [b, c] && [f, g, h][1..] == [g, h];
    assert [b, c][1..] == [c] && [g, h][1..] == [h];
    assert AtFields(j1, [b, c], [g, h]) == AtFields(j2, [c], [h]);
    assert [c][1..] == [] && [h][1..] == [];
    assert AtFields(j2, [c], [h]) == AtFields(AtField(j2, c, h), [], []);
  }

  lemma TextFieldAt(f: string -> string, text: string)
    ensures TextField(f)(Str(text)) == Str(f(text))
  {
    assert AsText(Str(text)) == text;
  }

  lemma AtTextField(j: Json, field: string, text: string, f: string -> string)
    requires Get(j, field) == Some(Str(text))
    ensures AtField(j, field, TextField(f)) == Set(j, field, Str(f(text)))
  {
    TextFieldAt(f, text);
  }

  lemma VersionAndKindShape(rs: Rules, obj: Json, action: Action, apiVersion: string, kind: string)
    requires Get(obj, "apiVersion") == Some(Str(apiVersion)) && Get(obj, "kind") == Some(Str(kind))
    ensures AtField(AtField(obj, "apiVersion", TextField(VersionAction(rs, action))), "kind", TextField(KindField(rs, action)))
            == RewriteVersionAndKind(rs, obj, action)
  {
    var obj1 := Set(obj, "apiVersion", Str(ApiVersionAction(rs, action, apiVersion)));
    AtTextField(obj, "apiVersion", apiVersion, VersionAction(rs, action));
    assert Get(obj1, "kind") == Some(Str(kind));
    AtTextField(obj1, "kind", kind, KindField(rs, action));
    assert AsText(Str(apiVersion)) == apiVersion && AsText(Str(kind)) == kind;
  }

  /** Version, kind and metadata are the only fields touched, and each on its own. */
  lemma ResourceShape(rs: Rules, obj: Json, action: Action, apiVersion: string, kind: string)
    requires Get(obj, "apiVersion") == Some(Str(apiVersion)) && Get(obj, "kind") == Some(Str(kind))
    ensures OneMetadata(rs, action)(RewriteResource(rs, obj, action)) == AtFields(obj, TOP, TopRewriters(rs, action))
  {
    var fs := TopRewriters(rs, action);
    AtFieldsThree(obj, "apiVersion", "kind", "metadata", fs[0], fs[1], fs[2]);
    VersionAndKindShape(rs, obj, action, apiVersion, kind);
    TwoMetadataPasses(rs, RewriteVersionAndKind(rs, obj, action), action);
  }

  lemma TwoMetadataPasses(rs: Rules, obj: Json, action: Action)
    ensures OneMetadata(rs, action)(AtField(obj, "metadata", RewriteManaged(rs, action)))
            == AtField(obj, "metadata", MetadataField(rs, action))
  {
    AtFieldTwice(obj, "metadata", RewriteManaged(rs, action), RewriteMetadata(rs, action));
  }

  /** A kind that the dispatcher hands to the custom-resource rewriter, as a single object. */
  predicate CustomKind(fo: Foreign, kind: string) {
    && Excludable(kind) && kind !in fo.builtIn && !HasSuffix(kind, LIST)
    && kind != CRD_KIND && kind != MONITOR_KIND
  }

  lemma SuffixOfConcat(s: string, suffix: string)
    ensures HasSuffix(s + suffix, suffix) && TrimSuffix(s + suffix, suffix) == s
  {
  }

  lemma CustomIsDispatched(rs: Rules, fo: Foreign, kind: string, obj: Json, action: Action)
    requires CustomKind(fo, kind)
    ensures Dispatch(rs, fo, kind, obj, action) == Replace(RewriteCustomResourceOrList(rs, obj, action))
  {
    SuffixOfConcat(CRD_KIND, LIST);
    SuffixOfConcat(MONITOR_KIND, LIST);
  }

  lemma KindAfter(rs: Rules, obj: Json, action: Action, apiVersion: string, kind: string)
    requires Get(obj, "apiVersion") == Some(Str(apiVersion)) && Get(obj, "kind") == Some(Str(kind))
    ensures TextAt(RewriteResource(rs, obj, action), "kind") == KindAction(rs, action, kind)
  {
  }

  /** A single custom resource that is not excluded is rewritten field by field. */
  lemma CustomResourcePayload(rs: Rules, fo: Foreign, obj: Json, action: Action, apiVersion: string, kind: string)
    requires Get(obj, "apiVersion") == Some(Str(apiVersion)) && Get(obj, "kind") == Some(Str(kind))
    requires CustomKind(fo, kind) && !HasSuffix(KindAction(rs, action, kind), LIST)
    requires HasKind(rs.groups, if action.Restoring? then RestoreKind(rs, kind) else kind)
    requires action.Restoring? ==> !ShouldExclude(rs.excludes, obj, kind)
    ensures RewriteJSONPayload(rs, fo, obj, action) == Replace(AtFields(obj, TOP, TopRewriters(rs, action)))
  {
    assert TextAt(obj, "kind") == kind;
    assert FilterExcludes(rs, obj, action) == Replace(obj);
    CustomIsDispatched(rs, fo, kind, obj, action);
    KindAfter(rs, obj, action, apiVersion, kind);
    ResourceShape(rs, obj, action, apiVersion, kind);
  }

  /** Three top-level fields, whatever is done to them. */
  lemma TopFieldsUndone(obj: Json, a: Json, k: Json, fs: seq<Json -> Json>, gs: seq<Json -> Json>)
    requires Get(obj, "apiVersion") == Some(a) && Get(obj, "kind") == Some(k) && |fs| == |gs| == 3
    requires gs[0](fs[0](a)) == a && gs[1](fs[1](k)) == k
    ensures var sent := AtFields(obj, TOP, fs);
            && Get(sent, "apiVersion") == Some(fs[0](a)) && Get(sent, "kind") == Some(fs[1](k))
            && (AtFields(sent, TOP, gs) == obj <==> FieldUndone(obj.fields, "metadata", fs[2], gs[2]))
  {
    TopNamesDistinct();
    FieldAfter(obj, TOP, fs, TOP[0]);
    FieldAfter(obj, TOP, fs, TOP[1]);
    ThreeUndone(obj, TOP, fs, gs);
  }

  lemma ThreeUndone(m: Json, names: seq<string>, fs: seq<Json -> Json>, gs: seq<Json -> Json>)
    requires m.Obj? && |names| == |fs| == |gs| == 3 && AllDistinct(names)
    ensures AtFields(AtFields(m, names, fs), names, gs) == m <==>
              && FieldUndone(m.fields, names[0], fs[0], gs[0]) && FieldUndone(m.fields, names[1], fs[1], gs[1])
              && FieldUndone(m.fields, names[2], fs[2], gs[2])
  {
    FieldsUndone(m, names, fs, gs);
    if AtFields(AtFields(m, names, fs), names, gs) != m {
      var i :| 0 <= i < 3 && !FieldUndone(m.fields, names[i], fs[i], gs[i]);
      assert i == 0 || i == 1 || i == 2;
    }
  }

  /** The metadata of an object, if it is there, holds no twins. */
  ghost predicate NoTwinsOf(rs: Rules, obj: Json) {
    match Get(obj, "metadata") case Some(m) => NoTwinsIn(rs, m) case None => true
  }

  /**
    Whole-object transparency: a client's custom resource of a ruled kind is renamed, and when the
    renamed form is not excluded, restoring it gives the same object, every field of it, exactly
    when neither its labels nor its annotations hold a name that stays beside its preserved form.
   */
  lemma WholeObjectRoundTrip(rs: Rules, fo: Foreign, obj: Json, apiVersion: string, kind: string)
    requires CoherentRules(rs)
    requires Get(obj, "apiVersion") == Some(Str(apiVersion)) && Get(obj, "kind") == Some(Str(kind))
    requires !IsRenamedGroup(rs, apiVersion) && HasKind(rs.groups, kind) && !HasListKind(rs.groups, kind)
    requires CustomKind(fo, kind) && CustomKind(fo, RenameKind(rs, kind))
    requires "metadata" in obj.fields && obj.fields["metadata"].Obj? ==> ClientMetadata(rs, obj.fields["metadata"].fields)
    ensures var sent := RewriteJSONPayload(rs, fo, obj, Renaming);
            && sent.Replace?
            && (!ShouldExclude(rs.excludes, sent.body, RenameKind(rs, kind)) ==>
                  (RewriteJSONPayload(rs, fo, sent.body, Restoring) == Replace(obj) <==> NoTwinsOf(rs, obj)))
  {
    TrimOfPrefixed(rs.kindPrefix, kind);
    ClientVersionRoundTrip(rs, apiVersion);
    if "metadata" in obj.fields && obj.fields["metadata"].Obj? {
      MapFieldsUndone(rs, obj.fields["metadata"].fields);
      ListFieldsUndone(rs, obj.fields["metadata"].fields);
    }
    TransparentOnce(rs, fo, obj, apiVersion, kind);
  }

  ghost predicate MapsComeBack(rs: Rules, obj: Json) {
    match Get(obj, "metadata") case Some(m) => m.Obj? ==> MapsUndone(rs, m.fields) case None => true
  }

  ghost predicate ListsComeBack(rs: Rules, obj: Json) {
    match Get(obj, "metadata") case Some(m) => m.Obj? ==> ListsUndone(rs, m.fields) case None => true
  }

  lemma ObjectMetadataUndone(rs: Rules, obj: Json)
    requires obj.Obj? && ListsComeBack(rs, obj)
    ensures FieldUndone(obj.fields, "metadata", MetadataField(rs, Renaming), MetadataField(rs, Restoring)) <==> MapsComeBack(rs, obj)
  {
    if "metadata" in obj.fields { MetadataUndone(rs, obj.fields["metadata"]); }
  }

  lemma TransparentOnce(rs: Rules, fo: Foreign, obj: Json, apiVersion: string, kind: string)
    requires Get(obj, "apiVersion") == Some(Str(apiVersion)) && Get(obj, "kind") == Some(Str(kind))
    requires HasKind(rs.groups, kind) && CustomKind(fo, kind) && CustomKind(fo, RenameKind(rs, kind))
    requires RestoreApiVersion(rs.groupIndex, RenameApiVersion(rs.groupIndex, apiVersion)) == apiVersion
    requires RestoreKind(rs, RenameKind(rs, kind)) == kind && ListsComeBack(rs, obj)
    ensures var sent := RewriteJSONPayload(rs, fo, obj, Renaming);
            && sent.Replace?
            && (!ShouldExclude(rs.excludes, sent.body, RenameKind(rs, kind)) ==>
                  (RewriteJSONPayload(rs, fo, sent.body, Restoring) == Replace(obj) <==> MapsComeBack(rs, obj)))
  {
    ObjectMetadataUndone(rs, obj);
    var sent := AtFields(obj, TOP, TopRewriters(rs, Renaming));
    TopRoundTrip(rs, obj, apiVersion, kind);
    CustomResourcePayload(rs, fo, obj, Renaming, apiVersion, kind);
    if !ShouldExclude(rs.excludes, sent, RenameKind(rs, kind)) {
      CustomResourcePayload(rs, fo, sent, Restoring, RenameApiVersion(rs.groupIndex, apiVersion), RenameKind(rs, kind));
    }
  }

  lemma TopRoundTrip(rs: Rules, obj: Json, apiVersion: string, kind: string)
    requires Get(obj, "apiVersion") == Some(Str(apiVersion)) && Get(obj, "kind") == Some(Str(kind))
    requires RestoreApiVersion(rs.groupIndex, RenameApiVersion(rs.groupIndex, apiVersion)) == apiVersion
    requires RestoreKind(rs, RenameKind(rs, kind)) == kind
    ensures var sent := AtFields(obj, TOP, TopRewriters(rs, Renaming));
            && Get(sent, "apiVersion") == Some(Str(RenameApiVersion(rs.groupIndex, apiVersion)))
            && Get(sent, "kind") == Some(Str(RenameKind(rs, kind)))
            && (AtFields(sent, TOP, TopRewriters(rs, Restoring)) == obj
                <==> FieldUndone(obj.fields, "metadata", MetadataField(rs, Renaming), MetadataField(rs, Restoring)))
  {
    TextFieldAt(VersionAction(rs, Renaming), apiVersion);
    TextFieldAt(VersionAction(rs, Restoring), RenameApiVersion(rs.groupIndex, apiVersion));
    TextFieldAt(KindField(rs, Renaming), kind);
    TextFieldAt(KindField(rs, Restoring), RenameKind(rs, kind));
    TopFieldsUndone(obj, Str(apiVersion), Str(kind), TopRewriters(rs, Renaming), TopRewriters(rs, Restoring));
  }
}
