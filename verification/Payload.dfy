/**
  RewriteJSONPayload: the dispatch on kind, the rewriting of custom resources and of the metadata
  every object carries.
 */
module Payload {
  import opened Text
  import opened NameRewriting
  import opened RoundTrips
  import opened LabelMaps
  import opened Rules
  import opened Json
  import opened Arrays
  import opened Transforms
  import opened Excludes
  import opened Crd

  // ---------------------------------------------------------------- rewriting several fields

  ghost function AtFields(j: Json, names: seq<string>, fs: seq<Json -> Json>): Json
    requires |names| == |fs|
    decreases |names|
  {
    if names == [] then j else AtFields(AtField(j, names[0], fs[0]), names[1..], fs[1..])
  }

  predicate AllDistinct(names: seq<string>) {
    forall i, j | 0 <= i < j < |names| :: names[i] != names[j]
  }

  /** Distinct fields are rewritten independently; all other fields stay. */
  lemma {:induction false} FieldAfter(j: Json, names: seq<string>, fs: seq<Json -> Json>, field: string)
    requires j.Obj? && |names| == |fs| && AllDistinct(names)
    ensures AtFields(j, names, fs).Obj?
    ensures field !in names ==> Get(AtFields(j, names, fs), field) == Get(j, field)
    ensures forall i | 0 <= i < |names| && names[i] == field ::
              Get(AtFields(j, names, fs), field) == match Get(j, field) case Some(v) => Some(fs[i](v)) case None => None
    decreases |names|
  {
    if names != [] {
      FieldAfter(AtField(j, names[0], fs[0]), names[1..], fs[1..], field);
      assert names == [names[0]] + names[1..];
      forall i | 0 <= i < |names| && names[i] == field
        ensures Get(AtFields(j, names, fs), field) == match Get(j, field) case Some(v) => Some(fs[i](v)) case None => None
      {
        if i > 0 { assert names[1..][i - 1] == field; }
      }
    }
  }

  /** Rewriting distinct fields and rewriting them back gives the object back exactly when each field comes back. */
  lemma FieldsUndone(j: Json, names: seq<string>, fs: seq<Json -> Json>, gs: seq<Json -> Json>)
    requires j.Obj? && |names| == |fs| == |gs| && AllDistinct(names)
    ensures AtFields(AtFields(j, names, fs), names, gs) == j <==>
              forall i | 0 <= i < |names| :: FieldUndone(j.fields, names[i], fs[i], gs[i])
  {
    var mid := AtFields(j, names, fs);
    FieldAfter(j, names, fs, "");
    FieldAfter(mid, names, gs, "");
    var back := AtFields(mid, names, gs);
    forall i | 0 <= i < |names| ensures Get(back, names[i]) == Get(j, names[i]) <==> FieldUndone(j.fields, names[i], fs[i], gs[i]) {
      FieldAfter(j, names, fs, names[i]);
      FieldAfter(mid, names, gs, names[i]);
    }
    if forall i | 0 <= i < |names| :: FieldUndone(j.fields, names[i], fs[i], gs[i]) {
      forall field ensures Get(back, field) == Get(j, field) {
        FieldAfter(j, names, fs, field);
        FieldAfter(mid, names, gs, field);
        if field in names {
          var i :| 0 <= i < |names| && names[i] == field;
          assert Get(back, names[i]) == Get(j, names[i]);
        }
      }
      SameFields(back, j);
    }
  }

  ghost predicate FieldUndone(m: Fields, field: string, f: Json -> Json, g: Json -> Json) {
    field in m ==> g(f(m[field])) == m[field]
  }

  lemma SameFields(a: Json, b: Json)
    requires a.Obj? && b.Obj? && forall field :: Get(a, field) == Get(b, field)
    ensures a == b
  {
    forall k | k in a.fields ensures k in b.fields && a.fields[k] == b.fields[k] { assert Get(a, k) == Get(b, k); }
    forall k | k in b.fields ensures k in a.fields { assert Get(a, k) == Get(b, k); }
  }

  // ---------------------------------------------------------------- metadata

  ghost function ApiVersionAction(rs: Rules, action: Action, apiVersion: string): string {
    if action.Renaming? then RenameApiVersion(rs.groupIndex, apiVersion) else RestoreApiVersion(rs.groupIndex, apiVersion)
  }

  ghost function VersionAction(rs: Rules, action: Action): string -> string {
    a => ApiVersionAction(rs, action, a)
  }

  ghost function KindAction(rs: Rules, action: Action, kind: string): string {
    if action.Renaming? then RenameKind(rs, kind) else RestoreKind(rs, kind)
  }

  /** RewriteGVK: both fields, and only when the kind and group have a rule. */
  ghost function RewriteGVK(rs: Rules, obj: Json, action: Action, groupField: string): Json {
    var kind, group := TextAt(obj, "kind"), TextAt(obj, groupField);
    var kind', group' := KindAction(rs, action, kind), ApiVersionAction(rs, action, group);
    var ruled := match action
                 case Renaming => HasKindRules(rs, group, kind)
                 case Restoring => IsRenamedGroup(rs, group) && HasKindRules(rs, group', kind');
    if ruled then SetGVK(obj, groupField, kind', group') else obj
  }

  function SetGVK(obj: Json, groupField: string, kind: string, group: string): Json {
    Set(Set(obj, "kind", Str(kind)), groupField, Str(group))
  }

  ghost function LabelsField(r: NameRewriter, action: Action): Json -> Json {
    v => RewriteStringMap(v, Rewriter(r, action))
  }

  ghost function FinalizerItem(r: NameRewriter, action: Action): Json -> Json {
    v => Str(Rewrite(r, action, AsText(v), "").0)
  }

  ghost function OwnerItem(rs: Rules, action: Action): Json -> Json {
    v => RewriteGVK(rs, v, action, "apiVersion")
  }

  ghost function ManagedItem(rs: Rules, action: Action): Json -> Json {
    v => TransformString(v, "apiVersion", VersionAction(rs, action))
  }

  const METADATA: seq<string> := ["labels", "annotations", "finalizers", "ownerReferences"]

  ghost function MetadataRewriters(rs: Rules, action: Action): seq<Json -> Json> {
    [LabelsField(rs.labels, action), LabelsField(rs.annotations, action), OverItems(FinalizerItem(rs.finalizers, action)), OverItems(OwnerItem(rs, action))]
  }

  /** Several fields of a value that is an object; any other value is left alone. */
  ghost function OnObject(names: seq<string>, fs: seq<Json -> Json>): Json -> Json
    requires |names| == |fs|
  {
    (v: Json) => if v.Obj? then AtFields(v, names, fs) else v
  }

  ghost function RewriteMetadata(rs: Rules, action: Action): Json -> Json {
    OnObject(METADATA, MetadataRewriters(rs, action))
  }

  lemma MetadataDistinct()
    ensures AllDistinct(METADATA) && |METADATA| == 4
  {
  }

  // ---------------------------------------------------------------- custom resources

  ghost function RewriteVersionAndKind(rs: Rules, obj: Json, action: Action): Json {
    SetHeader(obj, ApiVersionAction(rs, action, TextAt(obj, "apiVersion")), KindAction(rs, action, TextAt(obj, "kind")))
  }

  function SetHeader(obj: Json, apiVersion: string, kind: string): Json {
    Set(Set(obj, "apiVersion", Str(apiVersion)), "kind", Str(kind))
  }

  ghost function RewriteManaged(rs: Rules, action: Action): Json -> Json {
    v => AtField(v, "managedFields", OverItems(ManagedItem(rs, action)))
  }

  ghost function RewriteResource(rs: Rules, obj: Json, action: Action): Json {
    AtField(RewriteVersionAndKind(rs, obj, action), "metadata", RewriteManaged(rs, action))
  }

  ghost function RewriteCustomResourceOrList(rs: Rules, obj: Json, action: Action): Json {
    var kind := TextAt(obj, "kind");
    var original := if action.Restoring? then RestoreKind(rs, kind) else kind;
    if HasKind(rs.groups, original) then RewriteResource(rs, obj, action)
    else if HasListKind(rs.groups, original) then
      MapArray(RewriteVersionAndKind(rs, obj, action), "items", ResourceItem(rs, action))
    else obj
  }

  ghost function ResourceItem(rs: Rules, action: Action): Json -> Json {
    item => RewriteResource(rs, item, action)
  }

  // ---------------------------------------------------------------- the dispatcher

  /**
    What the dispatcher calls for kinds whose inner structure is not represented: the top-level
    field that the rewriter of a built-in kind works below, what it does there, and the discovery
    and AdmissionReview kinds altogether.
   */
  datatype Foreign = Foreign(
    builtIn: map<string, string>,
    inside: (string, Json, Action) -> Json,
    special: (string, Json, Action) -> Outcome<Json>)

  const CRD_KIND := "CustomResourceDefinition"
  const MONITOR_KIND := "ServiceMonitor"
  const LIST := "List"

  /** The built-in kinds of the source, each with the top-level field its rewriter works below. */
  const BUILT_IN: map<string, string> :=
    map["MutatingWebhookConfiguration" := "webhooks", "ValidatingWebhookConfiguration" := "webhooks",
        "Event" := "involvedObject", "ClusterRole" := "rules", "Role" := "rules",
        "Deployment" := "spec", "StatefulSet" := "spec", "DaemonSet" := "spec", "Pod" := "spec",
        "PodDisruptionBudget" := "spec", "Job" := "spec", "Service" := "spec", "PersistentVolumeClaim" := "spec",
        "ValidatingAdmissionPolicyBinding" := "spec", "ValidatingAdmissionPolicy" := "spec"]

  ghost function RewriteCrdItem(rs: Rules, action: Action): Json -> Outcome<Json> {
    item => if action.Renaming? then RenameCRD(rs, item) else RestoreCRD(rs, item)
  }

  ghost function RewriteBuiltIn(fo: Foreign, single: string, action: Action): Json -> Json
    requires single in fo.builtIn
  {
    item => AtField(item, fo.builtIn[single], v => fo.inside(single, v, action))
  }

  ghost function ToOutcome(out: Option<Json>): Outcome<Json> {
    match out case Some(body) => Replace(body) case None => Abort
  }

  ghost function Dispatch(rs: Rules, fo: Foreign, kind: string, obj: Json, action: Action): Outcome<Json> {
    if !Excludable(kind) then fo.special(kind, obj, action)
    else if kind == CRD_KIND then RewriteCrdItem(rs, action)(obj)
    else if kind == CRD_KIND + LIST then ToOutcome(RewriteArray(obj, "items", RewriteCrdItem(rs, action)))
    else if kind == MONITOR_KIND || kind == MONITOR_KIND + LIST then
      Replace(AtField(obj, "spec", v => fo.inside(MONITOR_KIND, v, action)))
    else if kind in fo.builtIn then Replace(RewriteBuiltIn(fo, kind, action)(obj))
    else if HasSuffix(kind, LIST) && TrimSuffix(kind, LIST) in fo.builtIn then
      Replace(MapArray(obj, "items", RewriteBuiltIn(fo, TrimSuffix(kind, LIST), action)))
    else Replace(RewriteCustomResourceOrList(rs, obj, action))
  }

  /** The last step: metadata of the object, or of every item of a list. */
  ghost function FinishMetadata(rs: Rules, obj: Json, action: Action): Json {
    if HasSuffix(TextAt(obj, "kind"), LIST) then MapArray(obj, "items", OneMetadata(rs, action))
    else OneMetadata(rs, action)(obj)
  }

  ghost function OneMetadata(rs: Rules, action: Action): Json -> Json {
    obj => AtField(obj, "metadata", RewriteMetadata(rs, action))
  }

  /** Keep stands for the empty body that a single CRD without a rule ends in. */
  ghost function RewriteJSONPayload(rs: Rules, fo: Foreign, obj: Json, action: Action): Outcome<Json> {
    match FilterExcludes(rs, obj, action)
    case Replace(passed) =>
      (match Dispatch(rs, fo, TextAt(obj, "kind"), passed, action)
       case Replace(body) => Replace(FinishMetadata(rs, body, action))
       case other => other)
    case other => other
  }
}
