/** Custom resource definitions as payloads, alone and in lists: what is sent, what comes back, what is dropped. */
module CrdPayloads {
  import opened Text
  import opened NameRewriting
  import opened RoundTrips
  import opened LabelMaps
  import opened Rules
  import opened Json
  import opened Arrays
  import opened Transforms
  import opened Excludes
  import opened Crd
  import opened Payload
  import opened Transparency
  import opened Lists
  import opened Results

  // ---------------------------------------------------------------- one CRD

  function PluralOf(name: string): string { Cut(name, '.').before }

  function GroupPart(name: string): string { Cut(name, '.').after }

  /** A CRD whose name is a ruled plural and its group. */
  ghost predicate RuledCrd(rs: Rules, obj: Json) {
    && TextAt(obj, "kind") == CRD_KIND && IsCrd(obj, PluralOf(NameText(obj)), GroupPart(NameText(obj)))
    && IsRuled(rs.groups, GroupPart(NameText(obj)), PluralOf(NameText(obj)))
  }

  /** What a client may put into the metadata of a CRD, whose managed fields are not rewritten. */
  ghost predicate ClientCrd(rs: Rules, obj: Json) {
    match Get(obj, "metadata") case Some(m) => m.Obj? && ClientMetadata(rs, m.fields - {"managedFields"}) case None => false
  }

  /** out is obj renamed as the rule says, and then its metadata rewritten. */
  ghost predicate SentTo(rs: Rules, obj: Json, out: Json, plural: string, group: string, renamed: string, rule: ResourceRule) {
    exists mid :: CrdRenamedTo(rs, obj, mid, plural, group, renamed, rule) && MetadataFieldTo(rs, Renaming, mid, out)
  }

  /** A ruled CRD is sent under its renamed name, as the rule says, with its metadata rewritten. */
  lemma CrdIsSent(rs: Rules, fo: Foreign, obj: Json)
    requires RenamesApart(rs) && CoherentResources(rs) && RuledCrd(rs, obj)
    ensures var plural, group := PluralOf(NameText(obj)), GroupPart(NameText(obj));
            var sent := RewriteJSONPayload(rs, fo, obj, Renaming);
            && RenameCRD(rs, obj).Replace? && sent == Replace(CrdSent(rs, obj))
            && NameText(sent.body) == rs.resourceTypePrefix + plural + "." + rs.groupIndex.idx[group]
            && SentTo(rs, obj, sent.body, plural, group, rs.groupIndex.idx[group], rs.groups[group].resourceRules[plural])
  {
    var plural, group := PluralOf(NameText(obj)), GroupPart(NameText(obj));
    CrdIsRenamed(rs, obj, plural, group);
    RenamedIsSent(rs, fo, obj, plural, group, rs.groupIndex.idx[group], rs.groups[group].resourceRules[plural]);
  }

  lemma RenamedIsSent(rs: Rules, fo: Foreign, obj: Json, plural: string, group: string, renamed: string, rule: ResourceRule)
    requires TextAt(obj, "kind") == CRD_KIND && RenameCRD(rs, obj).Replace?
    requires CrdRenamedTo(rs, obj, RenameCRD(rs, obj).body, plural, group, renamed, rule)
    ensures RewriteJSONPayload(rs, fo, obj, Renaming) == Replace(CrdSent(rs, obj))
    ensures NameText(CrdSent(rs, obj)) == rs.resourceTypePrefix + plural + "." + renamed
    ensures SentTo(rs, obj, CrdSent(rs, obj), plural, group, renamed, rule)
  {
    var mid := RenameCRD(rs, obj).body;
    SentIsPayload(rs, fo, obj);
    OneMetadataWritten(rs, Renaming, mid);
    NameAfterMetadata(rs, Renaming, mid, CrdSent(rs, obj));
    RenamedHasName(rs, obj, mid, plural, group, renamed, rule);
  }

  lemma SentIsPayload(rs: Rules, fo: Foreign, obj: Json)
    requires TextAt(obj, "kind") == CRD_KIND && RenameCRD(rs, obj).Replace?
    ensures RewriteJSONPayload(rs, fo, obj, Renaming) == Replace(CrdSent(rs, obj))
  {
    CrdAlone(rs, fo, obj, Renaming);
    assert RewriteCrdItem(rs, Renaming)(obj) == RenameCRD(rs, obj);
  }

  lemma RenamedHasName(rs: Rules, obj: Json, out: Json, plural: string, group: string, renamed: string, rule: ResourceRule)
    requires CrdRenamedTo(rs, obj, out, plural, group, renamed, rule)
    ensures NameText(out) == rs.resourceTypePrefix + plural + "." + renamed
  {
  }

  lemma NameAfterMetadata(rs: Rules, action: Action, obj: Json, out: Json)
    requires MetadataFieldTo(rs, action, obj, out)
    ensures NameText(out) == NameText(obj)
  {
    MetadataDistinct();
    if Get(obj, "metadata").Some? && Get(obj, "metadata").value.Obj? {
      assert "name" !in METADATA;
      assert MetadataTo(rs, action, Get(obj, "metadata").value, Get(out, "metadata").value);
    }
  }

  lemma SetPastFields(m: Json, names: seq<string>, fs: seq<Json -> Json>, field: string, v: Json)
    requires m.Obj? && |names| == |fs| && AllDistinct(names) && field !in names
    ensures AtFields(Set(m, field, v), names, fs) == Set(AtFields(m, names, fs), field, v)
  {
    FieldAfter(m, names, fs, "");
    FieldAfter(Set(m, field, v), names, fs, "");
    var left, right := AtFields(Set(m, field, v), names, fs), Set(AtFields(m, names, fs), field, v);
    forall k ensures Get(left, k) == Get(right, k) {
      FieldAfter(m, names, fs, k);
      FieldAfter(Set(m, field, v), names, fs, k);
      if k in names { var i :| 0 <= i < |names| && names[i] == k; }
    }
    SameFields(left, right);
  }

  /** Setting the name and the spec, and rewriting other metadata, do not interfere. */
  lemma NameAndSpecPast(obj: Json, name: string, spec: Json, names: seq<string>, fs: seq<Json -> Json>)
    requires obj.Obj? && Get(obj, "metadata").Some? && Get(obj, "metadata").value.Obj?
    requires |names| == |fs| && AllDistinct(names) && "name" !in names
    ensures Set(SetName(AtField(obj, "metadata", OnObject(names, fs)), name), "spec", spec)
            == AtField(Set(SetName(obj, name), "spec", spec), "metadata", OnObject(names, fs))
  {
    var m := Get(obj, "metadata").value;
    SetPastFields(m, names, fs, "name", Str(name));
    FieldAfter(m, names, fs, "");
    var left := Set(SetName(AtField(obj, "metadata", OnObject(names, fs)), name), "spec", spec);
    var right := AtField(Set(SetName(obj, name), "spec", spec), "metadata", OnObject(names, fs));
    assert left.fields == right.fields;
  }

  /** Restoring a CRD and rewriting its other metadata do not interfere. */
  lemma RestorePastMetadata(rs: Rules, b: Json, names: seq<string>, fs: seq<Json -> Json>)
    requires b.Obj? && Get(b, "metadata").Some? && Get(b, "metadata").value.Obj? && RestoreCRD(rs, b).Replace?
    requires |names| == |fs| && AllDistinct(names) && "name" !in names
    ensures RestoreCRD(rs, AtField(b, "metadata", OnObject(names, fs)))
            == Replace(AtField(RestoreCRD(rs, b).body, "metadata", OnObject(names, fs)))
  {
    var b', m := AtField(b, "metadata", OnObject(names, fs)), Get(b, "metadata").value;
    FieldAfter(m, names, fs, "name");
    assert NameText(b') == NameText(b) && Get(b', "spec") == Get(b, "spec");
    var c := Cut(NameText(b), '.');
    var (groupRule, rule) := GroupResourceRules(rs, RestoreResource(rs, c.before)).value;
    NameAndSpecPast(b, rule.plural + "." + groupRule.group,
                    RestoreCrdSpec(RestoredNames(rs, rule), Obj(FieldsOf(Get(b, "spec"))), groupRule.group), names, fs);
  }

  lemma FourUndone(m: Json, names: seq<string>, fs: seq<Json -> Json>, gs: seq<Json -> Json>)
    requires m.Obj? && |names| == |fs| == |gs| == 4 && AllDistinct(names)
    ensures AtFields(AtFields(m, names, fs), names, gs) == m <==>
              && FieldUndone(m.fields, names[0], fs[0], gs[0]) && FieldUndone(m.fields, names[1], fs[1], gs[1])
              && FieldUndone(m.fields, names[2], fs[2], gs[2]) && FieldUndone(m.fields, names[3], fs[3], gs[3])
  {
    FieldsUndone(m, names, fs, gs);
    if AtFields(AtFields(m, names, fs), names, gs) != m {
      var i :| 0 <= i < 4 && !FieldUndone(m.fields, names[i], fs[i], gs[i]);
      assert i == 0 || i == 1 || i == 2 || i == 3;
    }
  }

  lemma RewritersAt(rs: Rules, action: Action)
    ensures var fs := MetadataRewriters(rs, action);
            && |fs| == 4 && fs[0] == LabelsField(rs.labels, action) && fs[1] == LabelsField(rs.annotations, action)
            && fs[2] == OverItems(FinalizerItem(rs.finalizers, action)) && fs[3] == OverItems(OwnerItem(rs, action))
  {
  }

  ghost predicate ListFieldsBack(rs: Rules, m: Fields) {
    && FieldUndone(m, "finalizers", OverItems(FinalizerItem(rs.finalizers, Renaming)), OverItems(FinalizerItem(rs.finalizers, Restoring)))
    && FieldUndone(m, "ownerReferences", OverItems(OwnerItem(rs, Renaming)), OverItems(OwnerItem(rs, Restoring)))
  }

  lemma FourFieldsBack(rs: Rules, m: Json)
    requires m.Obj?
    ensures AtFields(AtFields(m, METADATA, MetadataRewriters(rs, Renaming)), METADATA, MetadataRewriters(rs, Restoring)) == m
            <==> MapsUndone(rs, m.fields) && ListFieldsBack(rs, m.fields)
  {
    MetadataDistinct();
    RewritersAt(rs, Renaming);
    RewritersAt(rs, Restoring);
    FourUndone(m, METADATA, MetadataRewriters(rs, Renaming), MetadataRewriters(rs, Restoring));
  }

  lemma MetadataTwice(names: seq<string>, fs: seq<Json -> Json>, gs: seq<Json -> Json>, m: Json)
    requires m.Obj? && |names| == |fs| == |gs| && AllDistinct(names)
    ensures OnObject(names, gs)(OnObject(names, fs)(m)) == AtFields(AtFields(m, names, fs), names, gs)
  {
    FieldAfter(m, names, fs, "");
  }

  /** Metadata comes back exactly when its maps do, once its lists do. */
  lemma MetadataComesBack(rs: Rules, m: Json)
    requires m.Obj? && ListFieldsBack(rs, m.fields)
    ensures RewriteMetadata(rs, Restoring)(RewriteMetadata(rs, Renaming)(m)) == m <==> MapsUndone(rs, m.fields)
  {
    MetadataDistinct();
    MetadataTwice(METADATA, MetadataRewriters(rs, Renaming), MetadataRewriters(rs, Restoring), m);
    FourFieldsBack(rs, m);
  }

  lemma WithoutField(m: Fields, other: string, field: string, f: Json -> Json, g: Json -> Json)
    requires field != other
    ensures FieldUndone(m - {other}, field, f, g) <==> FieldUndone(m, field, f, g)
  {
  }

  lemma ListsWithoutManaged(rs: Rules, m: Fields)
    requires ListsUndone(rs, m - {"managedFields"})
    ensures ListFieldsBack(rs, m)
  {
    WithoutField(m, "managedFields", "finalizers", OverItems(FinalizerItem(rs.finalizers, Renaming)), OverItems(FinalizerItem(rs.finalizers, Restoring)));
    WithoutField(m, "managedFields", "ownerReferences", OverItems(OwnerItem(rs, Renaming)), OverItems(OwnerItem(rs, Restoring)));
  }

  lemma MapsWithoutManaged(rs: Rules, m: Fields)
    ensures MapsUndone(rs, m - {"managedFields"}) <==> MapsUndone(rs, m)
  {
    WithoutField(m, "managedFields", "labels", LabelsField(rs.labels, Renaming), LabelsField(rs.labels, Restoring));
    WithoutField(m, "managedFields", "annotations", LabelsField(rs.annotations, Renaming), LabelsField(rs.annotations, Restoring));
  }

  lemma NoTwinsWithout(r: NameRewriter, m: Fields, other: string, field: string)
    requires field != other
    ensures NoTwins(r, m - {other}, field) <==> NoTwins(r, m, field)
  {
  }

  lemma TwinsWithoutManaged(rs: Rules, m: Fields)
    ensures NoTwinsIn(rs, Obj(m - {"managedFields"})) <==> NoTwinsIn(rs, Obj(m))
  {
    NoTwinsWithout(rs.labels, m, "managedFields", "labels");
    NoTwinsWithout(rs.annotations, m, "managedFields", "annotations");
  }

  lemma CrdMetadataBack(rs: Rules, m: Json)
    requires CoherentRules(rs) && m.Obj? && ClientMetadata(rs, m.fields - {"managedFields"})
    ensures MapsUndone(rs, m.fields) <==> NoTwinsIn(rs, m)
    ensures ListFieldsBack(rs, m.fields)
  {
    MapFieldsUndone(rs, m.fields - {"managedFields"});
    ListFieldsUndone(rs, m.fields - {"managedFields"});
    MapsWithoutManaged(rs, m.fields);
    TwinsWithoutManaged(rs, m.fields);
    ListsWithoutManaged(rs, m.fields);
    assert Obj(m.fields) == m;
  }

  lemma TwoFieldsBack(obj: Json, spec: Json, f: Json -> Json, g: Json -> Json)
    requires obj.Obj? && "metadata" in obj.fields && "spec" in obj.fields
    ensures var x := Obj(obj.fields["spec" := spec]);
            AtField(AtField(x, "metadata", f), "metadata", g) == obj
            <==> x == obj && g(f(obj.fields["metadata"])) == obj.fields["metadata"]
  {
    var x := Obj(obj.fields["spec" := spec]);
    var back := AtField(AtField(x, "metadata", f), "metadata", g);
    assert back.fields["metadata"] == g(f(obj.fields["metadata"])) && back.fields["spec"] == spec;
    if x == obj && g(f(obj.fields["metadata"])) == obj.fields["metadata"] { assert back.fields == obj.fields; }
    if back == obj { assert x.fields == obj.fields; }
  }

  /** A CRD that agrees with its rule and holds no twins. */
  ghost predicate ComesBack(rs: Rules, obj: Json)
    requires RuledCrd(rs, obj)
  {
    && AgreesWithRule(rs, obj, GroupPart(NameText(obj)), rs.groups[GroupPart(NameText(obj))].resourceRules[PluralOf(NameText(obj))])
    && NoTwinsOf(rs, obj)
  }

  ghost function CrdSent(rs: Rules, obj: Json): Json
    requires RenameCRD(rs, obj).Replace?
  {
    OneMetadata(rs, Renaming)(RenameCRD(rs, obj).body)
  }

  lemma SentIsRestored(rs: Rules, obj: Json)
    requires RenamesApart(rs) && CoherentResources(rs) && RuledCrd(rs, obj)
    ensures RenameCRD(rs, obj).Replace? && RestoreCRD(rs, RenameCRD(rs, obj).body).Replace?
    ensures RestoreCRD(rs, CrdSent(rs, obj)) == Replace(OneMetadata(rs, Renaming)(RestoreCRD(rs, RenameCRD(rs, obj).body).body))
    ensures TextAt(CrdSent(rs, obj), "kind") == CRD_KIND
  {
    var plural, group := PluralOf(NameText(obj)), GroupPart(NameText(obj));
    CrdRoundTrip(rs, obj, plural, group);
    CrdIsRenamed(rs, obj, plural, group);
    RenameCrdKeepsKind(rs, obj);
    CrdHasMetadata(rs, obj, RenameCRD(rs, obj).body, plural, group, rs.groupIndex.idx[group], rs.groups[group].resourceRules[plural]);
    RestoredPastMetadata(rs, RenameCRD(rs, obj).body);
  }

  lemma CrdHasMetadata(rs: Rules, obj: Json, out: Json, plural: string, group: string, renamed: string, rule: ResourceRule)
    requires CrdRenamedTo(rs, obj, out, plural, group, renamed, rule)
    ensures out.Obj? && Get(out, "metadata").Some? && Get(out, "metadata").value.Obj?
  {
  }

  lemma RestoredPastMetadata(rs: Rules, b: Json)
    requires b.Obj? && Get(b, "metadata").Some? && Get(b, "metadata").value.Obj? && RestoreCRD(rs, b).Replace?
    ensures RestoreCRD(rs, OneMetadata(rs, Renaming)(b)) == Replace(OneMetadata(rs, Renaming)(RestoreCRD(rs, b).body))
    ensures TextAt(OneMetadata(rs, Renaming)(b), "kind") == TextAt(b, "kind")
  {
    MetadataDistinct();
    NameIsNoMetadata();
    RestorePast(rs, b, RewriteMetadata(rs, Renaming), METADATA, MetadataRewriters(rs, Renaming));
    MetadataAt(rs, b);
    MetadataAt(rs, RestoreCRD(rs, b).body);
  }

  lemma NameIsNoMetadata()
    ensures "name" !in METADATA
  {
  }

  lemma MetadataAt(rs: Rules, b: Json)
    ensures OneMetadata(rs, Renaming)(b) == AtField(b, "metadata", RewriteMetadata(rs, Renaming))
    ensures TextAt(OneMetadata(rs, Renaming)(b), "kind") == TextAt(b, "kind")
  {
  }

  lemma RestorePast(rs: Rules, b: Json, f: Json -> Json, names: seq<string>, fs: seq<Json -> Json>)
    requires b.Obj? && Get(b, "metadata").Some? && Get(b, "metadata").value.Obj? && RestoreCRD(rs, b).Replace?
    requires |names| == |fs| && AllDistinct(names) && "name" !in names && f == OnObject(names, fs)
    ensures RestoreCRD(rs, AtField(b, "metadata", f)) == Replace(AtField(RestoreCRD(rs, b).body, "metadata", f))
  {
    RestorePastMetadata(rs, b, names, fs);
  }

  lemma CoherentMeansApart(rs: Rules)
    requires CoherentGroups(rs)
    ensures RenamesApart(rs)
  {
  }

  /** The payload that is restored from what was sent, once it is known not to be excluded. */
  lemma SentComesBack(rs: Rules, fo: Foreign, obj: Json)
    requires RenamesApart(rs) && CoherentResources(rs) && RuledCrd(rs, obj)
    requires RenameCRD(rs, obj).Replace? && !ShouldExclude(rs.excludes, CrdSent(rs, obj), CRD_KIND)
    ensures RestoreCRD(rs, RenameCRD(rs, obj).body).Replace?
    ensures RewriteJSONPayload(rs, fo, CrdSent(rs, obj), Restoring)
            == Replace(OneMetadata(rs, Restoring)(OneMetadata(rs, Renaming)(RestoreCRD(rs, RenameCRD(rs, obj).body).body)))
  {
    SentIsRestored(rs, obj);
    CrdAlone(rs, fo, CrdSent(rs, obj), Restoring);
    assert RewriteCrdItem(rs, Restoring)(CrdSent(rs, obj)) == RestoreCRD(rs, CrdSent(rs, obj));
  }

  lemma BackExactly(rs: Rules, obj: Json, plural: string, group: string)
    requires RenamesApart(rs) && CoherentResources(rs) && IsRuled(rs.groups, group, plural) && IsCrd(obj, plural, group)
    requires ListFieldsBack(rs, obj.fields["metadata"].fields)
    ensures RenameCRD(rs, obj).Replace? && RestoreCRD(rs, RenameCRD(rs, obj).body).Replace?
    ensures OneMetadata(rs, Restoring)(OneMetadata(rs, Renaming)(RestoreCRD(rs, RenameCRD(rs, obj).body).body)) == obj
            <==> AgreesWithRule(rs, obj, group, rs.groups[group].resourceRules[plural]) && MapsUndone(rs, obj.fields["metadata"].fields)
  {
    var rule := rs.groups[group].resourceRules[plural];
    CrdThereAndBack(rs, obj, plural, group);
    AgreementDecides(rs, obj, group, rule, plural);
    var spec := RestoreCrdSpec(RestoredNames(rs, rule), Get(obj, "spec").value, group);
    TwoFieldsBack(obj, spec, RewriteMetadata(rs, Renaming), RewriteMetadata(rs, Restoring));
    MetadataComesBack(rs, obj.fields["metadata"]);
  }

  /**
    A client's CRD through the whole payload rewriter: it is sent under its renamed name, and what
    is read back is the CRD exactly when it agrees with its rule and holds no twins.
   */
  lemma CrdPayloadRoundTrip(rs: Rules, fo: Foreign, obj: Json)
    requires CoherentRules(rs) && RuledCrd(rs, obj) && ClientCrd(rs, obj)
    ensures RenameCRD(rs, obj).Replace? && RewriteJSONPayload(rs, fo, obj, Renaming) == Replace(CrdSent(rs, obj))
    ensures !ShouldExclude(rs.excludes, CrdSent(rs, obj), CRD_KIND) ==>
              RewriteJSONPayload(rs, fo, CrdSent(rs, obj), Restoring).Replace?
              && (RewriteJSONPayload(rs, fo, CrdSent(rs, obj), Restoring).body == obj <==> ComesBack(rs, obj))
  {
    CoherentMeansApart(rs);
    CrdIsSent(rs, fo, obj);
    CrdIsRenamed(rs, obj, PluralOf(NameText(obj)), GroupPart(NameText(obj)));
    CrdMetadataBack(rs, Get(obj, "metadata").value);
    BackExactly(rs, obj, PluralOf(NameText(obj)), GroupPart(NameText(obj)));
    if !ShouldExclude(rs.excludes, CrdSent(rs, obj), CRD_KIND) { SentComesBack(rs, fo, obj); }
  }

  // ---------------------------------------------------------------- lists of CRDs

  /** Dropped from a restored list: excluded, or of an original group. */
  ghost predicate Dropped(rs: Rules, item: Json) {
    ShouldExclude(rs.excludes, item, CRD_KIND) || ('.' in NameText(item) && GroupOf(GroupPart(NameText(item))) in rs.groups)
  }

  /** What a surviving CRD becomes: restored if a rule knows it, otherwise as it was, and its metadata restored. */
  ghost function Survivor(rs: Rules): Json -> Json {
    item => OneMetadata(rs, Restoring)(match RestoreCRD(rs, item) case Replace(body) => body case _ => item)
  }

  /** Neither excluded nor named like a CRD: an error. */
  ghost predicate Malformed(rs: Rules, item: Json) {
    !ShouldExclude(rs.excludes, item, CRD_KIND) && '.' !in NameText(item)
  }

  lemma DroppedExactly(rs: Rules, item: Json)
    ensures CrdListItem(rs, Restoring)(item)
            == if Malformed(rs, item) then Abort else if Dropped(rs, item) then Skip else Replace(Survivor(rs)(item))
  {
    CrdInList(rs, item, Restoring);
    assert RewriteCrdItem(rs, Restoring)(item) == RestoreCRD(rs, item);
  }

  ghost function Survivors(rs: Rules, items: seq<Json>): seq<Json> {
    if items == [] then [] else (if Dropped(rs, items[0]) then [] else [items[0]]) + Survivors(rs, items[1..])
  }

  lemma {:induction false} SurvivorsPass(rs: Rules, items: seq<Json>, f: Json -> Outcome<Json>, g: Json -> Json)
    requires forall x | x in items :: f(x) == if Dropped(rs, x) then Skip else Replace(g(x))
    ensures FilterMap(items, f) == Some(MapSeq(Survivors(rs, items), g))
    decreases |items|
  {
    if items == [] {
      assert MapSeq([], g) == [];
    } else {
      assert items[0] in items;
      SurvivorsPass(rs, items[1..], f, g);
      var rest := Survivors(rs, items[1..]);
      if Dropped(rs, items[0]) {
        assert [] + rest == rest;
      } else {
        assert MapSeq([items[0]] + rest, g) == [g(items[0])] + MapSeq(rest, g);
      }
    }
  }

  /** A restored CRD list holds exactly the survivors, each restored, in order; one malformed item fails it. */
  lemma CrdListDrops(rs: Rules, fo: Foreign, obj: Json)
    requires TextAt(obj, "kind") == CRD_KIND + LIST && !ShouldExclude(rs.excludes, obj, CRD_KIND + LIST)
    ensures var items := ItemsAt(obj, "items");
            RewriteJSONPayload(rs, fo, obj, Restoring)
            == if exists x | x in items :: Malformed(rs, x) then Abort
               else Replace(WithItems(obj, items, MapSeq(Survivors(rs, items), Survivor(rs))))
  {
    var items := ItemsAt(obj, "items");
    CrdListRewritten(rs, fo, obj, Restoring);
    forall x | x in items
      ensures CrdListItem(rs, Restoring)(x)
              == if Malformed(rs, x) then Abort else if Dropped(rs, x) then Skip else Replace(Survivor(rs)(x))
    {
      DroppedExactly(rs, x);
    }
    if x :| x in items && Malformed(rs, x) {
      OneAborts(items, CrdListItem(rs, Restoring), x);
    } else {
      SurvivorsPass(rs, items, CrdListItem(rs, Restoring), Survivor(rs));
    }
  }

  lemma {:induction false} OneAborts(items: seq<Json>, f: Json -> Outcome<Json>, x: Json)
    requires x in items && f(x).Abort?
    ensures FilterMap(items, f).None?
    decreases |items|
  {
    if items[0] != x { OneAborts(items[1..], f, x); }
  }

  lemma {:induction false} AllReplaced(items: seq<Json>, f: Json -> Outcome<Json>, g: Json -> Json)
    requires forall x | x in items :: f(x) == Replace(g(x))
    ensures FilterMap(items, f) == Some(MapSeq(items, g))
    decreases |items|
  {
    if items == [] {
      assert MapSeq(items, g) == [];
    } else {
      assert items[0] in items;
      AllReplaced(items[1..], f, g);
      assert MapSeq(items, g) == [g(items[0])] + MapSeq(items[1..], g);
    }
  }

  ghost function SentOrSame(rs: Rules): Json -> Json {
    item => if RenameCRD(rs, item).Replace? then CrdSent(rs, item) else item
  }

  /** What a list's items become on the way back. */
  ghost function ReadBack(rs: Rules, fo: Foreign): Json -> Json {
    item => match RewriteJSONPayload(rs, fo, item, Restoring) case Replace(body) => body case _ => item
  }

  lemma SetItemsBack(obj: Json, items: seq<Json>, back: seq<Json>)
    requires Get(obj, "items") == Some(Arr(items)) && |back| == |items|
    ensures WithItems(obj, items, back) == obj <==> back == items
  {
    if items != [] {
      assert Set(obj, "items", Arr(back)).fields["items"] == Arr(back);
      if back == items { assert Set(obj, "items", Arr(back)).fields == obj.fields; }
    }
  }

  ghost predicate ClientCrds(rs: Rules, items: seq<Json>) {
    forall x | x in items :: RuledCrd(rs, x) && ClientCrd(rs, x)
  }

  /** Rewriting this item alone, or in its list, gives this body. */
  ghost predicate ItemGives(rs: Rules, fo: Foreign, action: Action, item: Json, body: Json) {
    && TextAt(item, "kind") == CRD_KIND && PayloadItem(rs, fo, action)(item) == Replace(body)
    && (Pass(rs, CRD_KIND, action)(item).Skip? || !RewriteCrdItem(rs, action)(item).Keep?)
  }

  lemma ListGives(rs: Rules, fo: Foreign, action: Action, obj: Json, items: seq<Json>, g: Json -> Json)
    requires TextAt(obj, "kind") == CRD_KIND + LIST && ItemsAt(obj, "items") == items
    requires action.Restoring? ==> !ShouldExclude(rs.excludes, obj, CRD_KIND + LIST)
    requires forall x | x in items :: ItemGives(rs, fo, action, x, g(x))
    ensures RewriteJSONPayload(rs, fo, obj, action) == Replace(WithItems(obj, items, MapSeq(items, g)))
  {
    forall x | x in items
      ensures TextAt(x, "kind") == CRD_KIND && (Pass(rs, CRD_KIND, action)(x).Skip? || !RewriteCrdItem(rs, action)(x).Keep?)
      ensures PayloadItem(rs, fo, action)(x) == Replace(g(x))
    {
      assert ItemGives(rs, fo, action, x, g(x));
    }
    CrdListIsPointwise(rs, fo, obj, action);
    AllReplaced(items, PayloadItem(rs, fo, action), g);
  }

  lemma SentItem(rs: Rules, fo: Foreign, item: Json)
    requires CoherentRules(rs) && RuledCrd(rs, item) && ClientCrd(rs, item)
    ensures ItemGives(rs, fo, Renaming, item, SentOrSame(rs)(item))
    ensures RenameCRD(rs, item).Replace? && SentOrSame(rs)(item) == CrdSent(rs, item)
  {
    CrdPayloadRoundTrip(rs, fo, item);
    assert RewriteCrdItem(rs, Renaming)(item) == RenameCRD(rs, item);
  }

  lemma ReadItem(rs: Rules, fo: Foreign, item: Json)
    requires CoherentRules(rs) && RuledCrd(rs, item) && ClientCrd(rs, item)
    requires !ShouldExclude(rs.excludes, SentOrSame(rs)(item), CRD_KIND)
    ensures ItemGives(rs, fo, Restoring, SentOrSame(rs)(item), ReadBack(rs, fo)(SentOrSame(rs)(item)))
    ensures ReadBack(rs, fo)(SentOrSame(rs)(item)) == item <==> ComesBack(rs, item)
  {
    SentItem(rs, fo, item);
    CrdPayloadRoundTrip(rs, fo, item);
    CoherentMeansApart(rs);
    SentIsRestored(rs, item);
    assert RewriteCrdItem(rs, Restoring)(CrdSent(rs, item)) == RestoreCRD(rs, CrdSent(rs, item));
  }

  lemma ListOfSent(obj: Json, items: seq<Json>, sent: seq<Json>, back: seq<Json>)
    requires Get(obj, "items") == Some(Arr(items)) && |sent| == |items| == |back|
    ensures TextAt(WithItems(obj, items, sent), "kind") == TextAt(obj, "kind")
    ensures ItemsAt(WithItems(obj, items, sent), "items") == sent
    ensures WithItems(WithItems(obj, items, sent), sent, back) == WithItems(obj, items, back)
  {
    if items != [] {
      assert Set(Set(obj, "items", Arr(sent)), "items", Arr(back)).fields == Set(obj, "items", Arr(back)).fields;
    }
  }

  /** The renamed list and none of its items is excluded. */
  ghost predicate NothingExcluded(rs: Rules, sent: Json, items: seq<Json>) {
    && !ShouldExclude(rs.excludes, sent, CRD_KIND + LIST)
    && forall x | x in items :: !ShouldExclude(rs.excludes, SentOrSame(rs)(x), CRD_KIND)
  }

  ghost function SentList(rs: Rules, obj: Json, items: seq<Json>): Json {
    WithItems(obj, items, MapSeq(items, SentOrSame(rs)))
  }

  /** The list is sent item by item, and unless something is excluded it is read back exactly if so. */
  ghost predicate SentAndRead(rs: Rules, fo: Foreign, obj: Json, items: seq<Json>, same: bool) {
    var sent := SentList(rs, obj, items);
    && RewriteJSONPayload(rs, fo, obj, Renaming) == Replace(sent)
    && (NothingExcluded(rs, sent, items) ==>
          RewriteJSONPayload(rs, fo, sent, Restoring).Replace? && (RewriteJSONPayload(rs, fo, sent, Restoring).body == obj <==> same))
  }

  lemma ListThereAndBack(rs: Rules, fo: Foreign, obj: Json, items: seq<Json>)
    requires TextAt(obj, "kind") == CRD_KIND + LIST && Get(obj, "items") == Some(Arr(items))
    requires forall x | x in items :: ItemGives(rs, fo, Renaming, x, SentOrSame(rs)(x))
    requires NothingExcluded(rs, SentList(rs, obj, items), items) ==>
               forall x | x in items :: ItemGives(rs, fo, Restoring, SentOrSame(rs)(x), ReadBack(rs, fo)(SentOrSame(rs)(x)))
    ensures SentAndRead(rs, fo, obj, items, ItemsRead(rs, fo, items))
  {
    ListGives(rs, fo, Renaming, obj, items, SentOrSame(rs));
    if NothingExcluded(rs, SentList(rs, obj, items), items) { ListReadBack(rs, fo, obj, items); }
  }

  lemma SameAnswer(rs: Rules, fo: Foreign, obj: Json, items: seq<Json>, one: bool, other: bool)
    requires SentAndRead(rs, fo, obj, items, one)
    requires NothingExcluded(rs, SentList(rs, obj, items), items) ==> (one <==> other)
    ensures SentAndRead(rs, fo, obj, items, other)
  {
  }

  /** A client's CRD list: each CRD is sent under its renamed name, and the list comes back exactly when each CRD does. */
  lemma CrdListRoundTrip(rs: Rules, fo: Foreign, obj: Json, items: seq<Json>)
    requires CoherentRules(rs) && TextAt(obj, "kind") == CRD_KIND + LIST && Get(obj, "items") == Some(Arr(items)) && ClientCrds(rs, items)
    ensures SentAndRead(rs, fo, obj, items, ItemsComeBack(rs, items))
  {
    ItemsAreSent(rs, fo, items);
    if NothingExcluded(rs, SentList(rs, obj, items), items) { ItemsAreRead(rs, fo, items); }
    ListThereAndBack(rs, fo, obj, items);
    SameAnswer(rs, fo, obj, items, ItemsRead(rs, fo, items), ItemsComeBack(rs, items));
  }

  lemma ItemsAreSent(rs: Rules, fo: Foreign, items: seq<Json>)
    requires CoherentRules(rs) && ClientCrds(rs, items)
    ensures forall x | x in items :: ItemGives(rs, fo, Renaming, x, SentOrSame(rs)(x))
  {
    forall x | x in items ensures ItemGives(rs, fo, Renaming, x, SentOrSame(rs)(x)) { SentItem(rs, fo, x); }
  }

  /** The items that come back are those that agree with their rules and hold no twins. */
  lemma ItemsAreRead(rs: Rules, fo: Foreign, items: seq<Json>)
    requires CoherentRules(rs) && ClientCrds(rs, items)
    requires forall x | x in items :: !ShouldExclude(rs.excludes, SentOrSame(rs)(x), CRD_KIND)
    ensures forall x | x in items :: ItemGives(rs, fo, Restoring, SentOrSame(rs)(x), ReadBack(rs, fo)(SentOrSame(rs)(x)))
    ensures ItemsRead(rs, fo, items) <==> ItemsComeBack(rs, items)
  {
    forall x | x in items
      ensures ItemGives(rs, fo, Restoring, SentOrSame(rs)(x), ReadBack(rs, fo)(SentOrSame(rs)(x)))
      ensures ReadBack(rs, fo)(SentOrSame(rs)(x)) == x <==> ComesBack(rs, x)
    {
      ReadItem(rs, fo, x);
    }
  }

  ghost predicate ItemsRead(rs: Rules, fo: Foreign, items: seq<Json>) {
    forall x | x in items :: ReadBack(rs, fo)(SentOrSame(rs)(x)) == x
  }

  ghost predicate ItemsComeBack(rs: Rules, items: seq<Json>)
    requires ClientCrds(rs, items)
  {
    forall x | x in items :: ComesBack(rs, x)
  }

  lemma ListReadBack(rs: Rules, fo: Foreign, obj: Json, items: seq<Json>)
    requires TextAt(obj, "kind") == CRD_KIND + LIST && Get(obj, "items") == Some(Arr(items))
    requires !ShouldExclude(rs.excludes, WithItems(obj, items, MapSeq(items, SentOrSame(rs))), CRD_KIND + LIST)
    requires forall x | x in items :: ItemGives(rs, fo, Restoring, SentOrSame(rs)(x), ReadBack(rs, fo)(SentOrSame(rs)(x)))
    ensures var sent := WithItems(obj, items, MapSeq(items, SentOrSame(rs)));
            && RewriteJSONPayload(rs, fo, sent, Restoring).Replace?
            && (RewriteJSONPayload(rs, fo, sent, Restoring).body == obj <==> ItemsRead(rs, fo, items))
  {
    var sentItems := MapSeq(items, SentOrSame(rs));
    var sent, back := WithItems(obj, items, sentItems), MapSeq(sentItems, ReadBack(rs, fo));
    ListOfSent(obj, items, sentItems, back);
    EachSentGives(rs, fo, items, sentItems, SentOrSame(rs), ReadBack(rs, fo));
    ListGives(rs, fo, Restoring, sent, sentItems, ReadBack(rs, fo));
    SetItemsBack(obj, items, back);
    SameItems(items, back, SentOrSame(rs), ReadBack(rs, fo));
  }

  lemma EachSentGives(rs: Rules, fo: Foreign, items: seq<Json>, sent: seq<Json>, f: Json -> Json, g: Json -> Json)
    requires sent == MapSeq(items, f) && forall x | x in items :: ItemGives(rs, fo, Restoring, f(x), g(f(x)))
    ensures forall y | y in sent :: ItemGives(rs, fo, Restoring, y, g(y))
  {
    forall y | y in sent ensures ItemGives(rs, fo, Restoring, y, g(y)) {
      var i :| 0 <= i < |items| && y == f(items[i]);
      assert items[i] in items;
    }
  }

  lemma SameItems(items: seq<Json>, back: seq<Json>, f: Json -> Json, g: Json -> Json)
    requires back == MapSeq(MapSeq(items, f), g)
    ensures |back| == |items| && (back == items <==> forall x | x in items :: g(f(x)) == x)
  {
    assert |back| == |items| && forall i | 0 <= i < |items| :: back[i] == g(f(items[i]));
    if back == items {
      forall x | x in items ensures g(f(x)) == x {
        var i :| 0 <= i < |items| && items[i] == x;
        assert back[i] == x;
      }
    }
  }
}
