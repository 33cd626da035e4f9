/**
  Aggregated discovery. A renamed group may hold resources of several original groups, so its
  resources are restored one by one, filed by original group and version, and emitted again as one
  item per original group.
 */
module Discovery {
  import opened Text
  import opened Rules
  import opened Json
  import opened Arrays
  import opened Transforms
  import opened Paths
  import opened Payload
  import opened Crd

  // ---------------------------------------------------------------- the byte builder

  /** sliceBytesBuilder: an array text under construction. Empty pieces are not written. */
  class SliceBytesBuilder {
    var buf: string
    var begin: bool
    ghost var written: seq<string>

    ghost predicate Valid()
      reads this
    {
      "" !in written && buf == "[" + Join(written, ",") && (begin <==> written != [])
    }

    constructor ()
      ensures Valid() && written == []
    {
      buf, begin, written := "[", false, [];
    }

    method Write(bytes: string)
      requires Valid()
      modifies this
      ensures Valid() && written == old(written) + NonEmpty([bytes])
    {
      if |bytes| == 0 {
        assert written + [] == written;
        return;
      }
      JoinSnoc(written, bytes, ",");
      if begin {
        buf := buf + ",";
      }
      buf := buf + bytes;
      begin := true;
      written := written + [bytes];
    }

    method Complete() returns (text: string)
      requires Valid()
      modifies this
      ensures text == ArrayText(old(written)) && buf == text
      ensures written == old(written) && begin == old(begin)
    {
      buf := buf + "]";
      text := buf;
    }
  }

  method BuildArray(parts: seq<string>) returns (text: string)
    ensures text == ArrayText(NonEmpty(parts))
  {
    var builder := new SliceBytesBuilder();
    for i := 0 to |parts|
      invariant builder.Valid() && fresh(builder) && builder.written == NonEmpty(parts[..i])
    {
      assert parts[..i + 1] == parts[..i] + [parts[i]];
      NonEmptyConcat(parts[..i], [parts[i]]);
      builder.Write(parts[i]);
    }
    assert parts[..|parts|] == parts;
    text := builder.Complete();
  }

  // ---------------------------------------------------------------- filing

  datatype VersionIn<R> = VersionIn(name: string, resources: seq<R>)

  datatype VersionOut = VersionOut(name: string, resources: string)

  datatype GroupOut = GroupOut(name: string, versions: seq<VersionOut>)

  /** Restoring a resource: the original group it belongs to and its new text, both empty without a rule; None is an error. */
  type Restore<!R> = R -> Option<(string, string)>

  type Filed = map<string, map<string, seq<string>>>

  function Got<R>(restore: Restore<R>, resource: R): (string, string) {
    match restore(resource) case Some(out) => out case None => ("", "")
  }

  function FiledAt(filed: Filed, group: string, version: string): seq<string> {
    if group in filed && version in filed[group] then filed[group][version] else []
  }

  /** The restored texts of the resources that belong to a group, in order. */
  function Of<R>(resources: seq<R>, restore: Restore<R>, group: string): seq<string> {
    if resources == [] then []
    else
      var last := Got(restore, resources[|resources| - 1]);
      Of(resources[..|resources| - 1], restore, group) + if last.0 == group then [last.1] else []
  }

  /** The same for a group and version, over all entries of that version name. */
  function Collected<R>(versions: seq<VersionIn<R>>, restore: Restore<R>, group: string, version: string): seq<string> {
    if versions == [] then []
    else
      var last := versions[|versions| - 1];
      Collected(versions[..|versions| - 1], restore, group, version)
      + if version != "" && last.name == version then Of(last.resources, restore, group) else []
  }

  ghost predicate FailsOn<R>(resources: seq<R>, restore: Restore<R>) {
    exists i | 0 <= i < |resources| :: restore(resources[i]).None?
  }

  /** Some resource of a named version cannot be restored. */
  ghost predicate Fails<R>(versions: seq<VersionIn<R>>, restore: Restore<R>) {
    exists i | 0 <= i < |versions| :: versions[i].name != "" && FailsOn(versions[i].resources, restore)
  }

  /** Nothing is filed under an empty heading. */
  predicate NoEmptyHeadings(filed: Filed) {
    forall g | g in filed :: filed[g] != map[] && forall v | v in filed[g] :: filed[g][v] != []
  }

  function FileOne(filed: Filed, group: string, version: string, text: string): Filed {
    var versions := if group in filed then filed[group] else map[];
    var texts := if version in versions then versions[version] else [];
    filed[group := versions[version := texts + [text]]]
  }

  lemma FileOneAt(filed: Filed, group: string, version: string, text: string, g: string, v: string)
    ensures FiledAt(FileOne(filed, group, version, text), g, v)
            == FiledAt(filed, g, v) + if g == group && v == version then [text] else []
  {
  }

  lemma FileOneHeadings(filed: Filed, group: string, version: string, text: string)
    requires NoEmptyHeadings(filed)
    ensures NoEmptyHeadings(FileOne(filed, group, version, text))
  {
    assert version in FileOne(filed, group, version, text)[group];
  }

  /** out is filed with, in addition, these resources under this version. */
  ghost predicate FiledMore<R>(filed: Filed, out: Filed, version: string, resources: seq<R>, restore: Restore<R>) {
    forall g, v :: FiledAt(out, g, v) == FiledAt(filed, g, v) + if v == version then Of(resources, restore, g) else []
  }

  lemma FileStep<R>(filed: Filed, out: Filed, version: string, resources: seq<R>, resource: R, restore: Restore<R>)
    requires FiledMore(filed, out, version, resources, restore)
    ensures FiledMore(filed, FileOne(out, Got(restore, resource).0, version, Got(restore, resource).1), version, resources + [resource], restore)
  {
    var (group, text) := Got(restore, resource);
    assert (resources + [resource])[..|resources|] == resources;
    forall g, v ensures FiledAt(FileOne(out, group, version, text), g, v)
                    == FiledAt(filed, g, v) + if v == version then Of(resources + [resource], restore, g) else []
    {
      FileOneAt(out, group, version, text, g, v);
    }
  }

  /** The resources of one version; None as soon as one cannot be restored. */
  method FileVersion<R>(filed: Filed, version: VersionIn<R>, restore: Restore<R>) returns (out: Option<Filed>)
    requires NoEmptyHeadings(filed)
    ensures out.None? <==> version.name != "" && FailsOn(version.resources, restore)
    ensures out.Some? ==> NoEmptyHeadings(out.value)
    ensures out.Some? && version.name == "" ==> out.value == filed
    ensures out.Some? && version.name != "" ==> FiledMore(filed, out.value, version.name, version.resources, restore)
  {
    if version.name == "" {
      return Some(filed);
    }
    var now := filed;
    for i := 0 to |version.resources|
      invariant NoEmptyHeadings(now) && forall j | 0 <= j < i :: restore(version.resources[j]).Some?
      invariant FiledMore(filed, now, version.name, version.resources[..i], restore)
    {
      var restored := restore(version.resources[i]);
      if restored.None? {
        return None;
      }
      var (group, text) := restored.value;
      assert version.resources[..i + 1] == version.resources[..i] + [version.resources[i]];
      FileOneHeadings(now, group, version.name, text);
      FileStep(filed, now, version.name, version.resources[..i], version.resources[i], restore);
      now := FileOne(now, group, version.name, text);
    }
    assert version.resources[..|version.resources|] == version.resources;
    out := Some(now);
  }

  method FileAll<R>(versions: seq<VersionIn<R>>, restore: Restore<R>) returns (out: Option<Filed>)
    ensures out.None? <==> Fails(versions, restore)
    ensures out.Some? ==> NoEmptyHeadings(out.value)
    ensures out.Some? ==> forall g, v :: FiledAt(out.value, g, v) == Collected(versions, restore, g, v)
  {
    var filed: Filed := map[];
    for i := 0 to |versions|
      invariant NoEmptyHeadings(filed) && !Fails(versions[..i], restore)
      invariant forall g, v :: FiledAt(filed, g, v) == Collected(versions[..i], restore, g, v)
    {
      assert versions[..i + 1][..i] == versions[..i];
      var more := FileVersion(filed, versions[i], restore);
      if more.None? {
        return None;
      }
      filed := more.value;
    }
    assert versions[..|versions|] == versions;
    out := Some(filed);
  }

  // ---------------------------------------------------------------- emitting

  ghost predicate EmitsVersions(texts: map<string, seq<string>>, out: seq<VersionOut>) {
    && (forall i, j | 0 <= i < j < |out| :: out[i].name != out[j].name)
    && (forall i | 0 <= i < |out| :: out[i].name in texts && out[i].resources == ArrayText(NonEmpty(texts[out[i].name])))
    && (forall v | v in texts :: HasVersion(out, v))
  }

  predicate HasVersion(out: seq<VersionOut>, name: string) {
    exists i | 0 <= i < |out| :: out[i].name == name
  }

  predicate HasGroup(out: seq<GroupOut>, name: string) {
    exists i | 0 <= i < |out| :: out[i].name == name
  }

  lemma OneMoreVersion(out: seq<VersionOut>, more: VersionOut, name: string)
    ensures HasVersion(out + [more], name) <==> HasVersion(out, name) || name == more.name
  {
    if i :| 0 <= i < |out| && out[i].name == name { assert (out + [more])[i].name == name; }
    if name == more.name { assert (out + [more])[|out|].name == name; }
  }

  lemma OneMoreGroup(out: seq<GroupOut>, more: GroupOut, name: string)
    ensures HasGroup(out + [more], name) <==> HasGroup(out, name) || name == more.name
  {
    if i :| 0 <= i < |out| && out[i].name == name { assert (out + [more])[i].name == name; }
    if name == more.name { assert (out + [more])[|out|].name == name; }
  }

  ghost predicate EmitsGroups(filed: Filed, out: seq<GroupOut>) {
    && (forall i, j | 0 <= i < j < |out| :: out[i].name != out[j].name)
    && (forall i | 0 <= i < |out| :: out[i].name in filed && EmitsVersions(filed[out[i].name], out[i].versions))
    && (forall g | g in filed :: HasGroup(out, g))
  }

  method EmitVersions(texts: map<string, seq<string>>) returns (out: seq<VersionOut>)
    ensures EmitsVersions(texts, out)
  {
    out := [];
    var rest := texts.Keys;
    while rest != {}
      invariant rest <= texts.Keys
      invariant forall i, j | 0 <= i < j < |out| :: out[i].name != out[j].name
      invariant forall i | 0 <= i < |out| :: out[i].name in texts && out[i].name !in rest
                  && out[i].resources == ArrayText(NonEmpty(texts[out[i].name]))
      invariant forall v | v in texts && v !in rest :: HasVersion(out, v)
      decreases rest
    {
      var v :| v in rest;
      var text := BuildArray(texts[v]);
      forall w ensures HasVersion(out + [VersionOut(v, text)], w) <==> HasVersion(out, w) || w == v {
        OneMoreVersion(out, VersionOut(v, text), w);
      }
      out := out + [VersionOut(v, text)];
      rest := rest - {v};
    }
  }

  method EmitGroups(filed: Filed) returns (out: seq<GroupOut>)
    ensures EmitsGroups(filed, out)
  {
    out := [];
    var rest := filed.Keys;
    while rest != {}
      invariant rest <= filed.Keys
      invariant forall i, j | 0 <= i < j < |out| :: out[i].name != out[j].name
      invariant forall i | 0 <= i < |out| :: out[i].name in filed && out[i].name !in rest
                  && EmitsVersions(filed[out[i].name], out[i].versions)
      invariant forall g | g in filed && g !in rest :: HasGroup(out, g)
      decreases rest
    {
      var g :| g in rest;
      var versions := EmitVersions(filed[g]);
      forall h ensures HasGroup(out + [GroupOut(g, versions)], h) <==> HasGroup(out, h) || h == g {
        OneMoreGroup(out, GroupOut(g, versions), h);
      }
      out := out + [GroupOut(g, versions)];
      rest := rest - {g};
    }
  }

  /** RestoreAggregatedGroupDiscovery; None when there are no versions to regroup, or an error dropped them all. */
  method RestoreAggregatedGroupDiscovery<R>(versions: seq<VersionIn<R>>, restore: Restore<R>) returns (out: Option<seq<GroupOut>>)
    ensures out.None? <==> versions == [] || Fails(versions, restore)
    ensures out.Some? ==> Regrouped(versions, restore, out.value)
  {
    if versions == [] { return None; }
    var filed := FileAll(versions, restore);
    if filed.None? { return None; }
    var groups := EmitGroups(filed.value);
    RegroupedFollows(versions, restore, filed.value, groups);
    out := Some(groups);
  }

  // ---------------------------------------------------------------- what is emitted

  /** The resources of a group and version in the output, as an array text; None when the pair is not there. */
  ghost predicate Emitted(out: seq<GroupOut>, group: string, version: string, text: string) {
    exists i, j | 0 <= i < |out| && 0 <= j < |out[i].versions| ::
      out[i].name == group && out[i].versions[j] == VersionOut(version, text)
  }

  /**
    The output holds, for every group and version, exactly the restored texts of the input
    resources that belong there, in input order; nothing else, and no group or version twice.
   */
  ghost predicate Regrouped<R>(versions: seq<VersionIn<R>>, restore: Restore<R>, out: seq<GroupOut>) {
    && (forall i, j | 0 <= i < j < |out| :: out[i].name != out[j].name)
    && (forall i | 0 <= i < |out| ::
          forall j, k | 0 <= j < k < |out[i].versions| :: out[i].versions[j].name != out[i].versions[k].name)
    && (forall i | 0 <= i < |out| :: out[i].versions != [])
    && (forall g, v, text :: Emitted(out, g, v, text) <==>
          Collected(versions, restore, g, v) != [] && text == ArrayText(NonEmpty(Collected(versions, restore, g, v))))
  }

  lemma RegroupedFollows<R>(versions: seq<VersionIn<R>>, restore: Restore<R>, filed: Filed, out: seq<GroupOut>)
    requires NoEmptyHeadings(filed) && EmitsGroups(filed, out)
    requires forall g, v :: FiledAt(filed, g, v) == Collected(versions, restore, g, v)
    ensures Regrouped(versions, restore, out)
  {
    forall i | 0 <= i < |out| ensures out[i].versions != [] {
      var v :| v in filed[out[i].name];
    }
    forall g, v, text ensures Emitted(out, g, v, text) <==>
                        Collected(versions, restore, g, v) != [] && text == ArrayText(NonEmpty(Collected(versions, restore, g, v)))
    {
      assert FiledAt(filed, g, v) == Collected(versions, restore, g, v);
      EmittedIsFiled(filed, out, g, v, text);
    }
  }

  lemma EmittedIsFiled(filed: Filed, out: seq<GroupOut>, g: string, v: string, text: string)
    requires NoEmptyHeadings(filed) && EmitsGroups(filed, out)
    ensures Emitted(out, g, v, text) <==> FiledAt(filed, g, v) != [] && text == ArrayText(NonEmpty(FiledAt(filed, g, v)))
  {
    if g in filed && v in filed[g] {
      assert HasGroup(out, g);
      var i :| 0 <= i < |out| && out[i].name == g;
      assert HasVersion(out[i].versions, v);
      var j :| 0 <= j < |out[i].versions| && out[i].versions[j].name == v;
      if text == ArrayText(NonEmpty(filed[g][v])) {
        assert out[i].versions[j] == VersionOut(v, text);
      }
    }
  }

  lemma GroupsEmittedBelow<R>(versions: seq<VersionIn<R>>, restore: Restore<R>, one: seq<GroupOut>, other: seq<GroupOut>, name: string)
    requires Regrouped(versions, restore, one) && Regrouped(versions, restore, other) && HasGroup(one, name)
    ensures HasGroup(other, name)
  {
    var i :| 0 <= i < |one| && one[i].name == name;
    var w := one[i].versions[0];
    assert Emitted(one, name, w.name, w.resources);
    assert Emitted(other, name, w.name, w.resources);
  }

  /** Two outputs of the same input name the same groups, versions and resources, whatever order the maps were ranged over. */
  lemma SameGroupsEmitted<R>(versions: seq<VersionIn<R>>, restore: Restore<R>, one: seq<GroupOut>, other: seq<GroupOut>)
    requires Regrouped(versions, restore, one) && Regrouped(versions, restore, other)
    ensures forall name :: HasGroup(one, name) <==> HasGroup(other, name)
    ensures forall g, v, text :: Emitted(one, g, v, text) <==> Emitted(other, g, v, text)
  {
    forall name ensures HasGroup(one, name) <==> HasGroup(other, name) {
      if HasGroup(one, name) { GroupsEmittedBelow(versions, restore, one, other, name); }
      if HasGroup(other, name) { GroupsEmittedBelow(versions, restore, other, one, name); }
    }
  }

  // ---------------------------------------------------------------- conservation

  /** Every resource of a named version, with the version's name. */
  ghost function Entries<R>(versions: seq<VersionIn<R>>): seq<(string, R)> {
    if versions == [] then []
    else
      var last := versions[|versions| - 1];
      Entries(versions[..|versions| - 1]) + if last.name == "" then [] else Labelled(last.name, last.resources)
  }

  ghost function Labelled<R>(name: string, resources: seq<R>): seq<(string, R)> {
    seq(|resources|, i requires 0 <= i < |resources| => (name, resources[i]))
  }

  type Pair = (string, string)

  /** Where an entry is filed. */
  function Place<R>(restore: Restore<R>, entry: (string, R)): Pair {
    (Got(restore, entry.1).0, entry.0)
  }

  ghost function Counted<R>(entries: seq<(string, R)>, restore: Restore<R>, place: Pair): nat {
    if entries == [] then 0
    else Counted(entries[..|entries| - 1], restore, place) + if Place(restore, entries[|entries| - 1]) == place then 1 else 0
  }

  lemma {:induction false} CountedConcat<R>(a: seq<(string, R)>, b: seq<(string, R)>, restore: Restore<R>, place: Pair)
    ensures Counted(a + b, restore, place) == Counted(a, restore, place) + Counted(b, restore, place)
    decreases |b|
  {
    if b == [] {
      assert a + b == a;
    } else {
      assert (a + b)[..|a + b| - 1] == a + b[..|b| - 1];
      CountedConcat(a, b[..|b| - 1], restore, place);
    }
  }

  lemma {:induction false} OfIsCounted<R>(name: string, resources: seq<R>, restore: Restore<R>, place: Pair)
    ensures Counted(Labelled(name, resources), restore, place) == if name == place.1 then |Of(resources, restore, place.0)| else 0
    decreases |resources|
  {
    if resources != [] {
      var front := resources[..|resources| - 1];
      assert Labelled(name, resources)[..|resources| - 1] == Labelled(name, front);
      OfIsCounted(name, front, restore, place);
    }
  }

  lemma {:induction false} CollectedIsCounted<R>(versions: seq<VersionIn<R>>, restore: Restore<R>, place: Pair)
    requires place.1 != ""
    ensures |Collected(versions, restore, place.0, place.1)| == Counted(Entries(versions), restore, place)
    decreases |versions|
  {
    if versions != [] {
      var front, last := versions[..|versions| - 1], versions[|versions| - 1];
      CollectedIsCounted(front, restore, place);
      OfIsCounted(last.name, last.resources, restore, place);
      CountedConcat(Entries(front), if last.name == "" then [] else Labelled(last.name, last.resources), restore, place);
    }
  }

  predicate DistinctPlaces(places: seq<Pair>) {
    forall i, j | 0 <= i < j < |places| :: places[i] != places[j]
  }

  ghost function Total<R>(entries: seq<(string, R)>, restore: Restore<R>, places: seq<Pair>): nat {
    if places == [] then 0
    else Total(entries, restore, places[..|places| - 1]) + Counted(entries, restore, places[|places| - 1])
  }

  /** Over distinct places that cover all entries, every entry is counted once. */
  lemma {:induction false} EachCountedOnce<R>(entries: seq<(string, R)>, restore: Restore<R>, places: seq<Pair>)
    requires DistinctPlaces(places) && forall i | 0 <= i < |entries| :: Place(restore, entries[i]) in places
    ensures Total(entries, restore, places) == |entries|
    decreases |entries|
  {
    if entries != [] {
      var front, last := entries[..|entries| - 1], entries[|entries| - 1];
      EachCountedOnce(front, restore, places);
      var k :| 0 <= k < |places| && places[k] == Place(restore, last);
      OneMore(front, last, restore, places, k);
      assert entries == front + [last];
    } else {
      NothingFiled(restore, places);
    }
  }

  lemma {:induction false} NothingFiled<R>(restore: Restore<R>, places: seq<Pair>)
    ensures Total([], restore, places) == 0
    decreases |places|
  {
    if places != [] { NothingFiled(restore, places[..|places| - 1]); }
  }

  lemma {:induction false} OneMore<R>(front: seq<(string, R)>, last: (string, R), restore: Restore<R>, places: seq<Pair>, k: int)
    requires DistinctPlaces(places)
    requires k < |places| && (k >= 0 ==> places[k] == Place(restore, last)) && (k < 0 ==> Place(restore, last) !in places)
    ensures Total(front + [last], restore, places) == Total(front, restore, places) + if k >= 0 then 1 else 0
    decreases |places|
  {
    if places != [] {
      var n := |places| - 1;
      assert (front + [last])[..|front|] == front;
      OneMore(front, last, restore, places[..n], if k < n then k else -1);
    }
  }

  /** The group and version pairs of the output, in order. */
  ghost function Places(out: seq<GroupOut>): seq<Pair> {
    if out == [] then []
    else
      var last := out[|out| - 1];
      Places(out[..|out| - 1]) + seq(|last.versions|, i requires 0 <= i < |last.versions| => (last.name, last.versions[i].name))
  }

  lemma {:induction false} PlacesOf(out: seq<GroupOut>, place: Pair)
    ensures place in Places(out) <==> exists i, j | 0 <= i < |out| && 0 <= j < |out[i].versions| :: (out[i].name, out[i].versions[j].name) == place
    decreases |out|
  {
    if out != [] {
      var front, last := out[..|out| - 1], out[|out| - 1];
      PlacesOf(front, place);
      var mine := seq(|last.versions|, i requires 0 <= i < |last.versions| => (last.name, last.versions[i].name));
      if place in mine {
        var j :| 0 <= j < |mine| && mine[j] == place;
        assert (out[|out| - 1].name, out[|out| - 1].versions[j].name) == place;
      }
      if place in Places(front) {
        var i, j :| 0 <= i < |front| && 0 <= j < |front[i].versions| && (front[i].name, front[i].versions[j].name) == place;
        assert (out[i].name, out[i].versions[j].name) == place;
      }
      if i, j :| 0 <= i < |out| && 0 <= j < |out[i].versions| && (out[i].name, out[i].versions[j].name) == place {
        if i < |front| { assert (front[i].name, front[i].versions[j].name) == place; } else { assert mine[j] == place; }
      }
    }
  }

  lemma {:induction false} PlacesAreDistinct(out: seq<GroupOut>)
    requires forall i, j | 0 <= i < j < |out| :: out[i].name != out[j].name
    requires forall i | 0 <= i < |out| ::
               forall j, k | 0 <= j < k < |out[i].versions| :: out[i].versions[j].name != out[i].versions[k].name
    ensures DistinctPlaces(Places(out))
    decreases |out|
  {
    if out != [] {
      var front, last := out[..|out| - 1], out[|out| - 1];
      PlacesAreDistinct(front);
      var mine := seq(|last.versions|, i requires 0 <= i < |last.versions| => (last.name, last.versions[i].name));
      forall place | place in Places(front) ensures place.0 != last.name {
        PlacesOf(front, place);
      }
      assert forall i, j | 0 <= i < j < |mine| :: mine[i] != mine[j];
      DistinctConcat(Places(front), mine);
    }
  }

  lemma DistinctConcat(a: seq<Pair>, b: seq<Pair>)
    requires DistinctPlaces(a) && DistinctPlaces(b) && forall x | x in a :: x !in b
    ensures DistinctPlaces(a + b)
  {
    var c := a + b;
    forall i, j | 0 <= i < j < |c| ensures c[i] != c[j] {
      if i < |a| {
        assert c[i] in a;
        if j >= |a| { assert c[j] == b[j - |a|]; }
      }
    }
  }

  lemma {:induction false} EntryIsFiled<R>(entries: seq<(string, R)>, restore: Restore<R>, i: nat)
    requires i < |entries|
    ensures Counted(entries, restore, Place(restore, entries[i])) > 0
    decreases |entries|
  {
    if i < |entries| - 1 { EntryIsFiled(entries[..|entries| - 1], restore, i); }
  }

  lemma {:induction false} EntriesAreNamed<R>(versions: seq<VersionIn<R>>)
    ensures forall e | e in Entries(versions) :: e.0 != ""
    decreases |versions|
  {
    if versions != [] { EntriesAreNamed(versions[..|versions| - 1]); }
  }

  lemma EntryIsEmitted<R>(versions: seq<VersionIn<R>>, restore: Restore<R>, out: seq<GroupOut>, i: nat)
    requires Regrouped(versions, restore, out) && i < |Entries(versions)|
    ensures Place(restore, Entries(versions)[i]) in Places(out)
  {
    var place := Place(restore, Entries(versions)[i]);
    EntriesAreNamed(versions);
    EntryIsFiled(Entries(versions), restore, i);
    CollectedIsCounted(versions, restore, place);
    var texts := Collected(versions, restore, place.0, place.1);
    assert Emitted(out, place.0, place.1, ArrayText(NonEmpty(texts)));
    PlacesOf(out, place);
  }

  /**
    Over the groups and versions of the output, the resources filed there are as many as the
    resources of the named versions of the input: none lost, none duplicated.
   */
  lemma NoneLost<R>(versions: seq<VersionIn<R>>, restore: Restore<R>, out: seq<GroupOut>)
    requires Regrouped(versions, restore, out)
    ensures Total(Entries(versions), restore, Places(out)) == |Entries(versions)|
    ensures forall place | place in Places(out) ::
              place.1 != "" && |Collected(versions, restore, place.0, place.1)| == Counted(Entries(versions), restore, place)
  {
    PlacesAreDistinct(out);
    forall i | 0 <= i < |Entries(versions)| ensures Place(restore, Entries(versions)[i]) in Places(out) {
      EntryIsEmitted(versions, restore, out, i);
    }
    EachCountedOnce(Entries(versions), restore, Places(out));
    forall place | place in Places(out)
      ensures place.1 != "" && |Collected(versions, restore, place.0, place.1)| == Counted(Entries(versions), restore, place)
    {
      PlacesOf(out, place);
      PlaceIsNamed(versions, restore, out, place);
      CollectedIsCounted(versions, restore, place);
    }
  }

  lemma PlaceIsNamed<R>(versions: seq<VersionIn<R>>, restore: Restore<R>, out: seq<GroupOut>, place: Pair)
    requires Regrouped(versions, restore, out)
    requires exists i, j | 0 <= i < |out| && 0 <= j < |out[i].versions| :: (out[i].name, out[i].versions[j].name) == place
    ensures place.1 != ""
  {
    var i, j :| 0 <= i < |out| && 0 <= j < |out[i].versions| && (out[i].name, out[i].versions[j].name) == place;
    assert Emitted(out, place.0, place.1, out[i].versions[j].resources);
    if place.1 == "" { NothingUnnamed(versions, restore, place.0); }
  }

  lemma {:induction false} NothingUnnamed<R>(versions: seq<VersionIn<R>>, restore: Restore<R>, group: string)
    ensures Collected(versions, restore, group, "") == []
    decreases |versions|
  {
    if versions != [] { NothingUnnamed(versions[..|versions| - 1], restore, group); }
  }

  // ---------------------------------------------------------------- one resource

  /** The fields that are rewritten where they are there; resource itself is always set. */
  const DISCOVERY: seq<string> := ["responseKind", "singularResource", "shortNames", "categories", "subresources"]

  function ResponseKind(group: string, kind: string): Json -> Json {
    (v: Json) => if v.Obj? then Set(Set(v, "group", Str(group)), "kind", Str(kind)) else v
  }

  ghost function SingularName(rs: Rules): Json -> Json {
    v => if AsText(v) == "" then v else Str(RestoreResource(rs, AsText(v)))
  }

  ghost function ShortName(rs: Rules): Json -> Json {
    v => Str(TrimPrefix(AsText(v), rs.shortNamePrefix))
  }

  function Categories(rule: ResourceRule): Json -> Json {
    _ => OptionalStrings(rule.categories)
  }

  ghost function Subresource(group: string, kind: string): Json -> Json {
    v => AtField(v, "responseKind", ResponseKind(group, kind))
  }

  ghost function DiscoveryRewriters(rs: Rules, group: string, rule: ResourceRule): seq<Json -> Json> {
    [ResponseKind(group, rule.kind), SingularName(rs), OverItems(ShortName(rs)),
     Categories(rule), OverItems(Subresource(group, rule.kind))]
  }

  /** RestoreAggregatedDiscoveryResource: the original group and the restored resource, or neither. */
  ghost function RestoreDiscoveryResource(rs: Rules, obj: Json): (string, Option<Json>) {
    var resource := RestoreResource(rs, TextAt(obj, "resource"));
    match GroupResourceRules(rs, resource)
    case None => ("", None)
    case Some((groupRule, rule)) =>
      (groupRule.group, Some(AtFields(Set(obj, "resource", Str(resource)), DISCOVERY, DiscoveryRewriters(rs, groupRule.group, rule))))
  }

  lemma DiscoveryFieldsDistinct()
    ensures AllDistinct(DISCOVERY) && |DISCOVERY| == 5
  {
  }

  /** What the restored resource says, field by field, of a resource as the server shows it. */
  ghost predicate DescribesOriginal(rs: Rules, group: string, plural: string, rule: ResourceRule, obj: Json, out: Json) {
    && Get(out, "resource") == Some(Str(plural))
    && DescribesKinds(group, rule, obj, out) && DescribesNames(rs, obj, out)
  }

  /** The name without this prefix, if it has it. */
  function Unprefixed(prefix: string, name: string): string {
    if prefix <= name then name[|prefix|..] else name
  }

  ghost predicate DescribesNames(rs: Rules, obj: Json, out: Json) {
    && (match Get(obj, "singularResource")
        case Some(v) => Get(out, "singularResource") == Some(if AsText(v) == "" then v else Str(Unprefixed(rs.resourceTypePrefix, AsText(v))))
        case None => Get(out, "singularResource").None?)
    && (Get(obj, "shortNames").None? ==> Get(out, "shortNames").None?)
    && (forall names | Get(obj, "shortNames") == Some(Strings(names)) ::
          exists short :: Get(out, "shortNames") == Some(Strings(short)) && IsUnprefixed(rs.shortNamePrefix, names, short))
  }

  predicate IsUnprefixed(prefix: string, names: seq<string>, short: seq<string>) {
    |short| == |names| && forall i | 0 <= i < |names| :: short[i] == Unprefixed(prefix, names[i])
  }

  /** An object with its group and kind replaced and its other fields kept; anything else stays. */
  ghost predicate ResponseTo(group: string, kind: string, v: Json, w: Json) {
    if v.Obj?
    then w.Obj? && Get(w, "group") == Some(Str(group)) && Get(w, "kind") == Some(Str(kind))
         && forall field | field != "group" && field != "kind" :: Get(w, field) == Get(v, field)
    else w == v
  }

  ghost predicate ResponseFieldTo(group: string, kind: string, x: Json, y: Json) {
    match (Get(x, "responseKind"), Get(y, "responseKind"))
    case (Some(v), Some(w)) => ResponseTo(group, kind, v, w)
    case (None, None) => true
    case _ => false
  }

  /** A subresource with its response kind replaced and its other fields kept. */
  ghost predicate SubresourceTo(group: string, kind: string, x: Json, y: Json) {
    ResponseFieldTo(group, kind, x, y) && forall field | field != "responseKind" :: Get(y, field) == Get(x, field)
  }

  ghost predicate SubresourcesTo(group: string, kind: string, items: seq<Json>, out: seq<Json>) {
    |out| == |items| && forall i | 0 <= i < |items| :: SubresourceTo(group, kind, items[i], out[i])
  }

  lemma ResponseWritten(group: string, kind: string, v: Json)
    ensures ResponseTo(group, kind, v, ResponseKind(group, kind)(v))
  {
  }

  lemma SubresourceWritten(group: string, kind: string, x: Json)
    ensures SubresourceTo(group, kind, x, Subresource(group, kind)(x))
  {
    if Get(x, "responseKind").Some? { ResponseWritten(group, kind, Get(x, "responseKind").value); }
  }

  lemma SubresourcesWritten(group: string, kind: string, items: seq<Json>)
    ensures SubresourcesTo(group, kind, items, MapSeq(items, Subresource(group, kind)))
  {
    var out := MapSeq(items, Subresource(group, kind));
    forall i | 0 <= i < |items| ensures SubresourceTo(group, kind, items[i], out[i]) { SubresourceWritten(group, kind, items[i]); }
  }

  ghost predicate DescribesKinds(group: string, rule: ResourceRule, obj: Json, out: Json) {
    && ResponseFieldTo(group, rule.kind, obj, out)
    && (match Get(obj, "categories")
        case Some(_) => Get(out, "categories") == Some(if rule.categories.None? then Null else Strings(rule.categories.value))
        case None => Get(out, "categories").None?)
    && (forall items | Get(obj, "subresources") == Some(Arr(items)) ::
          match Get(out, "subresources") case Some(w) => w.Arr? && SubresourcesTo(group, rule.kind, items, w.items) case None => false)
  }

  lemma ShortNamesRestored(rs: Rules, names: seq<string>) returns (short: seq<string>)
    ensures OverItems(ShortName(rs))(Strings(names)) == Strings(short) && IsUnprefixed(rs.shortNamePrefix, names, short)
  {
    short := seq(|names|, i requires 0 <= i < |names| => Unprefixed(rs.shortNamePrefix, names[i]));
    forall i | 0 <= i < |names| ensures ShortName(rs)(Str(names[i])) == Str(short[i]) {
      assert AsText(Str(names[i])) == names[i];
    }
    assert MapSeq(Strings(names).items, ShortName(rs)) == Strings(short).items;
  }

  /** Five fields, whatever is done to them; the others stay. */
  lemma FieldsOfDiscovery(obj: Json, fs: seq<Json -> Json>, i: nat, field: string)
    requires obj.Obj? && |fs| == 5 && i < 5
    ensures |DISCOVERY| == 5
    ensures var out := AtFields(obj, DISCOVERY, fs);
            && (match Get(obj, DISCOVERY[i]) case Some(v) => Get(out, DISCOVERY[i]) == Some(fs[i](v)) case None => Get(out, DISCOVERY[i]).None?)
            && (field !in DISCOVERY ==> Get(out, field) == Get(obj, field))
  {
    DiscoveryFieldsDistinct();
    FieldAfter(obj, DISCOVERY, fs, DISCOVERY[i]);
    FieldAfter(obj, DISCOVERY, fs, field);
  }

  lemma RewritersAt(rs: Rules, group: string, rule: ResourceRule)
    ensures var fs := DiscoveryRewriters(rs, group, rule);
            && |fs| == 5 && fs[0] == ResponseKind(group, rule.kind) && fs[1] == SingularName(rs) && fs[2] == OverItems(ShortName(rs))
            && fs[3] == Categories(rule) && fs[4] == OverItems(Subresource(group, rule.kind))
  {
  }

  lemma NamesDescribed(rs: Rules, obj: Json, fs: seq<Json -> Json>)
    requires obj.Obj? && |fs| == 5 && fs[1] == SingularName(rs) && fs[2] == OverItems(ShortName(rs))
    ensures |DISCOVERY| == 5 && DescribesNames(rs, obj, AtFields(obj, DISCOVERY, fs))
  {
    FieldsOfDiscovery(obj, fs, 1, "");
    FieldsOfDiscovery(obj, fs, 2, "");
    NamesWritten(rs, obj, AtFields(obj, DISCOVERY, fs));
  }

  lemma NamesWritten(rs: Rules, obj: Json, out: Json)
    requires match Get(obj, "singularResource")
             case Some(v) => Get(out, "singularResource") == Some(SingularName(rs)(v))
             case None => Get(out, "singularResource").None?
    requires match Get(obj, "shortNames")
             case Some(v) => Get(out, "shortNames") == Some(OverItems(ShortName(rs))(v))
             case None => Get(out, "shortNames").None?
    ensures DescribesNames(rs, obj, out)
  {
    ShortNamesDescribed(rs, Get(obj, "shortNames"), Get(out, "shortNames"));
  }

  lemma ShortNamesDescribed(rs: Rules, before: Option<Json>, after: Option<Json>)
    requires before.Some? ==> after == Some(OverItems(ShortName(rs))(before.value))
    ensures forall names | before == Some(Strings(names)) ::
              exists short :: after == Some(Strings(short)) && IsUnprefixed(rs.shortNamePrefix, names, short)
  {
    forall names | before == Some(Strings(names)) == Some(Strings(names))
      ensures exists short :: after == Some(Strings(short)) && IsUnprefixed(rs.shortNamePrefix, names, short)
    {
      var short := ShortNamesRestored(rs, names);
    }
  }

  lemma KindsDescribed(group: string, rule: ResourceRule, obj: Json, fs: seq<Json -> Json>)
    requires obj.Obj? && |fs| == 5 && fs[0] == ResponseKind(group, rule.kind) && fs[4] == OverItems(Subresource(group, rule.kind))
    requires fs[3] == Categories(rule)
    ensures |DISCOVERY| == 5 && DescribesKinds(group, rule, obj, AtFields(obj, DISCOVERY, fs))
  {
    FieldsOfDiscovery(obj, fs, 0, "");
    FieldsOfDiscovery(obj, fs, 3, "");
    FieldsOfDiscovery(obj, fs, 4, "");
    if Get(obj, "responseKind").Some? { ResponseWritten(group, rule.kind, Get(obj, "responseKind").value); }
    forall items | Get(obj, "subresources") == Some(Arr(items))
      ensures OverItems(Subresource(group, rule.kind))(Arr(items)) == Arr(MapSeq(items, Subresource(group, rule.kind)))
      ensures SubresourcesTo(group, rule.kind, items, MapSeq(items, Subresource(group, rule.kind)))
    {
      if items == [] { assert MapSeq(items, Subresource(group, rule.kind)) == []; }
      SubresourcesWritten(group, rule.kind, items);
    }
  }

  lemma RestoredDescribes(rs: Rules, group: string, plural: string, rule: ResourceRule, obj: Json, named: Json, fs: seq<Json -> Json>)
    requires named.Obj? && Get(named, "resource") == Some(Str(plural))
    requires Get(named, "singularResource") == Get(obj, "singularResource") && Get(named, "shortNames") == Get(obj, "shortNames")
    requires Get(named, "responseKind") == Get(obj, "responseKind") && Get(named, "categories") == Get(obj, "categories")
    requires Get(named, "subresources") == Get(obj, "subresources")
    requires |fs| == 5 && fs[0] == ResponseKind(group, rule.kind) && fs[4] == OverItems(Subresource(group, rule.kind))
    requires fs[1] == SingularName(rs) && fs[2] == OverItems(ShortName(rs)) && fs[3] == Categories(rule)
    ensures |DISCOVERY| == 5
    ensures DescribesOriginal(rs, group, plural, rule, obj, AtFields(named, DISCOVERY, fs))
  {
    DiscoveryFieldsDistinct();
    var out := AtFields(named, DISCOVERY, fs);
    assert Get(out, "resource") == Some(Str(plural)) by { ResourceStays(named, fs); }
    assert DescribesNames(rs, obj, out) by {
      NamesDescribed(rs, named, fs);
      NamesStay(rs, obj, named, out);
    }
    assert DescribesKinds(group, rule, obj, out) by {
      KindsDescribed(group, rule, named, fs);
      KindsStay(group, rule, obj, named, out);
    }
  }

  lemma ResourceStays(obj: Json, fs: seq<Json -> Json>)
    requires obj.Obj? && |fs| == 5
    ensures |DISCOVERY| == 5 && Get(AtFields(obj, DISCOVERY, fs), "resource") == Get(obj, "resource")
  {
    assert "resource" !in DISCOVERY;
    FieldsOfDiscovery(obj, fs, 0, "resource");
  }

  lemma NamesStay(rs: Rules, obj: Json, named: Json, out: Json)
    requires Get(named, "singularResource") == Get(obj, "singularResource") && Get(named, "shortNames") == Get(obj, "shortNames")
    requires DescribesNames(rs, named, out)
    ensures DescribesNames(rs, obj, out)
  {
  }

  lemma KindsStay(group: string, rule: ResourceRule, obj: Json, named: Json, out: Json)
    requires Get(named, "responseKind") == Get(obj, "responseKind") && Get(named, "categories") == Get(obj, "categories")
    requires Get(named, "subresources") == Get(obj, "subresources") && DescribesKinds(group, rule, named, out)
    ensures DescribesKinds(group, rule, obj, out)
  {
  }

  /** A renamed resource is filed under the one group that rules it, described as the original, and keeps all other fields. */
  lemma DiscoveryResourceRestored(rs: Rules, obj: Json, group: string, plural: string, field: string)
    requires OwnNames(rs) && CoherentResources(rs) && IsRuled(rs.groups, group, plural)
    requires TextAt(obj, "resource") == rs.resourceTypePrefix + plural
    ensures var out := RestoreDiscoveryResource(rs, obj);
            && out.0 == group && out.1.Some?
            && DescribesOriginal(rs, group, plural, rs.groups[group].resourceRules[plural], obj, out.1.value)
            && (field !in DISCOVERY && field != "resource" ==> Get(out.1.value, field) == Get(obj, field))
  {
    DiscoveryUnfolds(rs, obj, group, plural);
    SetKeepsOthers(obj, "resource", Str(plural));
    var rule := rs.groups[group].resourceRules[plural];
    RewritersAt(rs, group, rule);
    DescribedByRule(rs, group, plural, rule, obj, Set(obj, "resource", Str(plural)), DiscoveryRewriters(rs, group, rule), field);
  }

  lemma SetKeepsOthers(obj: Json, field: string, v: Json)
    requires obj.Obj?
    ensures Get(Set(obj, field, v), field) == Some(v)
    ensures forall other | other != field :: Get(Set(obj, field, v), other) == Get(obj, other)
  {
  }

  lemma DiscoveryUnfolds(rs: Rules, obj: Json, group: string, plural: string)
    requires OwnNames(rs) && CoherentResources(rs) && IsRuled(rs.groups, group, plural)
    requires TextAt(obj, "resource") == RenameResource(rs, plural)
    ensures |DiscoveryRewriters(rs, group, rs.groups[group].resourceRules[plural])| == |DISCOVERY|
    ensures RestoreDiscoveryResource(rs, obj)
            == (group, Some(AtFields(Set(obj, "resource", Str(plural)), DISCOVERY, DiscoveryRewriters(rs, group, rs.groups[group].resourceRules[plural]))))
  {
    TrimOfPrefixed(rs.resourceTypePrefix, plural);
    PluralIsFound(rs, group, plural, plural);
  }

  lemma DescribedByRule(rs: Rules, group: string, plural: string, rule: ResourceRule, obj: Json, named: Json, fs: seq<Json -> Json>, field: string)
    requires |fs| == 5 && fs[0] == ResponseKind(group, rule.kind) && fs[4] == OverItems(Subresource(group, rule.kind))
    requires fs[1] == SingularName(rs) && fs[2] == OverItems(ShortName(rs)) && fs[3] == Categories(rule)
    requires named.Obj? && Get(named, "resource") == Some(Str(plural))
    requires forall other | other != "resource" :: Get(named, other) == Get(obj, other)
    ensures |DISCOVERY| == 5
    ensures var out := AtFields(named, DISCOVERY, fs);
            && DescribesOriginal(rs, group, plural, rule, obj, out)
            && (field !in DISCOVERY && field != "resource" ==> Get(out, field) == Get(obj, field))
  {
    assert Get(named, "singularResource") == Get(obj, "singularResource") && Get(named, "shortNames") == Get(obj, "shortNames");
    RestoredDescribes(rs, group, plural, rule, obj, named, fs);
    FieldsOfDiscovery(named, fs, 0, field);
  }

  // ---------------------------------------------------------------- the output, in terms of the rules

  /** The plural a resource of the server's stands for. */
  ghost function OriginalPlural(rs: Rules, obj: Json): string {
    Cut(RestoreResource(rs, TextAt(obj, "resource")), '/').before
  }

  ghost predicate BelongsTo(rs: Rules, group: string, obj: Json) {
    IsRuled(rs.groups, group, OriginalPlural(rs, obj))
  }

  ghost predicate Unruled(rs: Rules, obj: Json) {
    forall group :: !BelongsTo(rs, group, obj)
  }

  ghost function RestoredResource(rs: Rules, obj: Json): Json {
    match RestoreDiscoveryResource(rs, obj).1 case Some(out) => out case None => Null
  }

  /** RestoreAggregatedDiscoveryResource with its result as text. */
  ghost function ByRules(rs: Rules, text: Json -> string): Restore<Json> {
    obj => Some((RestoreDiscoveryResource(rs, obj).0, if Unruled(rs, obj) then "" else text(RestoredResource(rs, obj))))
  }

  lemma WhereItBelongs(rs: Rules, obj: Json, group: string)
    requires OwnNames(rs) && CoherentResources(rs)
    ensures group != "" ==> (RestoreDiscoveryResource(rs, obj).0 == group <==> BelongsTo(rs, group, obj))
    ensures RestoreDiscoveryResource(rs, obj).0 == "" <==> Unruled(rs, obj)
    ensures RestoreDiscoveryResource(rs, obj).1.None? <==> Unruled(rs, obj)
  {
    var plural := OriginalPlural(rs, obj);
    HasPluralMeans(rs, plural);
    if HasPlural(rs.groups, plural) {
      var g :| IsRuled(rs.groups, g, plural);
      PluralIsFound(rs, g, plural, RestoreResource(rs, TextAt(obj, "resource")));
      assert BelongsTo(rs, g, obj);
    }
  }

  /** The resources of all versions of a name, in order. */
  ghost function Named<R>(versions: seq<VersionIn<R>>, version: string): seq<R> {
    if versions == [] then []
    else
      var last := versions[|versions| - 1];
      Named(versions[..|versions| - 1], version) + if last.name == version then last.resources else []
  }

  /** Those that belong to a group, restored, in order. */
  ghost function RestoredOf(rs: Rules, group: string, resources: seq<Json>): seq<Json> {
    if resources == [] then []
    else
      var last := resources[|resources| - 1];
      RestoredOf(rs, group, resources[..|resources| - 1]) + if BelongsTo(rs, group, last) then [RestoredResource(rs, last)] else []
  }

  ghost function Texts(text: Json -> string, objs: seq<Json>): seq<string> {
    seq(|objs|, i requires 0 <= i < |objs| => text(objs[i]))
  }

  lemma {:induction false} OfConcat<R>(a: seq<R>, b: seq<R>, restore: Restore<R>, group: string)
    ensures Of(a + b, restore, group) == Of(a, restore, group) + Of(b, restore, group)
    decreases |b|
  {
    if b == [] {
      assert a + b == a;
    } else {
      assert (a + b)[..|a + b| - 1] == a + b[..|b| - 1];
      OfConcat(a, b[..|b| - 1], restore, group);
    }
  }

  lemma {:induction false} CollectedIsOfNamed<R>(versions: seq<VersionIn<R>>, restore: Restore<R>, group: string, version: string)
    requires version != ""
    ensures Collected(versions, restore, group, version) == Of(Named(versions, version), restore, group)
    decreases |versions|
  {
    if versions != [] {
      var front, last := versions[..|versions| - 1], versions[|versions| - 1];
      CollectedIsOfNamed(front, restore, group, version);
      OfConcat(Named(front, version), if last.name == version then last.resources else [], restore, group);
    }
  }

  lemma {:induction false} OfSelected(rs: Rules, text: Json -> string, restore: Restore<Json>, group: string, resources: seq<Json>)
    requires forall x | x in resources ::
               && (Got(restore, x).0 == group <==> BelongsTo(rs, group, x))
               && (BelongsTo(rs, group, x) ==> Got(restore, x).1 == text(RestoredResource(rs, x)))
    ensures Of(resources, restore, group) == Texts(text, RestoredOf(rs, group, resources))
    decreases |resources|
  {
    if resources != [] {
      var front, last := resources[..|resources| - 1], resources[|resources| - 1];
      assert last in resources;
      OfSelected(rs, text, restore, group, front);
      TextsConcat(text, RestoredOf(rs, group, front), RestoredResource(rs, last));
    }
  }

  lemma TextsConcat(text: Json -> string, objs: seq<Json>, obj: Json)
    ensures Texts(text, objs + [obj]) == Texts(text, objs) + [text(obj)]
  {
  }

  lemma OfByRules(rs: Rules, text: Json -> string, group: string, resources: seq<Json>)
    requires OwnNames(rs) && CoherentResources(rs) && group != ""
    ensures Of(resources, ByRules(rs, text), group) == Texts(text, RestoredOf(rs, group, resources))
  {
    forall x | x in resources
      ensures Got(ByRules(rs, text), x).0 == group <==> BelongsTo(rs, group, x)
      ensures BelongsTo(rs, group, x) ==> Got(ByRules(rs, text), x).1 == text(RestoredResource(rs, x))
    {
      WhereItBelongs(rs, x, group);
    }
    OfSelected(rs, text, ByRules(rs, text), group, resources);
  }

  lemma {:induction false} OfBlanks(rs: Rules, restore: Restore<Json>, resources: seq<Json>)
    requires forall x | x in resources :: (Got(restore, x).0 == "" <==> Unruled(rs, x)) && (Unruled(rs, x) ==> Got(restore, x).1 == "")
    ensures forall t | t in Of(resources, restore, "") :: t == ""
    ensures Of(resources, restore, "") != [] <==> exists x :: x in resources && Unruled(rs, x)
    decreases |resources|
  {
    if resources != [] {
      var front, last := resources[..|resources| - 1], resources[|resources| - 1];
      assert last in resources && resources == front + [last];
      OfBlanks(rs, restore, front);
    }
  }

  /** Under the empty group there is one empty text for every unruled resource. */
  lemma OfUnruled(rs: Rules, text: Json -> string, resources: seq<Json>)
    requires OwnNames(rs) && CoherentResources(rs)
    ensures forall t | t in Of(resources, ByRules(rs, text), "") :: t == ""
    ensures Of(resources, ByRules(rs, text), "") != [] <==> exists x :: x in resources && Unruled(rs, x)
  {
    forall x | x in resources
      ensures Got(ByRules(rs, text), x).0 == "" <==> Unruled(rs, x)
      ensures Unruled(rs, x) ==> Got(ByRules(rs, text), x).1 == ""
    {
      WhereItBelongs(rs, x, "");
    }
    OfBlanks(rs, ByRules(rs, text), resources);
  }

  /**
    For coherent rules: under every original group and version the output holds exactly the restored
    resources that the rules give to that group, in input order. A group without a rule is not there.
   */
  lemma DiscoveryByRules(rs: Rules, text: Json -> string, versions: seq<VersionIn<Json>>, out: seq<GroupOut>, group: string, version: string, emitted: string)
    requires OwnNames(rs) && CoherentResources(rs) && forall j :: text(j) != ""
    requires Regrouped(versions, ByRules(rs, text), out) && group != "" && version != ""
    ensures var restored := RestoredOf(rs, group, Named(versions, version));
            && (Emitted(out, group, version, emitted) <==> restored != [] && emitted == ArrayText(Texts(text, restored)))
            && (group !in rs.groups ==> restored == [])
  {
    CollectedIsOfNamed(versions, ByRules(rs, text), group, version);
    OfByRules(rs, text, group, Named(versions, version));
    NonEmptyOfFull(Texts(text, RestoredOf(rs, group, Named(versions, version))));
    if group !in rs.groups { NothingOf(rs, group, Named(versions, version)); }
  }

  lemma {:induction false} NothingOf(rs: Rules, group: string, resources: seq<Json>)
    requires group !in rs.groups
    ensures RestoredOf(rs, group, resources) == []
    decreases |resources|
  {
    if resources != [] { NothingOf(rs, group, resources[..|resources| - 1]); }
  }

  /** Some named version holds a resource without a rule. */
  ghost predicate HoldsUnruled(rs: Rules, versions: seq<VersionIn<Json>>, version: string) {
    exists x :: x in Named(versions, version) && Unruled(rs, x)
  }

  /**
    Resources without a rule add no resource anywhere, but they make the output hold a group with
    the empty name: it is there exactly when some named version has one, with an empty array.
   */
  lemma EmptyGroupExactly(rs: Rules, text: Json -> string, versions: seq<VersionIn<Json>>, out: seq<GroupOut>)
    requires OwnNames(rs) && CoherentResources(rs) && Regrouped(versions, ByRules(rs, text), out)
    ensures HasGroup(out, "") <==> exists version :: version != "" && HoldsUnruled(rs, versions, version)
    ensures forall version, emitted | Emitted(out, "", version, emitted) :: emitted == "[]"
  {
    forall version, emitted
      ensures Emitted(out, "", version, emitted) <==> version != "" && HoldsUnruled(rs, versions, version) && emitted == "[]"
    {
      UnruledEmitted(rs, text, versions, out, version, emitted);
    }
    if HasGroup(out, "") {
      var i :| 0 <= i < |out| && out[i].name == "";
      var w := out[i].versions[0];
      assert Emitted(out, "", w.name, w.resources);
    }
    if version :| version != "" && HoldsUnruled(rs, versions, version) {
      assert Emitted(out, "", version, "[]");
      var i, j :| 0 <= i < |out| && 0 <= j < |out[i].versions| && out[i].name == "" && out[i].versions[j] == VersionOut(version, "[]");
    }
  }

  lemma UnruledEmitted(rs: Rules, text: Json -> string, versions: seq<VersionIn<Json>>, out: seq<GroupOut>, version: string, emitted: string)
    requires OwnNames(rs) && CoherentResources(rs) && Regrouped(versions, ByRules(rs, text), out)
    ensures Emitted(out, "", version, emitted) <==> version != "" && HoldsUnruled(rs, versions, version) && emitted == "[]"
  {
    if version == "" {
      NothingUnnamed(versions, ByRules(rs, text), "");
    } else {
      CollectedIsOfNamed(versions, ByRules(rs, text), "", version);
      OfUnruled(rs, text, Named(versions, version));
      NonEmptyOfBlanks(Of(Named(versions, version), ByRules(rs, text), ""));
      assert ArrayText([]) == "[]";
    }
  }
}
