/**
  Patches. A client's merge patch (section 2 of RFC 7396) or JSON Patch (section 4 of RFC 6902) is
  renamed and applied by the server. What the client then reads must be what it would have got by
  applying its own patch to what it saw.
 */
module Patches {
  import opened Text
  import opened NameRewriting
  import opened RoundTrips
  import opened LabelMaps
  import opened Visibility
  import opened Rules
  import opened Json
  import opened Arrays
  import opened Transforms
  import opened FieldMaps
  import opened Payload
  import opened Transparency
  import opened JsonPointer

  // ---------------------------------------------------------------- merge patches

  /** MergePatch of section 2 of RFC 7396. */
  function MergePatch(target: Json, patch: Json): Json
    decreases patch
  {
    if !patch.Obj? then patch
    else
      var before := if target.Obj? then target.fields else map[];
      Obj(map k | k in before.Keys + patch.fields.Keys && !(k in patch.fields && patch.fields[k].Null?) ::
            if k in patch.fields then MergePatch(if k in before then before[k] else Null, patch.fields[k]) else before[k])
  }

  /** What a merge does to one field. */
  function MergeField(target: Option<Json>, patch: Option<Json>): Option<Json> {
    match patch
    case None => target
    case Some(p) =>
      if p.Null? then None
      else Some(MergePatch(match target case Some(t) => t case None => Null, p))
  }

  function MapField(v: Option<Json>, f: Json -> Json): Option<Json> {
    match v case Some(j) => Some(f(j)) case None => None
  }

  lemma MergeGet(target: Json, patch: Json, k: string)
    requires patch.Obj?
    ensures MergePatch(target, patch).Obj?
    ensures Get(MergePatch(target, patch), k) == MergeField(Get(target, k), Get(patch, k))
  {
  }

  function Merged(m: Fields, patch: Fields): Fields {
    MergePatch(Obj(m), Obj(patch)).fields
  }

  lemma MergedAt(m: Fields, patch: Fields, key: string)
    requires forall k | k in patch :: StringOrNull(patch[k])
    ensures At(Merged(m, patch), key)
            == match At(patch, key) case None => At(m, key) case Some(v) => if v.Null? then None else Some(v)
  {
    MergeGet(Obj(m), Obj(patch), key);
    assert key in patch ==> StringOrNull(patch[key]);
  }

  // ---------------------------------------------------------------- one map, seen from both sides

  /** What a client may put into a patch of labels: pairs of its domain, and null under any name to delete it. */
  ghost predicate PatchFields(r: NameRewriter, patch: Fields) {
    forall k | k in patch :: StringOrNull(patch[k]) && '=' !in k && (patch[k].Str? ==> ClientDomain(r, k, patch[k].s))
  }

  /** Keys that reach the same server key all delete it: no value has a rival. */
  predicate NoRivals(r: NameRewriter, patch: Fields) {
    forall j, k | j in patch && k in patch && j != k && ServerName(r, j) == ServerName(r, k) :: patch[j].Null? && patch[k].Null?
  }

  /** Every server label that the patch touches is seen under a key of the patch. */
  ghost predicate Settled(r: NameRewriter, m: Fields, patch: Fields) {
    forall k | k in patch :: CoveredAt(r, m, patch, k)
  }

  ghost predicate CoveredAt(r: NameRewriter, m: Fields, patch: Fields, key: string) {
    var n := ServerName(r, key);
    n in m ==> SeenPair(r, n, m[n]).0 in patch
  }

  ghost predicate SettledAt(r: NameRewriter, m: Fields, key: string) {
    var n := ServerName(r, key);
    n in m ==> SeenPair(r, n, m[n]).0 == key
  }

  /** What is seen of a server label leads back to it. */
  ghost predicate LeadsBack(r: NameRewriter, m: Fields) {
    forall n | n in m :: ServerName(r, SeenPair(r, n, m[n]).0) == n
  }

  /** The renamed patch, entry by entry. */
  ghost predicate SentFor(r: NameRewriter, patch: Fields, sent: Fields) {
    (forall k | k in patch :: SentAt(r, patch, sent, k)) && SentFromPatch(r, patch, sent)
  }

  ghost predicate SentAt(r: NameRewriter, patch: Fields, sent: Fields, key: string)
    requires key in patch
  {
    ServerName(r, key) in sent && SentRight(r, key, patch[key], sent[ServerName(r, key)])
  }

  ghost predicate SentFromPatch(r: NameRewriter, patch: Fields, sent: Fields) {
    forall n | n in sent :: StringOrNull(sent[n]) && exists k | k in patch :: ServerName(r, k) == n
  }

  ghost predicate SentRight(r: NameRewriter, key: string, v: Json, v': Json) {
    (v'.Null? <==> v.Null?) && (!v.Null? ==> StandsFor(r, key, v, v'))
  }

  /** What the client sees after the merge, key by key, when that key or no other key of the patch reaches its server label. */
  lemma MergedViewAt(r: NameRewriter, m: Fields, patch: Fields, sent: Fields, key: string)
    requires SentFor(r, patch, sent)
    ensures ViewAt(r, Merged(m, sent), key)
            == if key in patch then (if patch[key].Null? then None else Some(patch[key]))
               else if ServerName(r, key) in sent then None
               else ViewAt(r, m, key)
  {
    var n := ServerName(r, key);
    MergedAt(m, sent, n);
    if n in sent {
      var k :| k in patch && ServerName(r, k) == n;
      assert SentRight(r, k, patch[k], sent[n]);
    }
  }

  /** Merging on the server gives what merging on the client gives, exactly when the patch is settled. */
  lemma MergedViewExactly(r: NameRewriter, m: Fields, view: Fields, patch: Fields, sent: Fields)
    requires IsView(r, m, view) && SentFor(r, patch, sent) && LeadsBack(r, m)
    requires forall k | k in patch :: StringOrNull(patch[k])
    ensures (forall key :: ViewAt(r, Merged(m, sent), key) == At(Merged(view, patch), key)) <==> Settled(r, m, patch)
  {
    forall key
      ensures key in patch || ServerName(r, key) !in sent ==> ViewAt(r, Merged(m, sent), key) == At(Merged(view, patch), key)
      ensures key !in patch && ServerName(r, key) in sent ==>
                ViewAt(r, Merged(m, sent), key) == None && At(Merged(view, patch), key) == ViewAt(r, m, key)
    {
      MergedViewAt(r, m, patch, sent, key);
      MergedAt(view, patch, key);
      assert At(view, key) == ViewAt(r, m, key);
    }
    if Settled(r, m, patch) {
      forall key ensures ViewAt(r, Merged(m, sent), key) == At(Merged(view, patch), key) {
        if key !in patch && ServerName(r, key) in sent {
          var k :| k in patch && ServerName(r, k) == ServerName(r, key);
          assert CoveredAt(r, m, patch, k);
        }
      }
    } else {
      var k :| k in patch && !CoveredAt(r, m, patch, k);
      var other := UnsettledKey(r, m, patch, k);
      assert ViewAt(r, Merged(m, sent), other) != At(Merged(view, patch), other);
    }
  }

  /** The key under which the client sees what the patch is about to overwrite. */
  lemma UnsettledKey(r: NameRewriter, m: Fields, patch: Fields, key: string) returns (other: string)
    requires LeadsBack(r, m) && key in patch && !CoveredAt(r, m, patch, key)
    ensures other !in patch && ServerName(r, other) == ServerName(r, key) && ViewAt(r, m, other).Some?
  {
    var n := ServerName(r, key);
    other := SeenPair(r, n, m[n]).0;
    assert ServerName(r, other) == n;
  }

  lemma ServerLeadsBack(r: NameRewriter, m: Fields)
    requires Coherent(r) && NamesFollow(r) && ServerFields(r, m)
    ensures LeadsBack(r, m)
  {
    forall n | n in m ensures ServerName(r, SeenPair(r, n, m[n]).0) == n {
      RestoredNameLeadsBack(r, n, AsText(m[n]));
    }
  }

  lemma PatchKeysFollow(r: NameRewriter, patch: Fields)
    requires NamesFollow(r) && forall k | k in patch :: '=' !in k
    ensures forall k | k in patch :: NewKey(patch, JsonEntry(Rewriter(r, Renaming)), k) == ServerName(r, k)
  {
    forall k | k in patch ensures NewKey(patch, JsonEntry(Rewriter(r, Renaming)), k) == ServerName(r, k) {
      NameFollows(r, k, AsText(patch[k]));
    }
  }

  lemma SentEntry(r: NameRewriter, key: string, v: Json)
    requires Coherent(r) && NamesFollow(r) && StringOrNull(v) && '=' !in key && (v.Str? ==> ClientDomain(r, key, v.s))
    ensures var v' := JsonEntry(Rewriter(r, Renaming))(key, v).1;
            && StringOrNull(v') && SentRight(r, key, v, v')
            && (v'.Str? ==> '=' !in ServerName(r, key) && ServerDomain(r, ServerName(r, key), v'.s))
  {
    if v.Str? {
      assert AsText(v) == v.s;
      RenamedStandsFor(r, key, v);
      StringText(JsonEntry(Rewriter(r, Renaming))(key, v).1);
    } else {
      NullIsSentAsNull(r, key);
    }
  }

  lemma StringText(v: Json)
    ensures v.Str? ==> AsText(v) == v.s
  {
  }

  lemma NullIsSentAsNull(r: NameRewriter, key: string)
    ensures JsonEntry(Rewriter(r, Renaming))(key, Null).1 == Null
  {
    EmptyValueStays(r, key);
    assert AsText(Null) == "";
  }

  /** What RewriteMapStringString may send for a patch, the order of writes being open. */
  ghost predicate MaySend(r: NameRewriter, patch: Fields, sent: Fields) {
    IsImage(patch, JsonEntry(Rewriter(r, Renaming)), sent)
  }

  /** Every entry that is sent stands for an entry of the patch and is in the server's domain. */
  lemma SentIsServer(r: NameRewriter, patch: Fields, sent: Fields)
    requires Coherent(r) && NamesFollow(r) && PatchFields(r, patch) && MaySend(r, patch, sent)
    ensures SentFromPatch(r, patch, sent)
    ensures forall n | n in sent && sent[n].Str? :: '=' !in n && ServerDomain(r, n, sent[n].s)
  {
    var f := JsonEntry(Rewriter(r, Renaming));
    PatchKeysFollow(r, patch);
    forall n | n in sent
      ensures StringOrNull(sent[n]) && exists k | k in patch :: ServerName(r, k) == n
      ensures sent[n].Str? ==> '=' !in n && ServerDomain(r, n, sent[n].s)
    {
      var k :| Yields(patch, f, k, n, sent[n]);
      SentEntry(r, k, patch[k]);
    }
  }

  lemma SentForKey(r: NameRewriter, patch: Fields, sent: Fields, key: string)
    requires Coherent(r) && NamesFollow(r) && PatchFields(r, patch) && NoRivals(r, patch) && MaySend(r, patch, sent) && key in patch
    ensures SentAt(r, patch, sent, key)
  {
    var f, n := JsonEntry(Rewriter(r, Renaming)), ServerName(r, key);
    PatchKeysFollow(r, patch);
    assert NewKey(patch, f, key) in sent;
    var k :| Yields(patch, f, k, n, sent[n]);
    SentEntry(r, k, patch[k]);
  }

  lemma RenamedPatchIsSent(r: NameRewriter, patch: Fields, sent: Fields)
    requires Coherent(r) && NamesFollow(r) && PatchFields(r, patch) && NoRivals(r, patch) && MaySend(r, patch, sent)
    ensures SentFor(r, patch, sent)
  {
    forall k | k in patch ensures SentAt(r, patch, sent, k) { SentForKey(r, patch, sent, k); }
    SentIsServer(r, patch, sent);
  }

  lemma MergedStaysServer(r: NameRewriter, m: Fields, sent: Fields)
    requires ServerFields(r, m) && forall n | n in sent :: StringOrNull(sent[n])
    requires forall n | n in sent && sent[n].Str? :: '=' !in n && ServerDomain(r, n, sent[n].s)
    ensures ServerFields(r, Merged(m, sent))
  {
    forall n | n in Merged(m, sent)
      ensures StringOrNull(Merged(m, sent)[n]) && '=' !in n && ServerDomain(r, n, AsText(Merged(m, sent)[n]))
    {
      MergedAt(m, sent, n);
      assert At(Merged(m, sent), n) == Some(Merged(m, sent)[n]);
    }
  }

  ghost predicate MergesAlike(r: NameRewriter, m: Fields, patch: Fields, sent: Fields) {
    RestoreFields(r, Merged(m, sent)) == Merged(RestoreFields(r, m), patch)
  }

  ghost predicate AlwaysMergesAlike(r: NameRewriter, m: Fields, patch: Fields) {
    forall sent | MaySend(r, patch, sent) :: MergesAlike(r, m, patch, sent)
  }

  lemma SentMergesExactly(r: NameRewriter, m: Fields, patch: Fields, sent: Fields)
    requires Coherent(r) && NamesFollow(r) && ServerFields(r, m) && PatchFields(r, patch) && NoRivals(r, patch) && MaySend(r, patch, sent)
    ensures MergesAlike(r, m, patch, sent) <==> Settled(r, m, patch)
  {
    SentIsServer(r, patch, sent);
    RenamedPatchIsSent(r, patch, sent);
    MergedStaysServer(r, m, sent);
    RestoredIsView(r, m);
    RestoredIsView(r, Merged(m, sent));
    ServerLeadsBack(r, m);
    SettledDecides(r, m, RestoreFields(r, m), patch, sent, RestoreFields(r, Merged(m, sent)));
  }

  lemma SettledDecides(r: NameRewriter, m: Fields, view: Fields, patch: Fields, sent: Fields, after: Fields)
    requires IsView(r, m, view) && SentFor(r, patch, sent) && LeadsBack(r, m)
    requires IsView(r, Merged(m, sent), after) && forall k | k in patch :: StringOrNull(patch[k])
    ensures after == Merged(view, patch) <==> Settled(r, m, patch)
  {
    MergedViewExactly(r, m, view, patch, sent);
    if Settled(r, m, patch) { SameAt(after, Merged(view, patch)); }
  }

  /** When the rival of a value is written last, the value does not reach the client. */
  lemma RivalWins(r: NameRewriter, m: Fields, patch: Fields, rival: string, key: string) returns (sent: Fields)
    requires Coherent(r) && NamesFollow(r) && ServerFields(r, m) && PatchFields(r, patch)
    requires rival in patch && key in patch && rival != key && ServerName(r, rival) == ServerName(r, key) && !patch[key].Null?
    ensures MaySend(r, patch, sent) && !MergesAlike(r, m, patch, sent)
  {
    var f, n := JsonEntry(Rewriter(r, Renaming)), ServerName(r, key);
    PatchKeysFollow(r, patch);
    SentEntry(r, rival, patch[rival]);
    ImageWith(patch, f, RenameFields(r, patch), rival);
    sent := RenameFields(r, patch)[n := NewValue(patch, f, rival)];
    SentIsServer(r, patch, sent);
    MergedStaysServer(r, m, sent);
    RestoredAt(r, Merged(m, sent), key);
    HiddenByRival(r, m, sent, rival, patch[rival], key);
    MergedAt(RestoreFields(r, m), patch, key);
    assert At(RestoreFields(r, Merged(m, sent)), key) != At(Merged(RestoreFields(r, m), patch), key);
  }

  lemma HiddenByRival(r: NameRewriter, m: Fields, sent: Fields, rival: string, v: Json, key: string)
    requires forall n | n in sent :: StringOrNull(sent[n])
    requires rival != key && ServerName(r, rival) == ServerName(r, key) && ServerName(r, key) in sent
    requires SentRight(r, rival, v, sent[ServerName(r, key)])
    ensures ViewAt(r, Merged(m, sent), key) == None
  {
    MergedAt(m, sent, ServerName(r, key));
  }

  /**
    On one label map: renaming the patch, in whatever order its entries are written, merging on the
    server and restoring is merging on the client, exactly when no value of the patch has a rival
    and every server label the patch touches is seen under a key of the patch.
   */
  lemma LabelsMergeCommutes(r: NameRewriter, m: Fields, patch: Fields)
    requires Coherent(r) && NamesFollow(r) && ServerFields(r, m) && PatchFields(r, patch)
    ensures AlwaysMergesAlike(r, m, patch) <==> NoRivals(r, patch) && Settled(r, m, patch)
  {
    if NoRivals(r, patch) {
      forall sent | MaySend(r, patch, sent) ensures MergesAlike(r, m, patch, sent) <==> Settled(r, m, patch) {
        SentMergesExactly(r, m, patch, sent);
      }
      assert MaySend(r, patch, RenameFields(r, patch));
    } else {
      var j, k :| j in patch && k in patch && j != k && ServerName(r, j) == ServerName(r, k) && !(patch[j].Null? && patch[k].Null?);
      if patch[k].Null? {
        var sent := RivalWins(r, m, patch, k, j);
      } else {
        var sent := RivalWins(r, m, patch, j, k);
      }
    }
  }

  /** Deleting a name that stays under both its forms is safe whatever the server holds. */
  lemma TwinNullsDelete(r: NameRewriter, m: Fields, a: string)
    requires Coherent(r) && NamesFollow(r) && ServerFields(r, m) && Askable(r, a) && !IsPreserved(a) && ServerName(r, a) == a
    ensures AlwaysMergesAlike(r, m, map[a := Null, PRESERVED + a := Null])
  {
    if a in m {
      RestoredOrTwin(r, a, AsText(m[a]));
      assert SeenPair(r, a, m[a]).0 in {a, PRESERVED + a};
    }
    TwinNullsAreSettled(r, m, a);
    LabelsMergeCommutes(r, m, map[a := Null, PRESERVED + a := Null]);
  }

  lemma TwinNullsAreSettled(r: NameRewriter, m: Fields, a: string)
    requires '=' !in a && ServerName(r, a) == a && (a in m ==> SeenPair(r, a, m[a]).0 in {a, PRESERVED + a})
    ensures var patch := map[a := Null, PRESERVED + a := Null]; PatchFields(r, patch) && NoRivals(r, patch) && Settled(r, m, patch)
  {
    assert '=' !in PRESERVED + a;
    TrimOfPrefixed(PRESERVED, a);
    assert ServerName(r, PRESERVED + a) == a;
  }

  /** Giving it a value beside the other form never is. */
  lemma ValueBesideTwin(r: NameRewriter, m: Fields, a: string, value: string, other: Json)
    requires Coherent(r) && NamesFollow(r) && ServerFields(r, m) && '=' !in a && ServerName(r, a) == a && ClientDomain(r, a, value)
    requires StringOrNull(other) && (other.Str? ==> ClientDomain(r, PRESERVED + a, other.s))
    ensures !AlwaysMergesAlike(r, m, map[a := Str(value), PRESERVED + a := other])
  {
    TwinIsRival(r, a, value, other);
    LabelsMergeCommutes(r, m, map[a := Str(value), PRESERVED + a := other]);
  }

  lemma TwinIsRival(r: NameRewriter, a: string, value: string, other: Json)
    requires '=' !in a && ServerName(r, a) == a && ClientDomain(r, a, value)
    requires StringOrNull(other) && (other.Str? ==> ClientDomain(r, PRESERVED + a, other.s))
    ensures var patch := map[a := Str(value), PRESERVED + a := other]; PatchFields(r, patch) && !NoRivals(r, patch)
  {
    var patch := map[a := Str(value), PRESERVED + a := other];
    assert '=' !in PRESERVED + a && a != PRESERVED + a;
    TrimOfPrefixed(PRESERVED, a);
    assert ServerName(r, PRESERVED + a) == a && a in patch && PRESERVED + a in patch;
  }

  // ---------------------------------------------------------------- rules under which every patch is settled

  /** A client's name that is steady is settled whatever the server holds. */
  lemma SteadyIsSettled(r: NameRewriter, m: Fields, key: string)
    requires Coherent(r) && NamesFollow(r) && ServerFields(r, m) && Askable(r, key) && Steady(r, key)
    ensures SettledAt(r, m, key)
  {
    var n := ServerName(r, key);
    if n in m { RestoredToName(r, key, AsText(m[n])); }
  }

  /** With value rules on top every patch with values of the client's domain, and null only under its names, is settled. */
  lemma OnTopIsSettled(r: NameRewriter, m: Fields, patch: Fields)
    requires Coherent(r) && ValueRulesOnTop(r) && ServerFields(r, m) && ClientFields(r, patch)
    ensures NamesFollow(r) && PatchFields(r, patch) && NoRivals(r, patch) && Settled(r, m, patch)
  {
    OnTopFollows(r);
    ClientFieldsArePatchFields(r, patch);
    OnTopHasNoRivals(r, patch);
    forall k | k in patch ensures CoveredAt(r, m, patch, k) { OnTopIsSettledAt(r, m, k, AsText(patch[k])); }
  }

  lemma ClientFieldsArePatchFields(r: NameRewriter, patch: Fields)
    requires ClientFields(r, patch)
    ensures PatchFields(r, patch)
  {
    assert forall k | k in patch && patch[k].Str? :: AsText(patch[k]) == patch[k].s;
  }

  lemma OnTopHasNoRivals(r: NameRewriter, patch: Fields)
    requires Coherent(r) && ValueRulesOnTop(r) && ClientFields(r, patch)
    ensures NoRivals(r, patch)
  {
    forall j, k | j in patch && k in patch && ServerName(r, j) == ServerName(r, k) ensures j == k {
      OnTopIsOneEach(r, j, AsText(patch[j]), k, AsText(patch[k]));
    }
  }

  lemma OnTopFollows(r: NameRewriter)
    requires ValueRulesOnTop(r)
    ensures NamesFollow(r)
  {
  }

  lemma OnTopIsSettledAt(r: NameRewriter, m: Fields, key: string, value: string)
    requires Coherent(r) && ValueRulesOnTop(r) && ServerFields(r, m) && '=' !in key && ClientDomain(r, key, value)
    ensures SettledAt(r, m, key)
  {
    OnTopFollows(r);
    OnTopIsSteady(r, key, value);
    OnTopIsAskable(r, key, value);
    SteadyIsSettled(r, m, key);
  }

  lemma OnTopIsAskable(r: NameRewriter, key: string, value: string)
    requires Coherent(r) && ValueRulesOnTop(r) && '=' !in key && ClientDomain(r, key, value)
    ensures Askable(r, key)
  {
    OnTopIgnoresValue(r, key, value);
  }

  lemma OnTopIsOneEach(r: NameRewriter, j: string, v: string, k: string, w: string)
    requires Coherent(r) && ValueRulesOnTop(r) && '=' !in j && '=' !in k && ClientDomain(r, j, v) && ClientDomain(r, k, w)
    requires ServerName(r, j) == ServerName(r, k)
    ensures j == k
  {
    NameFollows(r, j, v);
    NameFollows(r, k, w);
    if j != k {
      OnlyTwinsMeet(r, j, v, k, w);
      if AreTwins(r, j, k) { OnTopHasNoTwins(r, j, w); } else { OnTopHasNoTwins(r, k, v); }
    }
  }

  // ---------------------------------------------------------------- the metadata of a whole document

  ghost predicate ServerLabelsValue(r: NameRewriter, v: Option<Json>) {
    v.Some? && v.value.Obj? ==> ServerFields(r, v.value.fields)
  }

  ghost predicate PatchLabelsValue(r: NameRewriter, v: Option<Json>) {
    v.Some? && v.value.Obj? ==> PatchFields(r, v.value.fields)
  }

  /** The map that a patch of labels meets; what is not an object counts as empty. */
  function FieldsMet(target: Option<Json>): Fields {
    if target.Some? && target.value.Obj? then target.value.fields else map[]
  }

  ghost predicate LabelsSettled(r: NameRewriter, target: Option<Json>, patch: Option<Json>) {
    patch.Some? && patch.value.Obj? ==>
      NoRivals(r, patch.value.fields) && Settled(r, FieldsMet(target), patch.value.fields)
  }

  /** RewriteMapStringString with the outcome that one order of writes gives. */
  function ChosenField(sent: Fields): Json -> Json {
    (v: Json) => if v.Obj? && v.fields != map[] then Obj(sent) else v
  }

  ghost predicate IsChoice(r: NameRewriter, patch: Option<Json>, sent: Fields) {
    patch.Some? && patch.value.Obj? ==> MaySend(r, patch.value.fields, sent)
  }

  /** A labels field of a patch merges alike in whatever order its entries are written. */
  ghost predicate LabelsCommute(r: NameRewriter, target: Option<Json>, patch: Option<Json>) {
    forall sent | IsChoice(r, patch, sent) :: FieldCommutes(target, patch, ChosenField(sent), LabelsField(r, Restoring))
  }

  lemma SomeChoice(r: NameRewriter, patch: Option<Json>) returns (sent: Fields)
    ensures IsChoice(r, patch, sent)
  {
    sent := if patch.Some? && patch.value.Obj? then RenameFields(r, patch.value.fields) else map[];
  }

  lemma ChosenOfObject(r: NameRewriter, p: Fields, sent: Fields)
    requires MaySend(r, p, sent)
    ensures ChosenField(sent)(Obj(p)) == Obj(sent)
  {
    if p == map[] { assert sent == map[]; }
  }

  lemma LabelsFieldOfObject(r: NameRewriter, action: Action, m: Fields)
    ensures LabelsField(r, action)(Obj(m)) == Obj(Image(m, JsonEntry(Rewriter(r, action))))
  {
    if m == map[] { assert Image(m, JsonEntry(Rewriter(r, action))) == map[]; }
  }

  /** f renames a field, g restores it: merging commutes with them. */
  ghost predicate FieldCommutes(target: Option<Json>, patch: Option<Json>, f: Json -> Json, g: Json -> Json) {
    MapField(MergeField(target, MapField(patch, f)), g) == MergeField(MapField(target, g), patch)
  }

  /** For one outcome of renaming, the field commutes exactly when the maps merge alike. */
  lemma ChosenCommutes(r: NameRewriter, target: Option<Json>, p: Fields, sent: Fields)
    requires MaySend(r, p, sent)
    ensures FieldCommutes(target, Some(Obj(p)), ChosenField(sent), LabelsField(r, Restoring)) <==> MergesAlike(r, FieldsMet(target), p, sent)
  {
    var m := FieldsMet(target);
    ChosenOfObject(r, p, sent);
    LabelsFieldOfObject(r, Restoring, m);
    LabelsFieldOfObject(r, Restoring, Merged(m, sent));
    NonObjectTarget(r, target, m, p);
  }

  lemma LabelsFieldCommutes(r: NameRewriter, target: Option<Json>, patch: Option<Json>)
    requires Coherent(r) && NamesFollow(r) && ServerLabelsValue(r, target) && PatchLabelsValue(r, patch)
    ensures LabelsCommute(r, target, patch) <==> LabelsSettled(r, target, patch)
  {
    if patch.Some? && patch.value.Obj? {
      LabelsMergeCommutes(r, FieldsMet(target), patch.value.fields);
      AllChoicesCommute(r, target, patch.value.fields);
      assert patch == Some(Obj(patch.value.fields));
    } else {
      OtherPatchCommutes(r, target, patch);
    }
  }

  lemma OtherPatchCommutes(r: NameRewriter, target: Option<Json>, patch: Option<Json>)
    requires !(patch.Some? && patch.value.Obj?)
    ensures LabelsCommute(r, target, patch)
  {
  }

  lemma AllChoicesCommute(r: NameRewriter, target: Option<Json>, p: Fields)
    ensures LabelsCommute(r, target, Some(Obj(p))) <==> AlwaysMergesAlike(r, FieldsMet(target), p)
  {
    forall sent | MaySend(r, p, sent)
      ensures FieldCommutes(target, Some(Obj(p)), ChosenField(sent), LabelsField(r, Restoring)) <==> MergesAlike(r, FieldsMet(target), p, sent)
    {
      ChosenCommutes(r, target, p, sent);
    }
  }

  /** A target that is not an object merges like the empty object. */
  lemma NonObjectTarget(r: NameRewriter, target: Option<Json>, m: Fields, patch: Fields)
    requires m == if target.Some? && target.value.Obj? then target.value.fields else map[]
    requires LabelsField(r, Restoring)(Obj(m)) == Obj(RestoreFields(r, m))
    ensures forall p :: MergeField(target, Some(Obj(p))) == Some(Obj(Merged(m, p)))
    ensures MergeField(MapField(target, LabelsField(r, Restoring)), Some(Obj(patch))) == Some(Obj(Merged(RestoreFields(r, m), patch)))
  {
    if m == map[] { assert RestoreFields(r, m) == map[]; }
    forall p ensures MergeField(target, Some(Obj(p))) == Some(Obj(Merged(m, p))) {
      var t := match target case Some(t) => t case None => Null;
      assert MergePatch(t, Obj(p)).fields == MergePatch(Obj(m), Obj(p)).fields;
    }
    var seen := MapField(target, LabelsField(r, Restoring));
    var t := match seen case Some(t) => t case None => Null;
    assert MergePatch(t, Obj(patch)).fields == MergePatch(Obj(RestoreFields(r, m)), Obj(patch)).fields;
  }

  /** A field that a patch replaces as a whole: it is enough that restoring undoes renaming. */
  lemma ReplacedFieldCommutes(target: Option<Json>, patch: Option<Json>, f: Json -> Json, g: Json -> Json)
    requires patch.Some? ==> !patch.value.Obj? && !f(patch.value).Obj? && g(f(patch.value)) == patch.value
    requires patch.Some? ==> (f(patch.value).Null? <==> patch.value.Null?)
    ensures FieldCommutes(target, patch, f, g)
  {
  }

  /** Distinct fields commute together exactly when each commutes on its own. */
  lemma AllFieldsCommute(target: Json, patch: Json, names: seq<string>, fs: seq<Json -> Json>, gs: seq<Json -> Json>)
    requires target.Obj? && patch.Obj? && |names| == |fs| == |gs| && AllDistinct(names)
    ensures AtFields(MergePatch(target, AtFields(patch, names, fs)), names, gs) == MergePatch(AtFields(target, names, gs), patch)
            <==> forall i | 0 <= i < |names| :: FieldCommutes(Get(target, names[i]), Get(patch, names[i]), fs[i], gs[i])
  {
    var left := AtFields(MergePatch(target, AtFields(patch, names, fs)), names, gs);
    var right := MergePatch(AtFields(target, names, gs), patch);
    if left == right {
      forall i | 0 <= i < |names| ensures FieldCommutes(Get(target, names[i]), Get(patch, names[i]), fs[i], gs[i]) {
        OneFieldOfMany(target, patch, names, fs, gs, names[i]);
      }
    } else if forall i | 0 <= i < |names| :: FieldCommutes(Get(target, names[i]), Get(patch, names[i]), fs[i], gs[i]) {
      OneFieldOfMany(target, patch, names, fs, gs, "");
      forall k ensures Get(left, k) == Get(right, k) {
        OneFieldOfMany(target, patch, names, fs, gs, k);
        if k in names { var i :| 0 <= i < |names| && names[i] == k; }
      }
      SameFields(left, right);
    }
  }

  lemma OneFieldOfMany(target: Json, patch: Json, names: seq<string>, fs: seq<Json -> Json>, gs: seq<Json -> Json>, k: string)
    requires target.Obj? && patch.Obj? && |names| == |fs| == |gs| && AllDistinct(names)
    ensures var left := AtFields(MergePatch(target, AtFields(patch, names, fs)), names, gs);
            var right := MergePatch(AtFields(target, names, gs), patch);
            && left.Obj? && right.Obj?
            && (k !in names ==> Get(left, k) == Get(right, k))
            && (forall i | 0 <= i < |names| && names[i] == k ::
                  Get(left, k) == Get(right, k) <==> FieldCommutes(Get(target, names[i]), Get(patch, names[i]), fs[i], gs[i]))
  {
    var sent := AtFields(patch, names, fs);
    FieldAfter(patch, names, fs, k);
    FieldAfter(target, names, gs, k);
    MergeGet(target, sent, k);
    MergeGet(AtFields(target, names, gs), patch, k);
    FieldAfter(MergePatch(target, sent), names, gs, k);
  }

  ghost predicate PatchRules(rs: Rules) {
    && Coherent(rs.labels) && NamesFollow(rs.labels) && Coherent(rs.annotations) && NamesFollow(rs.annotations)
    && Coherent(rs.finalizers) && CoherentGroups(rs)
  }

  ghost predicate ServerMetadata(rs: Rules, m: Json) {
    ServerLabelsValue(rs.labels, Get(m, "labels")) && ServerLabelsValue(rs.annotations, Get(m, "annotations"))
  }

  ghost predicate PatchMetadata(rs: Rules, p: Json) {
    && PatchLabelsValue(rs.labels, Get(p, "labels")) && PatchLabelsValue(rs.annotations, Get(p, "annotations"))
    && (match Get(p, "finalizers") case Some(v) => ClientFinalizers(rs.finalizers, v) case None => true)
    && (match Get(p, "ownerReferences") case Some(v) => ClientOwners(rs, v) case None => true)
  }

  ghost predicate MetadataSettled(rs: Rules, m: Json, p: Json) {
    && LabelsSettled(rs.labels, Get(m, "labels"), Get(p, "labels"))
    && LabelsSettled(rs.annotations, Get(m, "annotations"), Get(p, "annotations"))
  }

  lemma FinalizersFieldCommutes(r: NameRewriter, target: Option<Json>, patch: Option<Json>)
    requires Coherent(r) && (patch.Some? ==> ClientFinalizers(r, patch.value))
    ensures FieldCommutes(target, patch, OverItems(FinalizerItem(r, Renaming)), OverItems(FinalizerItem(r, Restoring)))
  {
    if patch.Some? { FinalizersUndone(r, patch.value); }
    ReplacedFieldCommutes(target, patch, OverItems(FinalizerItem(r, Renaming)), OverItems(FinalizerItem(r, Restoring)));
  }

  lemma OwnersFieldCommutes(rs: Rules, target: Option<Json>, patch: Option<Json>)
    requires CoherentGroups(rs) && (patch.Some? ==> ClientOwners(rs, patch.value))
    ensures FieldCommutes(target, patch, OverItems(OwnerItem(rs, Renaming)), OverItems(OwnerItem(rs, Restoring)))
  {
    if patch.Some? { OwnersUndone(rs, patch.value); }
    ReplacedFieldCommutes(target, patch, OverItems(OwnerItem(rs, Renaming)), OverItems(OwnerItem(rs, Restoring)));
  }

  /** The rewriters of a patch's metadata, with the outcomes that one order of writes gives. */
  ghost function ChosenRewriters(rs: Rules, labels: Fields, annotations: Fields): seq<Json -> Json> {
    [ChosenField(labels), ChosenField(annotations), OverItems(FinalizerItem(rs.finalizers, Renaming)), OverItems(OwnerItem(rs, Renaming))]
  }

  /** Labels and annotations of the metadata, each commuting for these outcomes. */
  ghost predicate MapsCommute(rs: Rules, m: Json, p: Json, labels: Fields, annotations: Fields) {
    && FieldCommutes(Get(m, "labels"), Get(p, "labels"), ChosenField(labels), LabelsField(rs.labels, Restoring))
    && FieldCommutes(Get(m, "annotations"), Get(p, "annotations"), ChosenField(annotations), LabelsField(rs.annotations, Restoring))
  }

  ghost predicate ListsCommute(rs: Rules, m: Json, p: Json) {
    && FieldCommutes(Get(m, "finalizers"), Get(p, "finalizers"), OverItems(FinalizerItem(rs.finalizers, Renaming)), OverItems(FinalizerItem(rs.finalizers, Restoring)))
    && FieldCommutes(Get(m, "ownerReferences"), Get(p, "ownerReferences"), OverItems(OwnerItem(rs, Renaming)), OverItems(OwnerItem(rs, Restoring)))
  }

  lemma FourFieldsCommute(m: Json, p: Json, names: seq<string>, fs: seq<Json -> Json>, gs: seq<Json -> Json>)
    requires m.Obj? && p.Obj? && |names| == |fs| == |gs| == 4 && AllDistinct(names)
    ensures AtFields(MergePatch(m, AtFields(p, names, fs)), names, gs) == MergePatch(AtFields(m, names, gs), p) <==>
              && FieldCommutes(Get(m, names[0]), Get(p, names[0]), fs[0], gs[0])
              && FieldCommutes(Get(m, names[1]), Get(p, names[1]), fs[1], gs[1])
              && FieldCommutes(Get(m, names[2]), Get(p, names[2]), fs[2], gs[2])
              && FieldCommutes(Get(m, names[3]), Get(p, names[3]), fs[3], gs[3])
  {
    AllFieldsCommute(m, p, names, fs, gs);
    if AtFields(MergePatch(m, AtFields(p, names, fs)), names, gs) != MergePatch(AtFields(m, names, gs), p) {
      var i :| 0 <= i < 4 && !FieldCommutes(Get(m, names[i]), Get(p, names[i]), fs[i], gs[i]);
      assert i == 0 || i == 1 || i == 2 || i == 3;
    }
  }

  lemma MetadataFieldsCommute(rs: Rules, m: Json, p: Json, labels: Fields, annotations: Fields)
    requires m.Obj? && p.Obj?
    ensures |ChosenRewriters(rs, labels, annotations)| == |METADATA|
    ensures AtFields(MergePatch(m, AtFields(p, METADATA, ChosenRewriters(rs, labels, annotations))), METADATA, MetadataRewriters(rs, Restoring))
            == MergePatch(AtFields(m, METADATA, MetadataRewriters(rs, Restoring)), p)
            <==> MapsCommute(rs, m, p, labels, annotations) && ListsCommute(rs, m, p)
  {
    MetadataDistinct();
    ChosenRewritersAt(rs, labels, annotations);
    MetadataRewritersAt(rs, Restoring);
    FourFieldsCommute(m, p, METADATA, ChosenRewriters(rs, labels, annotations), MetadataRewriters(rs, Restoring));
  }

  lemma ChosenRewritersAt(rs: Rules, labels: Fields, annotations: Fields)
    ensures var fs := ChosenRewriters(rs, labels, annotations);
            && |fs| == 4 && fs[0] == ChosenField(labels) && fs[1] == ChosenField(annotations)
            && fs[2] == OverItems(FinalizerItem(rs.finalizers, Renaming)) && fs[3] == OverItems(OwnerItem(rs, Renaming))
  {
  }

  lemma MetadataRewritersAt(rs: Rules, action: Action)
    ensures var fs := MetadataRewriters(rs, action);
            && |fs| == 4 && fs[0] == LabelsField(rs.labels, action) && fs[1] == LabelsField(rs.annotations, action)
            && fs[2] == OverItems(FinalizerItem(rs.finalizers, action)) && fs[3] == OverItems(OwnerItem(rs, action))
  {
  }

  ghost predicate ServerDocument(rs: Rules, doc: Json) {
    doc.Obj? && (match Get(doc, "metadata") case Some(m) => m.Obj? ==> ServerMetadata(rs, m) case None => true)
  }

  ghost predicate ClientPatch(rs: Rules, patch: Json) {
    patch.Obj? && (match Get(patch, "metadata") case Some(p) => p.Obj? ==> PatchMetadata(rs, p) case None => true)
  }

  /** The labels and annotations of the patch are settled on those of the document. */
  ghost predicate DocumentSettled(rs: Rules, doc: Json, patch: Json) {
    match Get(patch, "metadata") case Some(p) => p.Obj? ==> MetadataSettled(rs, Met(Get(doc, "metadata")), p) case None => true
  }

  lemma ObjectFieldCommutes(target: Option<Json>, m: Json, p: Json, names: seq<string>, fs: seq<Json -> Json>, gs: seq<Json -> Json>)
    requires p.Obj? && m == if target.Some? && target.value.Obj? then target.value else Obj(map[])
    requires |names| == |fs| == |gs| && AllDistinct(names)
    ensures FieldCommutes(target, Some(p), OnObject(names, fs), OnObject(names, gs))
            <==> AtFields(MergePatch(m, AtFields(p, names, fs)), names, gs) == MergePatch(AtFields(m, names, gs), p)
  {
    FieldAfter(p, names, fs, "");
    var sent := AtFields(p, names, fs);
    EmptyTarget(target, m, sent);
    EmptyTarget(MapField(target, OnObject(names, gs)), AtFields(m, names, gs), p) by {
      FieldAfter(m, names, gs, "");
      EmptyStaysEmpty(names, gs);
    }
    MergeGet(m, sent, "");
  }

  ghost predicate IsMetadataChoice(rs: Rules, p: Json, labels: Fields, annotations: Fields) {
    IsChoice(rs.labels, Get(p, "labels"), labels) && IsChoice(rs.annotations, Get(p, "annotations"), annotations)
  }

  ghost predicate MapsAlwaysCommute(rs: Rules, m: Json, p: Json) {
    forall labels, annotations | IsMetadataChoice(rs, p, labels, annotations) :: MapsCommute(rs, m, p, labels, annotations)
  }

  lemma MapsCommuteApart(rs: Rules, m: Json, p: Json)
    ensures MapsAlwaysCommute(rs, m, p) <==>
              LabelsCommute(rs.labels, Get(m, "labels"), Get(p, "labels")) && LabelsCommute(rs.annotations, Get(m, "annotations"), Get(p, "annotations"))
  {
    var l := SomeChoice(rs.labels, Get(p, "labels"));
    var a := SomeChoice(rs.annotations, Get(p, "annotations"));
    if MapsAlwaysCommute(rs, m, p) {
      forall labels | IsChoice(rs.labels, Get(p, "labels"), labels)
        ensures FieldCommutes(Get(m, "labels"), Get(p, "labels"), ChosenField(labels), LabelsField(rs.labels, Restoring))
      {
        assert IsMetadataChoice(rs, p, labels, a);
        assert MapsCommute(rs, m, p, labels, a);
      }
      forall annotations | IsChoice(rs.annotations, Get(p, "annotations"), annotations)
        ensures FieldCommutes(Get(m, "annotations"), Get(p, "annotations"), ChosenField(annotations), LabelsField(rs.annotations, Restoring))
      {
        assert IsMetadataChoice(rs, p, l, annotations);
        assert MapsCommute(rs, m, p, l, annotations);
      }
    }
  }

  lemma MapsCommuteExactly(rs: Rules, m: Json, p: Json)
    requires Coherent(rs.labels) && NamesFollow(rs.labels) && Coherent(rs.annotations) && NamesFollow(rs.annotations)
    requires ServerMetadata(rs, m) && PatchMetadata(rs, p)
    ensures MapsAlwaysCommute(rs, m, p) <==> MetadataSettled(rs, m, p)
  {
    MapsCommuteApart(rs, m, p);
    LabelsFieldCommutes(rs.labels, Get(m, "labels"), Get(p, "labels"));
    LabelsFieldCommutes(rs.annotations, Get(m, "annotations"), Get(p, "annotations"));
  }

  lemma ListsAlwaysCommute(rs: Rules, m: Json, p: Json)
    requires Coherent(rs.finalizers) && CoherentGroups(rs) && PatchMetadata(rs, p)
    ensures ListsCommute(rs, m, p)
  {
    FinalizersFieldCommutes(rs.finalizers, Get(m, "finalizers"), Get(p, "finalizers"));
    OwnersFieldCommutes(rs, Get(m, "ownerReferences"), Get(p, "ownerReferences"));
  }

  /** The metadata object that a patch meets; what is not an object counts as an empty one. */
  function Met(target: Option<Json>): Json {
    if target.Some? && target.value.Obj? then target.value else Obj(map[])
  }

  /** The metadata of a patch as it is sent, for these outcomes. */
  ghost function SentMetadata(rs: Rules, labels: Fields, annotations: Fields): Json -> Json {
    OnObject(METADATA, ChosenRewriters(rs, labels, annotations))
  }

  lemma MetadataCommutes(rs: Rules, target: Option<Json>, p: Json, labels: Fields, annotations: Fields)
    requires p.Obj? && ListsCommute(rs, Met(target), p)
    ensures FieldCommutes(target, Some(p), SentMetadata(rs, labels, annotations), RewriteMetadata(rs, Restoring))
            <==> MapsCommute(rs, Met(target), p, labels, annotations)
  {
    MetadataFieldsCommute(rs, Met(target), p, labels, annotations);
    MetadataDistinct();
    ObjectFieldCommutes(target, Met(target), p, METADATA, ChosenRewriters(rs, labels, annotations), MetadataRewriters(rs, Restoring));
  }

  lemma MetadataNotAnObject(rs: Rules, target: Option<Json>, patch: Option<Json>, labels: Fields, annotations: Fields)
    requires !(patch.Some? && patch.value.Obj?)
    ensures FieldCommutes(target, patch, SentMetadata(rs, labels, annotations), RewriteMetadata(rs, Restoring))
  {
    NonObjectCommutes(target, patch, METADATA, ChosenRewriters(rs, labels, annotations), MetadataRewriters(rs, Restoring));
  }

  lemma NonObjectCommutes(target: Option<Json>, patch: Option<Json>, names: seq<string>, fs: seq<Json -> Json>, gs: seq<Json -> Json>)
    requires |names| == |fs| == |gs| && !(patch.Some? && patch.value.Obj?)
    ensures FieldCommutes(target, patch, OnObject(names, fs), OnObject(names, gs))
  {
  }

  lemma {:induction false} EmptyStaysEmpty(names: seq<string>, fs: seq<Json -> Json>)
    requires |names| == |fs|
    ensures AtFields(Obj(map[]), names, fs) == Obj(map[])
    decreases |names|
  {
    if names != [] { EmptyStaysEmpty(names[1..], fs[1..]); }
  }

  lemma EmptyTarget(target: Option<Json>, m: Json, p: Json)
    requires p.Obj? && m == if target.Some? && target.value.Obj? then target.value else Obj(map[])
    ensures MergeField(target, Some(p)) == Some(MergePatch(m, p))
  {
    var t := match target case Some(t) => t case None => Null;
    assert MergePatch(t, p).fields == MergePatch(m, p).fields;
  }

  /** The renamed patch, for these outcomes. */
  ghost function SentPatch(rs: Rules, patch: Json, labels: Fields, annotations: Fields): Json {
    AtField(patch, "metadata", SentMetadata(rs, labels, annotations))
  }

  /** Outcomes that some order of writes gives. */
  ghost predicate PatchChoice(rs: Rules, patch: Json, labels: Fields, annotations: Fields) {
    match Get(patch, "metadata") case Some(p) => p.Obj? ==> IsMetadataChoice(rs, p, labels, annotations) case None => true
  }

  /** The renamed patch, applied by the server, reads as the client's own patch on what it saw. */
  ghost predicate PatchReadsAlike(rs: Rules, doc: Json, patch: Json, labels: Fields, annotations: Fields) {
    OneMetadata(rs, Restoring)(MergePatch(doc, SentPatch(rs, patch, labels, annotations))) == MergePatch(OneMetadata(rs, Restoring)(doc), patch)
  }

  ghost predicate DocumentListsCommute(rs: Rules, doc: Json, patch: Json) {
    match Get(patch, "metadata") case Some(p) => p.Obj? ==> ListsCommute(rs, Met(Get(doc, "metadata")), p) case None => true
  }

  ghost predicate DocumentMapsCommute(rs: Rules, doc: Json, patch: Json, labels: Fields, annotations: Fields) {
    match Get(patch, "metadata") case Some(p) => p.Obj? ==> MapsCommute(rs, Met(Get(doc, "metadata")), p, labels, annotations) case None => true
  }

  lemma DocumentCommutes(rs: Rules, doc: Json, patch: Json, labels: Fields, annotations: Fields)
    requires doc.Obj? && patch.Obj? && DocumentListsCommute(rs, doc, patch)
    ensures PatchReadsAlike(rs, doc, patch, labels, annotations) <==> DocumentMapsCommute(rs, doc, patch, labels, annotations)
  {
    var target, p := Get(doc, "metadata"), Get(patch, "metadata");
    if p.Some? && p.value.Obj? {
      MetadataCommutes(rs, target, p.value, labels, annotations);
    } else {
      MetadataNotAnObject(rs, target, p, labels, annotations);
    }
    OneFieldCommutes(doc, patch, "metadata", SentMetadata(rs, labels, annotations), RewriteMetadata(rs, Restoring));
  }

  /** What OneMetadata sends is one of the possible outcomes. */
  lemma PatchIsSent(rs: Rules, patch: Json)
    ensures exists labels, annotations ::
              PatchChoice(rs, patch, labels, annotations) && SentPatch(rs, patch, labels, annotations) == OneMetadata(rs, Renaming)(patch)
  {
    var p := Get(patch, "metadata");
    if p.Some? && p.value.Obj? {
      var labels, annotations := RenamedFields(rs.labels, Get(p.value, "labels")), RenamedFields(rs.annotations, Get(p.value, "annotations"));
      MetadataIsSent(rs, p.value, labels, annotations);
      assert PatchChoice(rs, patch, labels, annotations);
      assert SentPatch(rs, patch, labels, annotations) == OneMetadata(rs, Renaming)(patch);
    } else {
      assert PatchChoice(rs, patch, map[], map[]);
      assert SentPatch(rs, patch, map[], map[]) == OneMetadata(rs, Renaming)(patch);
    }
  }

  ghost function RenamedFields(r: NameRewriter, v: Option<Json>): Fields {
    if v.Some? && v.value.Obj? then RenameFields(r, v.value.fields) else map[]
  }

  lemma MetadataIsSent(rs: Rules, p: Json, labels: Fields, annotations: Fields)
    requires p.Obj? && labels == RenamedFields(rs.labels, Get(p, "labels")) && annotations == RenamedFields(rs.annotations, Get(p, "annotations"))
    ensures IsMetadataChoice(rs, p, labels, annotations)
    ensures SentMetadata(rs, labels, annotations)(p) == RewriteMetadata(rs, Renaming)(p)
  {
    MetadataDistinct();
    ChosenRewritersAt(rs, labels, annotations);
    MetadataRewritersAt(rs, Renaming);
    FieldIsSent(rs.labels, Get(p, "labels"));
    FieldIsSent(rs.annotations, Get(p, "annotations"));
    SameFourFields(p, METADATA, ChosenRewriters(rs, labels, annotations), MetadataRewriters(rs, Renaming));
  }

  lemma FieldIsSent(r: NameRewriter, v: Option<Json>)
    ensures IsChoice(r, v, RenamedFields(r, v))
    ensures MapField(v, ChosenField(RenamedFields(r, v))) == MapField(v, LabelsField(r, Renaming))
  {
  }

  lemma SameFourFields(p: Json, names: seq<string>, fs: seq<Json -> Json>, gs: seq<Json -> Json>)
    requires p.Obj? && |names| == |fs| == |gs| == 4 && AllDistinct(names) && fs[2] == gs[2] && fs[3] == gs[3]
    requires MapField(Get(p, names[0]), fs[0]) == MapField(Get(p, names[0]), gs[0])
    requires MapField(Get(p, names[1]), fs[1]) == MapField(Get(p, names[1]), gs[1])
    ensures AtFields(p, names, fs) == AtFields(p, names, gs)
  {
    FieldAfter(p, names, fs, "");
    FieldAfter(p, names, gs, "");
    forall k ensures Get(AtFields(p, names, fs), k) == Get(AtFields(p, names, gs), k) {
      FieldAfter(p, names, fs, k);
      FieldAfter(p, names, gs, k);
      if k in names {
        var i :| 0 <= i < 4 && names[i] == k;
        assert i == 0 || i == 1 || i == 2 || i == 3;
      }
    }
    SameFields(AtFields(p, names, fs), AtFields(p, names, gs));
  }

  ghost predicate AlwaysReadsAlike(rs: Rules, doc: Json, patch: Json) {
    forall labels, annotations | PatchChoice(rs, patch, labels, annotations) :: PatchReadsAlike(rs, doc, patch, labels, annotations)
  }

  /**
    A client's merge patch, renamed by RenameMetadataPatch in whatever order its maps are written,
    and applied by the server: the client then reads what applying its own patch to what it saw
    would give, in the whole document, every label, annotation, finalizer and owner reference,
    exactly when its labels and annotations are settled.
   */
  lemma MergePatchCommutes(rs: Rules, doc: Json, patch: Json)
    requires PatchRules(rs) && ServerDocument(rs, doc) && ClientPatch(rs, patch)
    ensures AlwaysReadsAlike(rs, doc, patch) <==> DocumentSettled(rs, doc, patch)
  {
    DocumentMapsExactly(rs, doc, patch);
    ReadsAlikeIsMaps(rs, doc, patch);
  }

  ghost predicate DocumentMapsAlwaysCommute(rs: Rules, doc: Json, patch: Json) {
    forall labels, annotations | PatchChoice(rs, patch, labels, annotations) :: DocumentMapsCommute(rs, doc, patch, labels, annotations)
  }

  lemma ReadsAlikeIsMaps(rs: Rules, doc: Json, patch: Json)
    requires doc.Obj? && patch.Obj? && DocumentListsCommute(rs, doc, patch)
    ensures AlwaysReadsAlike(rs, doc, patch) <==> DocumentMapsAlwaysCommute(rs, doc, patch)
  {
    forall labels, annotations
      ensures PatchReadsAlike(rs, doc, patch, labels, annotations) <==> DocumentMapsCommute(rs, doc, patch, labels, annotations)
    {
      DocumentCommutes(rs, doc, patch, labels, annotations);
    }
  }

  lemma DocumentMapsExactly(rs: Rules, doc: Json, patch: Json)
    requires PatchRules(rs) && ServerDocument(rs, doc) && ClientPatch(rs, patch)
    ensures DocumentMapsAlwaysCommute(rs, doc, patch) <==> DocumentSettled(rs, doc, patch)
    ensures DocumentListsCommute(rs, doc, patch)
  {
    var p := Get(patch, "metadata");
    if p.Some? && p.value.Obj? {
      var m := Met(Get(doc, "metadata"));
      ListsAlwaysCommute(rs, m, p.value);
      assert ServerMetadata(rs, m) by { EmptyIsServer(rs, Get(doc, "metadata")); }
      MapsCommuteExactly(rs, m, p.value);
      MapsOfDocument(rs, doc, patch, p.value);
    }
  }

  lemma MapsOfDocument(rs: Rules, doc: Json, patch: Json, p: Json)
    requires Get(patch, "metadata") == Some(p) && p.Obj?
    ensures DocumentMapsAlwaysCommute(rs, doc, patch) <==> MapsAlwaysCommute(rs, Met(Get(doc, "metadata")), p)
  {
    forall labels, annotations
      ensures PatchChoice(rs, patch, labels, annotations) <==> IsMetadataChoice(rs, p, labels, annotations)
      ensures DocumentMapsCommute(rs, doc, patch, labels, annotations) <==> MapsCommute(rs, Met(Get(doc, "metadata")), p, labels, annotations)
    {
    }
  }

  lemma EmptyIsServer(rs: Rules, target: Option<Json>)
    requires target.Some? && target.value.Obj? ==> ServerMetadata(rs, target.value)
    ensures ServerMetadata(rs, Met(target))
  {
  }

  lemma OneFieldCommutes(doc: Json, patch: Json, field: string, f: Json -> Json, g: Json -> Json)
    requires doc.Obj? && patch.Obj?
    ensures AtField(MergePatch(doc, AtField(patch, field, f)), field, g) == MergePatch(AtField(doc, field, g), patch)
            <==> FieldCommutes(Get(doc, field), Get(patch, field), f, g)
  {
    AllFieldsCommute(doc, patch, [field], [f], [g]);
    AtFieldsOne(patch, field, f);
    AtFieldsOne(doc, field, g);
    AtFieldsOne(MergePatch(doc, AtField(patch, field, f)), field, g);
    assert FieldCommutes(Get(doc, [field][0]), Get(patch, [field][0]), [f][0], [g][0]) <==> FieldCommutes(Get(doc, field), Get(patch, field), f, g);
  }

  lemma AtFieldsOne(j: Json, field: string, f: Json -> Json)
    ensures AtFields(j, [field], [f]) == AtField(j, field, f)
  {
    assert [field][1..] == [] && [f][1..] == [];
    assert AtFields(AtField(j, field, f), [], []) == AtField(j, field, f);
  }
}
