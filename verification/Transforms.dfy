/** Rewriting parts of a JSON object: strings, string maps, string arrays, nested objects, arrays of objects. */
module Transforms {
  import opened Text
  import opened NameRewriting
  import opened RoundTrips
  import opened LabelMaps
  import opened Json
  import opened Arrays

  datatype Action = Renaming | Restoring

  function Rewrite(r: NameRewriter, action: Action, name: string, value: string): (string, string) {
    match action
    case Renaming => Rename(r, name, value)
    case Restoring => Restore(r, name, value)
  }

  /** A field that is absent stays absent; one that is there is replaced in place. */
  ghost function AtField(j: Json, field: string, f: Json -> Json): Json {
    match Get(j, field) case Some(v) => Set(j, field, f(v)) case None => j
  }

  ghost function TransformString(j: Json, field: string, f: string -> string): Json {
    AtField(j, field, v => Str(f(AsText(v))))
  }

  lemma TransformStringAt(j: Json, field: string, text: string, f: string -> string)
    requires Get(j, field) == Some(Str(text))
    ensures TransformString(j, field, f) == Set(j, field, Str(f(text)))
  {
    assert AsText(Str(text)) == text;
  }

  /** RewriteArray on a field; None when the transformer aborted. */
  ghost function RewriteArray(j: Json, field: string, f: Json -> Outcome<Json>): Option<Json> {
    var items := ItemsAt(j, field);
    if items == [] then Some(j)
    else match FilterMap(items, f)
      case Some(out) => Some(Set(j, field, Arr(out)))
      case None => None
  }

  function MapSeq(items: seq<Json>, f: Json -> Json): seq<Json> {
    seq(|items|, i requires 0 <= i < |items| => f(items[i]))
  }

  /** An array value: null and the empty array stay, a lone value counts as one element. */
  function OverItems(f: Json -> Json): Json -> Json {
    (v: Json) =>
      if v.Null? || v == Arr([]) then v
      else if v.Arr? then Arr(MapSeq(v.items, f))
      else Arr([f(v)])
  }

  /** An array rewrite whose transformer always returns a body. */
  ghost function MapArray(j: Json, field: string, f: Json -> Json): Json {
    AtField(j, field, OverItems(f))
  }

  function Always(f: Json -> Json): Json -> Outcome<Json> {
    x => Replace(f(x))
  }

  lemma MapArrayIsRewriteArray(j: Json, field: string, f: Json -> Json)
    ensures RewriteArray(j, field, Always(f)) == Some(MapArray(j, field, f))
    ensures ItemsAt(MapArray(j, field, f), field) == MapSeq(ItemsAt(j, field), f)
  {
    var v := Get(j, field);
    if v.Some? {
      assert Set(j, field, v.value) == j;
      assert !v.value.Null? && !v.value.Arr? ==> MapSeq([v.value], f) == [f(v.value)];
    }
    FilterMapOfReplace(ItemsAt(j, field), f);
  }

  lemma {:induction false} FilterMapOfReplace(items: seq<Json>, f: Json -> Json)
    ensures FilterMap(items, Always(f)) == Some(MapSeq(items, f))
  {
    if items != [] {
      FilterMapOfReplace(items[1..], f);
      assert Always(f)(items[0]) == Replace(f(items[0]));
      assert FilterMap(items, Always(f)).value == [f(items[0])] + FilterMap(items[1..], Always(f)).value;
      assert MapSeq(items, f) == [f(items[0])] + MapSeq(items[1..], f);
    } else {
      assert MapSeq(items, f) == [];
    }
  }

  /**
    The entry rewriter of RewriteMapStringString: null is handed over as the empty string, and an
    empty answer for null is null again.
   */
  ghost function JsonEntry(f: Entry<string>): Entry<Json> {
    (k: string, v: Json) =>
      var kv := f(k, AsText(v));
      (kv.0, if v.Null? && kv.1 == "" then Null else Str(kv.1))
  }

  /** RewriteMapStringString on the value of a field. Only a non-empty object is touched. */
  ghost function RewriteStringMap(v: Json, f: Entry<string>): Json {
    if v.Obj? && v.fields != map[] then Obj(Image(v.fields, JsonEntry(f))) else v
  }

  function Rewriter(r: NameRewriter, action: Action): Entry<string> {
    (k, v) => Rewrite(r, action, k, v)
  }

  // ---------------------------------------------------------------- string maps held as JSON

  /** Label and annotation values are strings; null is what a merge patch puts there to delete one. */
  predicate StringOrNull(v: Json) {
    v.Str? || v.Null?
  }

  ghost predicate ServerFields(r: NameRewriter, m: Fields) {
    forall k | k in m :: StringOrNull(m[k]) && '=' !in k && ServerDomain(r, k, AsText(m[k]))
  }

  ghost predicate ClientFields(r: NameRewriter, m: Fields) {
    forall k | k in m :: StringOrNull(m[k]) && '=' !in k && ClientDomain(r, k, AsText(m[k]))
  }

  ghost function RenameFields(r: NameRewriter, m: Fields): Fields {
    Image(m, JsonEntry(Rewriter(r, Renaming)))
  }

  ghost function RestoreFields(r: NameRewriter, m: Fields): Fields {
    Image(m, JsonEntry(Rewriter(r, Restoring)))
  }

  lemma RenameFieldsDistinct(r: NameRewriter, m: Fields)
    requires Coherent(r) && NamesFollow(r) && ClientFields(r, m)
    ensures KeyInjective(m, JsonEntry(Rewriter(r, Renaming))) <==> !Twins(r, m.Keys)
  {
    if Twins(r, m.Keys) {
      TwinFieldsMeet(r, m);
    } else {
      var f := JsonEntry(Rewriter(r, Renaming));
      forall j, k | j in m && k in m && NewKey(m, f, j) == NewKey(m, f, k) ensures j == k {
        if j != k { OnlyTwinsMeet(r, j, AsText(m[j]), k, AsText(m[k])); }
      }
    }
  }

  lemma TwinFieldsMeet(r: NameRewriter, m: Fields)
    requires NamesFollow(r) && Twins(r, m.Keys) && forall k | k in m :: '=' !in k
    ensures !KeyInjective(m, JsonEntry(Rewriter(r, Renaming)))
  {
    var a, b :| a in m.Keys && b in m.Keys && AreTwins(r, a, b);
    TwinsMeet(r, a, AsText(m[a]), AsText(m[b]));
    var f := JsonEntry(Rewriter(r, Renaming));
    assert NewKey(m, f, a) == NewKey(m, f, b) && a != b;
  }

  lemma RestoreFieldsDistinct(r: NameRewriter, m: Fields)
    requires Coherent(r) && NamesFollow(r) && ServerFields(r, m)
    ensures KeyInjective(m, JsonEntry(Rewriter(r, Restoring)))
  {
    var f := JsonEntry(Rewriter(r, Restoring));
    forall j, k | j in m && k in m && NewKey(m, f, j) == NewKey(m, f, k) ensures j == k {
      RestoredNameLeadsBack(r, j, AsText(m[j]));
      RestoredNameLeadsBack(r, k, AsText(m[k]));
    }
  }

  lemma EmptyValueStays(r: NameRewriter, name: string)
    ensures Rename(r, name, "").1 == "" && Restore(r, name, "").1 == ""
  {
  }

  lemma EntryUndone(f: Entry<string>, g: Entry<string>, k: string, v: Json)
    requires StringOrNull(v) && g(f(k, AsText(v)).0, f(k, AsText(v)).1) == (k, AsText(v))
    requires v.Null? ==> f(k, "").1 == ""
    ensures JsonEntry(g)(JsonEntry(f)(k, v).0, JsonEntry(f)(k, v).1) == (k, v)
  {
    var (k', text) := f(k, AsText(v));
    var v' := if v.Null? then Null else Str(text);
    assert AsText(v') == text;
    assert JsonEntry(f)(k, v) == (k', v');
    assert g(k', text) == (k, AsText(v));
  }

  lemma ClientFieldsUndone(r: NameRewriter, m: Fields)
    requires Coherent(r) && ClientFields(r, m)
    ensures Undoes(m, JsonEntry(Rewriter(r, Renaming)), JsonEntry(Rewriter(r, Restoring)))
  {
    var f, g := JsonEntry(Rewriter(r, Renaming)), JsonEntry(Rewriter(r, Restoring));
    forall k | k in m ensures g(NewKey(m, f, k), NewValue(m, f, k)) == (k, m[k]) {
      ClientRoundTrip(r, k, AsText(m[k]));
      EmptyValueStays(r, k);
      EntryUndone(Rewriter(r, Renaming), Rewriter(r, Restoring), k, m[k]);
    }
  }

  lemma ServerFieldsUndone(r: NameRewriter, m: Fields)
    requires Coherent(r) && ServerFields(r, m)
    ensures Undoes(m, JsonEntry(Rewriter(r, Restoring)), JsonEntry(Rewriter(r, Renaming)))
  {
    var f, g := JsonEntry(Rewriter(r, Restoring)), JsonEntry(Rewriter(r, Renaming));
    forall k | k in m ensures g(NewKey(m, f, k), NewValue(m, f, k)) == (k, m[k]) {
      ServerRoundTrip(r, k, AsText(m[k]));
      EmptyValueStays(r, k);
      EntryUndone(Rewriter(r, Restoring), Rewriter(r, Renaming), k, m[k]);
    }
  }

  /** Any rewriting of fields and any that undoes it. */
  lemma FieldsThereAndBack(m: Fields, f: Entry<Json>, g: Entry<Json>)
    requires Undoes(m, f, g)
    ensures Image(Image(m, f), g) == m <==> KeyInjective(m, f)
    ensures KeyInjective(m, f) ==> |Image(m, f)| == |m|
  {
    var out := Image(m, f);
    if KeyInjective(m, f) {
      ImageUndone(m, f, g, out);
      ImageIsUnique(out, g, Image(out, g), m);
      ImageSize(m, f, out);
    } else if Image(out, g) == m {
      UndoneMeansApart(m, f, g, out);
    }
  }

  lemma ClientFieldsRoundTrip(r: NameRewriter, m: Fields)
    requires Coherent(r) && NamesFollow(r) && ClientFields(r, m)
    ensures RestoreFields(r, RenameFields(r, m)) == m <==> !Twins(r, m.Keys)
    ensures !Twins(r, m.Keys) ==> |RenameFields(r, m)| == |m|
  {
    RenameFieldsDistinct(r, m);
    ClientFieldsUndone(r, m);
    FieldsThereAndBack(m, JsonEntry(Rewriter(r, Renaming)), JsonEntry(Rewriter(r, Restoring)));
  }

  lemma ServerFieldsRoundTrip(r: NameRewriter, m: Fields)
    requires Coherent(r) && NamesFollow(r) && ServerFields(r, m)
    ensures RenameFields(r, RestoreFields(r, m)) == m && |RestoreFields(r, m)| == |m|
  {
    RestoreFieldsDistinct(r, m);
    ServerFieldsUndone(r, m);
    FieldsThereAndBack(m, JsonEntry(Rewriter(r, Restoring)), JsonEntry(Rewriter(r, Renaming)));
  }

  /**
    RewriteMapStringString, renamed and restored, whatever the field holds besides client labels:
    the same value, exactly when no name that stays is there together with its preserved form.
   */
  lemma StringMapRoundTrip(r: NameRewriter, v: Json)
    requires Coherent(r) && NamesFollow(r) && (v.Obj? ==> ClientFields(r, v.fields))
    ensures RewriteStringMap(RewriteStringMap(v, Rewriter(r, Renaming)), Rewriter(r, Restoring)) == v
            <==> (v.Obj? ==> !Twins(r, v.fields.Keys))
  {
    if v.Obj? && v.fields != map[] {
      ClientFieldsRoundTrip(r, v.fields);
      NonEmptyRewrite(v, Rewriter(r, Renaming), Rewriter(r, Restoring));
    }
  }

  lemma NonEmptyRewrite(v: Json, f: Entry<string>, g: Entry<string>)
    requires v.Obj? && v.fields != map[]
    ensures RewriteStringMap(RewriteStringMap(v, f), g) == Obj(Image(Image(v.fields, JsonEntry(f)), JsonEntry(g)))
  {
    var k :| k in v.fields;
    assert NewKey(v.fields, JsonEntry(f), k) in Image(v.fields, JsonEntry(f));
  }
}
