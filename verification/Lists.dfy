/** Rewriting a list is rewriting its items one by one and dropping those that are skipped. */
module Lists {
  import opened Text
  import opened Rules
  import opened Json
  import opened Arrays
  import opened Transforms
  import opened Excludes
  import opened Crd
  import opened Payload
  import opened Transparency

  ghost function PayloadItem(rs: Rules, fo: Foreign, action: Action): Json -> Outcome<Json> {
    item => RewriteJSONPayload(rs, fo, item, action)
  }

  /** What the exclusion pass leaves, as a transformer; nothing is excluded on the way to the server. */
  ghost function Pass(rs: Rules, kind: string, action: Action): Json -> Outcome<Json> {
    item => if action.Restoring? && ShouldExclude(rs.excludes, item, kind) then Skip else Keep
  }

  /** The list object with new items; an object without items has none to replace. */
  ghost function WithItems(obj: Json, before: seq<Json>, after: seq<Json>): Json {
    if before == [] then obj else Set(obj, "items", Arr(after))
  }

  lemma {:induction false} ThreePasses(items: seq<Json>, pass: Json -> Outcome<Json>, b: Json -> Json, m: Json -> Json,
                                      one: Json -> Outcome<Json>)
    requires forall x | x in items :: pass(x).Keep? || pass(x).Skip?
    requires forall x | x in items :: one(x) == if pass(x).Skip? then Skip else Replace(m(b(x)))
    ensures FilterMap(items, pass).Some?
    ensures FilterMap(items, one) == Some(MapSeq(MapSeq(FilterMap(items, pass).value, b), m))
    decreases |items|
  {
    if items == [] {
      assert MapSeq(MapSeq([], b), m) == [];
    } else {
      var x := items[0];
      assert x in items;
      ThreePasses(items[1..], pass, b, m, one);
      var rest := FilterMap(items[1..], pass).value;
      assert MapSeq([x] + rest, b) == [b(x)] + MapSeq(rest, b);
      assert MapSeq([b(x)] + MapSeq(rest, b), m) == [m(b(x))] + MapSeq(MapSeq(rest, b), m);
    }
  }

  lemma MapArrayItems(obj: Json, items: seq<Json>, f: Json -> Json)
    ensures MapArray(Set(obj, "items", Arr(items)), "items", f) == Set(obj, "items", Arr(MapSeq(items, f)))
  {
    var j := Set(obj, "items", Arr(items));
    assert items == [] ==> MapSeq(items, f) == [];
    assert j.fields["items" := Arr(MapSeq(items, f))] == Set(obj, "items", Arr(MapSeq(items, f))).fields;
  }

  /** MapArray in terms of ItemsAt. */
  lemma MapArrayShape(obj: Json, f: Json -> Json)
    ensures MapArray(obj, "items", f) == WithItems(obj, ItemsAt(obj, "items"), MapSeq(ItemsAt(obj, "items"), f))
  {
    MapArrayIsRewriteArray(obj, "items", f);
    FilterMapOfReplace(ItemsAt(obj, "items"), f);
  }

  lemma WithItemsFacts(obj: Json, after: seq<Json>)
    ensures ItemsAt(WithItems(obj, ItemsAt(obj, "items"), after), "items") == if ItemsAt(obj, "items") == [] then [] else after
    ensures TextAt(WithItems(obj, ItemsAt(obj, "items"), after), "kind") == TextAt(obj, "kind")
  {
  }

  /** Two more passes over a list object that the exclusion pass has left. */
  lemma TwoMorePasses(obj: Json, b: Json -> Json, m: Json -> Json)
    ensures MapArray(MapArray(obj, "items", b), "items", m)
            == WithItems(obj, ItemsAt(obj, "items"), MapSeq(MapSeq(ItemsAt(obj, "items"), b), m))
  {
    var items := ItemsAt(obj, "items");
    MapArrayShape(obj, b);
    if items == [] {
      MapArrayShape(obj, m);
    } else {
      MapArrayItems(obj, MapSeq(items, b), m);
    }
  }

  /** passed is obj, but possibly with other items. */
  ghost predicate SameButItems(obj: Json, passed: Json) {
    && obj.Obj? && passed.Obj?
    && Get(passed, "apiVersion") == Get(obj, "apiVersion") && Get(passed, "kind") == Get(obj, "kind")
    && (ItemsAt(obj, "items") == [] ==> passed == obj)
    && (ItemsAt(obj, "items") != [] && ItemsAt(passed, "items") == [] ==> passed == Set(obj, "items", Arr([])))
    && (forall out :: ItemsAt(obj, "items") != [] ==> Set(passed, "items", Arr(out)) == Set(obj, "items", Arr(out)))
  }

  lemma OnlyItemsSet(obj: Json, items: seq<Json>)
    requires obj.Obj? && ItemsAt(obj, "items") != []
    ensures SameButItems(obj, Set(obj, "items", Arr(items)))
  {
    var passed := Set(obj, "items", Arr(items));
    forall out ensures Set(passed, "items", Arr(out)) == Set(obj, "items", Arr(out)) {
      assert Set(passed, "items", Arr(out)).fields == Set(obj, "items", Arr(out)).fields;
    }
  }

  /** The exclusion pass on a list: the object it passes on, and the items in it. */
  lemma FilteredShape(rs: Rules, obj: Json, action: Action, single: string)
    requires TextAt(obj, "kind") == single + LIST && Excludable(single + LIST)
    requires action.Restoring? ==> !ShouldExclude(rs.excludes, obj, single + LIST)
    ensures var passed := FilterExcludes(rs, obj, action);
            && passed.Replace? && TextAt(passed.body, "kind") == single + LIST
            && FilterMap(ItemsAt(obj, "items"), Pass(rs, single, action)) == Some(ItemsAt(passed.body, "items"))
            && SameButItems(obj, passed.body)
  {
    var items := ItemsAt(obj, "items");
    SuffixOfConcat(single, LIST);
    if action.Restoring? {
      KeepOrSkipFilters(items, ExcludeItem(rs, single));
      FilterMapCongruent(items, Pass(rs, single, action), ExcludeItem(rs, single));
      if items != [] { OnlyItemsSet(obj, FilterMap(items, ExcludeItem(rs, single)).value); }
    } else {
      AllKept(items, Pass(rs, single, action));
    }
  }

  lemma {:induction false} AllKept(items: seq<Json>, f: Json -> Outcome<Json>)
    requires forall x | x in items :: f(x).Keep?
    ensures FilterMap(items, f) == Some(items)
  {
    if items != [] {
      AllKept(items[1..], f);
      assert items == [items[0]] + items[1..];
    }
  }

  /** The steps of RewriteJSONPayload, once each is known. */
  lemma PayloadSteps(rs: Rules, fo: Foreign, obj: Json, action: Action, kind: string, passed: Json, body: Json)
    requires TextAt(obj, "kind") == kind && FilterExcludes(rs, obj, action) == Replace(passed)
    requires Dispatch(rs, fo, kind, passed, action) == Replace(body)
    ensures RewriteJSONPayload(rs, fo, obj, action) == Replace(FinishMetadata(rs, body, action))
  {
  }

  /** A single object that is excluded is skipped; any other is dispatched as it is. */
  lemma SinglePayload(rs: Rules, fo: Foreign, item: Json, action: Action, single: string, body: Json)
    requires TextAt(item, "kind") == single && Excludable(single) && !HasSuffix(single, LIST)
    requires Dispatch(rs, fo, single, item, action) == Replace(body) && !HasSuffix(TextAt(body, "kind"), LIST)
    ensures RewriteJSONPayload(rs, fo, item, action)
            == if Pass(rs, single, action)(item).Skip? then Skip else Replace(OneMetadata(rs, action)(body))
  {
    if !Pass(rs, single, action)(item).Skip? {
      PayloadSteps(rs, fo, item, action, single, item, body);
    }
  }

  // ---------------------------------------------------------------- built-in kinds

  /** A built-in kind whose list form the dispatcher recognises, and whose rewriter leaves the kind alone. */
  predicate ListedKind(fo: Foreign, single: string) {
    && single in fo.builtIn && fo.builtIn[single] != "kind" && single + LIST !in fo.builtIn
    && Excludable(single) && Excludable(single + LIST) && !HasSuffix(single, LIST)
    && single != CRD_KIND && single != MONITOR_KIND
  }

  lemma BuiltInLetters(single: string)
    requires single in BUILT_IN
    ensures |single| >= 3 && single[0] != 'A' && single[|single| - 2] != 's'
    ensures |BUILT_IN[single]| > 0 && BUILT_IN[single][0] != 'k'
    ensures single != CRD_KIND && single != MONITOR_KIND
  {
  }

  /** The kinds of the source are all of this form. */
  lemma BuiltInKindsAreListed(fo: Foreign, single: string)
    requires fo.builtIn == BUILT_IN && single in BUILT_IN
    ensures ListedKind(fo, single)
  {
    BuiltInLetters(single);
    var listed := single + LIST;
    assert listed[0] == single[0] && listed[|listed| - 2] == 's';
    if listed in BUILT_IN { BuiltInLetters(listed); assert false; }
    if |single| >= 4 { assert single[|single| - 4..][2] == single[|single| - 2]; }
  }

  lemma ListKindsDiffer(single: string, other: string)
    requires single != other
    ensures single + LIST != other + LIST
  {
    SuffixOfConcat(single, LIST);
    SuffixOfConcat(other, LIST);
  }

  lemma BuiltInItem(rs: Rules, fo: Foreign, single: string, item: Json, action: Action)
    requires ListedKind(fo, single) && TextAt(item, "kind") == single
    ensures RewriteJSONPayload(rs, fo, item, action)
            == if Pass(rs, single, action)(item).Skip? then Skip
               else Replace(OneMetadata(rs, action)(RewriteBuiltIn(fo, single, action)(item)))
  {
    SuffixOfConcat(CRD_KIND, LIST);
    SuffixOfConcat(MONITOR_KIND, LIST);
    var body := RewriteBuiltIn(fo, single, action)(item);
    assert TextAt(body, "kind") == single;
    SinglePayload(rs, fo, item, action, single, body);
  }

  lemma BuiltInItems(rs: Rules, fo: Foreign, items: seq<Json>, single: string, action: Action)
    requires ListedKind(fo, single) && forall x | x in items :: TextAt(x, "kind") == single
    ensures FilterMap(items, Pass(rs, single, action)).Some?
    ensures FilterMap(items, PayloadItem(rs, fo, action))
            == Some(MapSeq(MapSeq(FilterMap(items, Pass(rs, single, action)).value, RewriteBuiltIn(fo, single, action)), OneMetadata(rs, action)))
  {
    var b, m := RewriteBuiltIn(fo, single, action), OneMetadata(rs, action);
    forall x | x in items
      ensures PayloadItem(rs, fo, action)(x) == if Pass(rs, single, action)(x).Skip? then Skip else Replace(m(b(x)))
    {
      BuiltInItem(rs, fo, single, x, action);
    }
    ThreePasses(items, Pass(rs, single, action), b, m, PayloadItem(rs, fo, action));
  }

  /**
    A list of a built-in kind, its items carrying their kind: the result holds exactly what
    rewriting each item alone gives, in order, without the skipped ones.
   */
  lemma BuiltInListIsPointwise(rs: Rules, fo: Foreign, obj: Json, single: string, action: Action)
    requires ListedKind(fo, single) && TextAt(obj, "kind") == single + LIST
    requires forall x | x in ItemsAt(obj, "items") :: TextAt(x, "kind") == single
    requires action.Restoring? ==> !ShouldExclude(rs.excludes, obj, single + LIST)
    ensures var items := ItemsAt(obj, "items");
            && FilterMap(items, PayloadItem(rs, fo, action)).Some?
            && RewriteJSONPayload(rs, fo, obj, action)
               == Replace(WithItems(obj, items, FilterMap(items, PayloadItem(rs, fo, action)).value))
  {
    var items := ItemsAt(obj, "items");
    var b, m := RewriteBuiltIn(fo, single, action), OneMetadata(rs, action);
    FilteredShape(rs, obj, action, single);
    var passed := FilterExcludes(rs, obj, action).body;
    BuiltInListDispatch(rs, fo, passed, single, action);
    BuiltInItems(rs, fo, items, single, action);
    TwoMorePasses(passed, b, m);
    SameResult(obj, passed, MapSeq(MapSeq(ItemsAt(passed, "items"), b), m));
    PayloadSteps(rs, fo, obj, action, single + LIST, passed, MapArray(passed, "items", b));
  }

  /** Whether the exclusion pass left any items or none, the new items end up in the same place. */
  lemma SameResult(obj: Json, passed: Json, out: seq<Json>)
    requires SameButItems(obj, passed) && |out| == |ItemsAt(passed, "items")|
    ensures WithItems(passed, ItemsAt(passed, "items"), out) == WithItems(obj, ItemsAt(obj, "items"), out)
  {
    assert ItemsAt(obj, "items") != [] ==> Set(passed, "items", Arr(out)) == Set(obj, "items", Arr(out));
  }

  lemma BuiltInListDispatch(rs: Rules, fo: Foreign, passed: Json, single: string, action: Action)
    requires ListedKind(fo, single) && TextAt(passed, "kind") == single + LIST
    ensures Dispatch(rs, fo, single + LIST, passed, action)
            == Replace(MapArray(passed, "items", RewriteBuiltIn(fo, single, action)))
    ensures FinishMetadata(rs, MapArray(passed, "items", RewriteBuiltIn(fo, single, action)), action)
            == MapArray(MapArray(passed, "items", RewriteBuiltIn(fo, single, action)), "items", OneMetadata(rs, action))
  {
    SuffixOfConcat(single, LIST);
    ListKindsDiffer(single, CRD_KIND);
    ListKindsDiffer(single, MONITOR_KIND);
    assert !HasSuffix(CRD_KIND, LIST) && !HasSuffix(MONITOR_KIND, LIST);
    var out := MapArray(passed, "items", RewriteBuiltIn(fo, single, action));
    assert TextAt(out, "kind") == single + LIST;
  }

  // ---------------------------------------------------------------- custom resource definitions

  /** What happens to an item of a CRD list: exclusion, the CRD rewriter, which may itself skip or fail, and the metadata. */
  ghost function CrdListItem(rs: Rules, action: Action): Json -> Outcome<Json> {
    Then(Then(Pass(rs, CRD_KIND, action), RewriteCrdItem(rs, action)), Always(OneMetadata(rs, action)))
  }

  ghost function ListOutcome(obj: Json, out: Option<seq<Json>>): Outcome<Json> {
    match out case Some(after) => Replace(WithItems(obj, ItemsAt(obj, "items"), after)) case None => Abort
  }

  lemma CrdKinds()
    ensures Excludable(CRD_KIND) && Excludable(CRD_KIND + LIST) && !HasSuffix(CRD_KIND, LIST) && CRD_KIND + LIST != CRD_KIND
  {
    assert CRD_KIND[0] == 'C' && (CRD_KIND + LIST)[0] == 'C';
  }

  /** The two passes after exclusion, once the middle one is known. */
  lemma LastCrdPass(obj: Json, passed: Json, mid: seq<Json>, m: Json -> Json)
    requires SameButItems(obj, passed) && (ItemsAt(passed, "items") == [] ==> mid == [])
    ensures var body := if ItemsAt(passed, "items") == [] then passed else Set(passed, "items", Arr(mid));
            && TextAt(body, "kind") == TextAt(passed, "kind")
            && MapArray(body, "items", m) == WithItems(obj, ItemsAt(obj, "items"), MapSeq(mid, m))
  {
    if ItemsAt(passed, "items") == [] {
      MapArrayShape(passed, m);
      assert MapSeq(mid, m) == [];
    } else {
      MapArrayItems(passed, mid, m);
    }
  }

  /** A CRD list, whatever its items: the exclusion, CRD and metadata passes are one pass over the items. */
  lemma CrdListRewritten(rs: Rules, fo: Foreign, obj: Json, action: Action)
    requires TextAt(obj, "kind") == CRD_KIND + LIST
    requires action.Restoring? ==> !ShouldExclude(rs.excludes, obj, CRD_KIND + LIST)
    ensures RewriteJSONPayload(rs, fo, obj, action) == ListOutcome(obj, FilterMap(ItemsAt(obj, "items"), CrdListItem(rs, action)))
  {
    var items, pass, crd, m := ItemsAt(obj, "items"), Pass(rs, CRD_KIND, action), RewriteCrdItem(rs, action), OneMetadata(rs, action);
    CrdKinds();
    FilteredShape(rs, obj, action, CRD_KIND);
    var passed := FilterExcludes(rs, obj, action).body;
    TwoPassesAreOne(items, pass, crd);
    TwoPassesAreOne(items, Then(pass, crd), Always(m));
    var mid := FilterMap(ItemsAt(passed, "items"), crd);
    if mid.Some? {
      FilterMapOfReplace(mid.value, m);
      LastCrdPass(obj, passed, mid.value, m);
      SuffixOfConcat(CRD_KIND, LIST);
      var body := if ItemsAt(passed, "items") == [] then passed else Set(passed, "items", Arr(mid.value));
      PayloadSteps(rs, fo, obj, action, CRD_KIND + LIST, passed, body);
    }
  }

  lemma CrdItemKind(rs: Rules, item: Json, action: Action)
    requires TextAt(item, "kind") == CRD_KIND && RewriteCrdItem(rs, action)(item).Replace?
    ensures TextAt(RewriteCrdItem(rs, action)(item).body, "kind") == CRD_KIND
  {
    if action.Renaming? { RenameCrdKeepsKind(rs, item); } else { RestoreCrdKeepsKind(rs, item); }
  }

  /**
    A CRD rewritten alone gives what its list holds in its place exactly when it is excluded or the
    rewriter does not leave it as it is. One without a rule stays in the list, with its metadata
    rewritten, and comes back empty alone.
   */
  lemma CrdAloneExactly(rs: Rules, fo: Foreign, item: Json, action: Action)
    requires TextAt(item, "kind") == CRD_KIND
    ensures var left := !Pass(rs, CRD_KIND, action)(item).Skip? && RewriteCrdItem(rs, action)(item).Keep?;
            && (PayloadItem(rs, fo, action)(item) == CrdListItem(rs, action)(item) <==> !left)
            && (left ==> PayloadItem(rs, fo, action)(item) == Keep && CrdListItem(rs, action)(item) == Replace(OneMetadata(rs, action)(item)))
  {
    CrdAlone(rs, fo, item, action);
    CrdInList(rs, item, action);
  }

  /** What the metadata pass makes of a rewriter's outcome. */
  ghost function Finished(rs: Rules, action: Action, out: Outcome<Json>): Outcome<Json> {
    match out case Replace(body) => Replace(OneMetadata(rs, action)(body)) case other => other
  }

  lemma CrdAlone(rs: Rules, fo: Foreign, item: Json, action: Action)
    requires TextAt(item, "kind") == CRD_KIND
    ensures PayloadItem(rs, fo, action)(item)
            == if Pass(rs, CRD_KIND, action)(item).Skip? then Skip else Finished(rs, action, RewriteCrdItem(rs, action)(item))
  {
    CrdKinds();
    var out := RewriteCrdItem(rs, action)(item);
    assert Dispatch(rs, fo, CRD_KIND, item, action) == out;
    if out.Replace? {
      CrdItemKind(rs, item, action);
      SinglePayload(rs, fo, item, action, CRD_KIND, out.body);
    }
  }

  lemma CrdInList(rs: Rules, item: Json, action: Action)
    ensures var out := RewriteCrdItem(rs, action)(item);
            CrdListItem(rs, action)(item)
            == if Pass(rs, CRD_KIND, action)(item).Skip? then Skip else Finished(rs, action, if out.Keep? then Replace(item) else out)
  {
    ThreeInOne(Pass(rs, CRD_KIND, action), RewriteCrdItem(rs, action), Always(OneMetadata(rs, action)), item);
  }

  /** So a list of CRDs that are excluded, renamed, restored, skipped or malformed is rewritten item by item. */
  lemma CrdListIsPointwise(rs: Rules, fo: Foreign, obj: Json, action: Action)
    requires TextAt(obj, "kind") == CRD_KIND + LIST
    requires action.Restoring? ==> !ShouldExclude(rs.excludes, obj, CRD_KIND + LIST)
    requires forall x | x in ItemsAt(obj, "items") ::
               TextAt(x, "kind") == CRD_KIND && (Pass(rs, CRD_KIND, action)(x).Skip? || !RewriteCrdItem(rs, action)(x).Keep?)
    ensures RewriteJSONPayload(rs, fo, obj, action) == ListOutcome(obj, FilterMap(ItemsAt(obj, "items"), PayloadItem(rs, fo, action)))
  {
    var items := ItemsAt(obj, "items");
    CrdListRewritten(rs, fo, obj, action);
    forall x | x in items ensures PayloadItem(rs, fo, action)(x) == CrdListItem(rs, action)(x) { CrdAloneExactly(rs, fo, x, action); }
    FilterMapCongruent(items, PayloadItem(rs, fo, action), CrdListItem(rs, action));
  }

  // ---------------------------------------------------------------- custom resources

  ghost function OriginalKindName(rs: Rules, kind: string, action: Action): string {
    if action.Restoring? then RestoreKind(rs, kind) else kind
  }

  /** A custom kind with its list kind, both ruled, and told apart after rewriting as before. */
  ghost predicate CustomListKind(rs: Rules, fo: Foreign, single: string, action: Action) {
    && single != "" && CustomKind(fo, single) && Excludable(single + LIST) && single + LIST !in fo.builtIn
    && HasKind(rs.groups, OriginalKindName(rs, single, action))
    && HasListKind(rs.groups, OriginalKindName(rs, single + LIST, action))
    && !HasKind(rs.groups, OriginalKindName(rs, single + LIST, action))
    && HasSuffix(KindAction(rs, action, single + LIST), LIST) && !HasSuffix(KindAction(rs, action, single), LIST)
  }

  lemma CustomItem(rs: Rules, fo: Foreign, single: string, item: Json, action: Action)
    requires CustomListKind(rs, fo, single, action) && TextAt(item, "kind") == single
    ensures RewriteJSONPayload(rs, fo, item, action)
            == if Pass(rs, single, action)(item).Skip? then Skip
               else Replace(OneMetadata(rs, action)(ResourceItem(rs, action)(item)))
  {
    CustomIsDispatched(rs, fo, single, item, action);
    ResourceKind(rs, item, action);
    SinglePayload(rs, fo, item, action, single, RewriteResource(rs, item, action));
  }

  lemma ResourceKind(rs: Rules, item: Json, action: Action)
    requires item.Obj?
    ensures TextAt(RewriteResource(rs, item, action), "kind") == KindAction(rs, action, TextAt(item, "kind"))
  {
  }

  lemma CustomListDispatch(rs: Rules, fo: Foreign, passed: Json, single: string, action: Action)
    requires CustomListKind(rs, fo, single, action) && TextAt(passed, "kind") == single + LIST
    ensures Dispatch(rs, fo, single + LIST, passed, action) == Replace(RewriteCustomResourceOrList(rs, passed, action))
    ensures RewriteCustomResourceOrList(rs, passed, action)
            == MapArray(RewriteVersionAndKind(rs, passed, action), "items", ResourceItem(rs, action))
  {
    ListKindIsApart(single);
    ListIsCustom(rs, passed, single, action);
  }

  /** The list kind of a kind that is neither a CRD nor a ServiceMonitor is none of their kinds or list kinds. */
  lemma ListKindIsApart(single: string)
    requires single != CRD_KIND && single != MONITOR_KIND
    ensures single + LIST !in {CRD_KIND, CRD_KIND + LIST, MONITOR_KIND, MONITOR_KIND + LIST}
    ensures TrimSuffix(single + LIST, LIST) == single
  {
    SuffixOfConcat(single, LIST);
    ListKindsDiffer(single, CRD_KIND);
    ListKindsDiffer(single, MONITOR_KIND);
    assert !HasSuffix(CRD_KIND, LIST) && !HasSuffix(MONITOR_KIND, LIST);
  }

  lemma ListIsCustom(rs: Rules, passed: Json, single: string, action: Action)
    requires TextAt(passed, "kind") == single + LIST
    requires HasListKind(rs.groups, OriginalKindName(rs, single + LIST, action)) && !HasKind(rs.groups, OriginalKindName(rs, single + LIST, action))
    ensures RewriteCustomResourceOrList(rs, passed, action)
            == MapArray(RewriteVersionAndKind(rs, passed, action), "items", ResourceItem(rs, action))
  {
  }

  lemma HeaderAndItems(obj: Json, apiVersion: string, kind: string, items: Json)
    requires obj.Obj?
    ensures Get(SetHeader(obj, apiVersion, kind), "items") == Get(obj, "items")
    ensures Get(SetHeader(obj, apiVersion, kind), "kind") == Some(Str(kind))
    ensures Get(Set(obj, "items", items), "apiVersion") == Get(obj, "apiVersion")
    ensures Get(Set(obj, "items", items), "kind") == Get(obj, "kind")
    ensures SetHeader(Set(obj, "items", items), apiVersion, kind) == Set(SetHeader(obj, apiVersion, kind), "items", items)
  {
    assert SetHeader(Set(obj, "items", items), apiVersion, kind).fields == Set(SetHeader(obj, apiVersion, kind), "items", items).fields;
  }

  /** Renaming the list's own version and kind, and replacing its items, do not interfere. */
  lemma HeaderCommutes(rs: Rules, obj: Json, passed: Json, action: Action, after: seq<Json>)
    requires SameButItems(obj, passed) && |after| == |ItemsAt(passed, "items")|
    ensures WithItems(RewriteVersionAndKind(rs, passed, action), ItemsAt(passed, "items"), after)
            == WithItems(RewriteVersionAndKind(rs, obj, action), ItemsAt(obj, "items"), after)
    ensures ItemsAt(RewriteVersionAndKind(rs, passed, action), "items") == ItemsAt(passed, "items")
  {
    var a, k := ApiVersionAction(rs, action, TextAt(obj, "apiVersion")), KindAction(rs, action, TextAt(obj, "kind"));
    HeaderAndItems(obj, a, k, Arr(after));
    HeaderAndItems(passed, a, k, Arr(after));
    assert ItemsAt(obj, "items") != [] ==> Set(passed, "items", Arr(after)) == Set(obj, "items", Arr(after));
  }

  lemma FinishList(rs: Rules, passed: Json, action: Action)
    requires passed.Obj? && HasSuffix(KindAction(rs, action, TextAt(passed, "kind")), LIST)
    ensures var header := RewriteVersionAndKind(rs, passed, action);
            FinishMetadata(rs, MapArray(header, "items", ResourceItem(rs, action)), action)
            == MapArray(MapArray(header, "items", ResourceItem(rs, action)), "items", OneMetadata(rs, action))
  {
    var header := RewriteVersionAndKind(rs, passed, action);
    assert TextAt(header, "kind") == KindAction(rs, action, TextAt(passed, "kind"));
    MapArrayShape(header, ResourceItem(rs, action));
    WithItemsFacts(header, MapSeq(ItemsAt(header, "items"), ResourceItem(rs, action)));
  }

  /** The same for a list of custom resources, whose own apiVersion and kind are rewritten too. */
  lemma CustomListIsPointwise(rs: Rules, fo: Foreign, obj: Json, single: string, action: Action)
    requires CustomListKind(rs, fo, single, action) && TextAt(obj, "kind") == single + LIST
    requires forall x | x in ItemsAt(obj, "items") :: TextAt(x, "kind") == single
    requires action.Restoring? ==> !ShouldExclude(rs.excludes, obj, single + LIST)
    ensures var items := ItemsAt(obj, "items");
            && FilterMap(items, PayloadItem(rs, fo, action)).Some?
            && RewriteJSONPayload(rs, fo, obj, action)
               == Replace(WithItems(RewriteVersionAndKind(rs, obj, action), items, FilterMap(items, PayloadItem(rs, fo, action)).value))
  {
    FilteredShape(rs, obj, action, single);
    var passed := FilterExcludes(rs, obj, action).body;
    CustomListDispatch(rs, fo, passed, single, action);
    var header, b, m := RewriteVersionAndKind(rs, passed, action), ResourceItem(rs, action), OneMetadata(rs, action);
    PayloadSteps(rs, fo, obj, action, single + LIST, passed, MapArray(header, "items", b));
    FinishList(rs, passed, action);
    TwoMorePasses(header, b, m);
    HeaderCommutes(rs, obj, passed, action, MapSeq(MapSeq(ItemsAt(passed, "items"), b), m));
    CustomItems(rs, fo, ItemsAt(obj, "items"), single, action);
  }

  lemma CustomItems(rs: Rules, fo: Foreign, items: seq<Json>, single: string, action: Action)
    requires CustomListKind(rs, fo, single, action) && forall x | x in items :: TextAt(x, "kind") == single
    ensures FilterMap(items, Pass(rs, single, action)).Some?
    ensures FilterMap(items, PayloadItem(rs, fo, action))
            == Some(MapSeq(MapSeq(FilterMap(items, Pass(rs, single, action)).value, ResourceItem(rs, action)), OneMetadata(rs, action)))
  {
    var b, m := ResourceItem(rs, action), OneMetadata(rs, action);
    forall x | x in items
      ensures PayloadItem(rs, fo, action)(x) == if Pass(rs, single, action)(x).Skip? then Skip else Replace(m(b(x)))
    {
      CustomItem(rs, fo, single, x, action);
    }
    ThreePasses(items, Pass(rs, single, action), b, m, PayloadItem(rs, fo, action));
  }
}
