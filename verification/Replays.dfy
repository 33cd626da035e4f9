/**
  What a watching client ends up with. Replaying the events it was sent gives the restored and
  filtered image of the target's store, hence what listing would have given, exactly when no object
  was excluded for good after it had been shown.
 */
module Replays {
  import opened Text
  import opened Rules
  import opened Json
  import opened Arrays
  import opened Transforms
  import opened Excludes
  import opened Payload
  import opened Transparency
  import opened Lists
  import opened Results
  import opened Watch

  // ---------------------------------------------------------------- transforming one event

  predicate KnownType(kind: string) {
    kind in {ADDED, MODIFIED, DELETED, ERROR, BOOKMARK}
  }

  ghost function RestoreObject(rs: Rules, fo: Foreign, kind: string, obj: Json): Outcome<Json> {
    if kind == BOOKMARK then Replace(RewriteVersionAndKind(rs, obj, Restoring))
    else RewriteJSONPayload(rs, fo, obj, Restoring)
  }

  /** Keep stands for an empty body, which is marshalled as null. */
  ghost function TransformWatchEvent(rs: Rules, fo: Foreign): Transform {
    (ev: Event) =>
      if !KnownType(ev.kind) || (TextAt(ev.obj, "apiVersion") == "" && TextAt(ev.obj, "kind") == "") then Failed
      else match RestoreObject(rs, fo, ev.kind, ev.obj)
        case Replace(body) => Rewritten(Event(ev.kind, body))
        case Keep => Rewritten(Event(ev.kind, Null))
        case Skip => Skipped
        case Abort => Failed
  }

  // ---------------------------------------------------------------- stores

  /** An object's place in a store: its namespace and name. */
  type Key = (string, string)

  type Store = map<Key, Json>

  ghost function KeyOf(obj: Json): Key {
    match Get(obj, "metadata") case Some(meta) => (TextAt(meta, "namespace"), TextAt(meta, "name")) case None => ("", "")
  }

  predicate IsChange(ev: Event) {
    ev.kind in {ADDED, MODIFIED, DELETED}
  }

  /** The store an informer keeps, from what it started with: errors and bookmarks change nothing. */
  ghost function Replay(start: Store, events: seq<Event>): Store {
    if events == [] then start
    else
      var store, ev := Replay(start, events[..|events| - 1]), events[|events| - 1];
      if !IsChange(ev) then store
      else if ev.kind == DELETED then store - {KeyOf(ev.obj)}
      else store[KeyOf(ev.obj) := ev.obj]
  }

  /** The last change of a key among the events that pass p. */
  ghost function LastChange(events: seq<Event>, key: Key, p: Event -> bool): Option<Event> {
    if events == [] then None
    else
      var ev := events[|events| - 1];
      if IsChange(ev) && KeyOf(ev.obj) == key && p(ev) then Some(ev) else LastChange(events[..|events| - 1], key, p)
  }

  function Any(): Event -> bool { ev => true }

  ghost function At(store: Store, key: Key): Option<Json> {
    if key in store then Some(store[key]) else None
  }

  /** What the last change leaves at a key; without a change, what was there. */
  ghost function Left(before: Option<Json>, last: Option<Event>): Option<Json> {
    match last case Some(ev) => if ev.kind == DELETED then None else Some(ev.obj) case None => before
  }

  lemma {:induction false} ReplayIsLastChange(start: Store, events: seq<Event>, key: Key)
    ensures At(Replay(start, events), key) == Left(At(start, key), LastChange(events, key, Any()))
  {
    if events != [] { ReplayIsLastChange(start, events[..|events| - 1], key); }
  }

  // ---------------------------------------------------------------- identity

  /** A rewriting of metadata that leaves name and namespace alone. */
  ghost predicate KeepsNames(f: Json -> Json) {
    forall v :: Get(f(v), "name") == Get(v, "name") && Get(f(v), "namespace") == Get(v, "namespace")
  }

  lemma FieldsKeepNames(names: seq<string>, fs: seq<Json -> Json>)
    requires |names| == |fs| && AllDistinct(names) && "name" !in names && "namespace" !in names
    ensures KeepsNames(OnObject(names, fs))
  {
    forall v: Json ensures Get(OnObject(names, fs)(v), "name") == Get(v, "name")
                     && Get(OnObject(names, fs)(v), "namespace") == Get(v, "namespace")
    {
      if v.Obj? {
        FieldAfter(v, names, fs, "name");
        FieldAfter(v, names, fs, "namespace");
      }
    }
  }

  lemma ManagedKeepsNames(rs: Rules, action: Action)
    ensures KeepsNames(RewriteManaged(rs, action))
  {
  }

  lemma MetadataKeepsNames(rs: Rules, action: Action)
    ensures KeepsNames(RewriteMetadata(rs, action))
  {
    MetadataDistinct();
    FieldsKeepNames(METADATA, MetadataRewriters(rs, action));
  }

  lemma KeyAfter(obj: Json, f: Json -> Json)
    requires KeepsNames(f)
    ensures KeyOf(AtField(obj, "metadata", f)) == KeyOf(obj)
  {
  }

  lemma KeyAfterOther(obj: Json, field: string, f: Json -> Json)
    requires field != "metadata"
    ensures KeyOf(AtField(obj, field, f)) == KeyOf(obj)
  {
  }

  lemma HeaderKeepsKey(obj: Json, apiVersion: string, kind: string)
    requires obj.Obj?
    ensures KeyOf(SetHeader(obj, apiVersion, kind)) == KeyOf(obj)
  {
  }

  /** A single object of a kind that is neither a CRD nor one of the kinds dispatched apart. */
  ghost predicate Watchable(fo: Foreign, obj: Json) {
    var kind := TextAt(obj, "kind");
    && kind != "" && kind != CRD_KIND && Excludable(kind) && !HasSuffix(kind, LIST)
    && (kind in fo.builtIn ==> fo.builtIn[kind] != "metadata")
  }

  lemma CustomKeepsKey(rs: Rules, obj: Json)
    requires obj.Obj?
    ensures KeyOf(RewriteCustomResourceOrList(rs, obj, Restoring)) == KeyOf(obj)
  {
    var apiVersion, kind := ApiVersionAction(rs, Restoring, TextAt(obj, "apiVersion")), KindAction(rs, Restoring, TextAt(obj, "kind"));
    var header := SetHeader(obj, apiVersion, kind);
    HeaderKeepsKey(obj, apiVersion, kind);
    ManagedKeepsNames(rs, Restoring);
    KeyAfter(header, RewriteManaged(rs, Restoring));
    KeyAfterOther(header, "items", OverItems(ResourceItem(rs, Restoring)));
  }

  lemma DispatchKeepsKey(rs: Rules, fo: Foreign, obj: Json)
    requires Watchable(fo, obj)
    ensures var out := Dispatch(rs, fo, TextAt(obj, "kind"), obj, Restoring);
            out.Replace? && KeyOf(out.body) == KeyOf(obj)
  {
    var kind := TextAt(obj, "kind");
    SuffixOfConcat(CRD_KIND, LIST);
    SuffixOfConcat(MONITOR_KIND, LIST);
    if kind == MONITOR_KIND {
      KeyAfterOther(obj, "spec", v => fo.inside(MONITOR_KIND, v, Restoring));
    } else if kind in fo.builtIn {
      KeyAfterOther(obj, fo.builtIn[kind], v => fo.inside(kind, v, Restoring));
    } else {
      CustomKeepsKey(rs, obj);
    }
  }

  ghost predicate Hidden(rs: Rules, obj: Json) {
    ShouldExclude(rs.excludes, obj, TextAt(obj, "kind"))
  }

  /** Restoring an object keeps its place in the store, and skips it exactly when it is excluded. */
  lemma RestoringKeepsKey(rs: Rules, fo: Foreign, obj: Json)
    requires Watchable(fo, obj)
    ensures var out := PayloadItem(rs, fo, Restoring)(obj);
            if Hidden(rs, obj) then out.Skip? else out.Replace? && KeyOf(out.body) == KeyOf(obj)
  {
    if !Hidden(rs, obj) {
      DispatchKeepsKey(rs, fo, obj);
      var body := Dispatch(rs, fo, TextAt(obj, "kind"), obj, Restoring).body;
      MetadataKeepsNames(rs, Restoring);
      KeyAfter(body, RewriteMetadata(rs, Restoring));
      KeyAfterOther(body, "items", OverItems(OneMetadata(rs, Restoring)));
      PayloadSteps(rs, fo, obj, Restoring, TextAt(obj, "kind"), obj, body);
    }
  }

  // ---------------------------------------------------------------- replaying what was sent

  /** The events received in the turns the loop takes. */
  function Received(turns: seq<Turn>): seq<Event> {
    if turns == [] then []
    else GotIn(turns[0]) + if Last(turns[0]) then [] else Received(turns[1..])
  }

  function GotIn(turn: Turn): seq<Event> {
    if turn.decoded.Got? && !Ends(turn) then [turn.decoded.event] else []
  }

  function Passed(transform: Transform, ev: Event): seq<Event> {
    match transform(ev) case Rewritten(out) => [out] case Skipped => [] case Failed => [ev]
  }

  function PassedAll(transform: Transform, events: seq<Event>): seq<Event> {
    if events == [] then []
    else PassedAll(transform, events[..|events| - 1]) + Passed(transform, events[|events| - 1])
  }

  lemma {:induction false} PassedOfConcat(transform: Transform, a: seq<Event>, b: seq<Event>)
    ensures PassedAll(transform, a + b) == PassedAll(transform, a) + PassedAll(transform, b)
    decreases |b|
  {
    if b == [] {
      assert a + b == a;
    } else {
      var rest := b[..|b| - 1];
      PassedOfConcat(transform, a, rest);
      assert (a + b)[..|a + b| - 1] == a + rest;
      Associates(PassedAll(transform, a), PassedAll(transform, rest), Passed(transform, b[|b| - 1]));
    }
  }

  /** With every write delivered, what is sent is what is received, event by event. */
  lemma {:induction false} SentIsPassed(transform: Transform, turns: seq<Turn>)
    requires forall turn | turn in turns :: turn.delivered
    ensures Sent(transform, turns) == PassedAll(transform, Received(turns))
  {
    if turns != [] {
      var rest := if Last(turns[0]) then [] else Received(turns[1..]);
      assert turns[0] in turns;
      SentIsPassed(transform, turns[1..]);
      TurnIsPassed(transform, turns[0]);
      PassedOfConcat(transform, GotIn(turns[0]), rest);
    }
  }

  lemma TurnIsPassed(transform: Transform, turn: Turn)
    requires turn.delivered
    ensures Handled(transform, turn) == PassedAll(transform, GotIn(turn))
  {
    if GotIn(turn) != [] { PassedOfOne(transform, turn.decoded.event); }
  }

  ghost function Visible(rs: Rules): Event -> bool { (ev: Event) => !Hidden(rs, ev.obj) }

  ghost function Body(out: Outcome<Json>): Json {
    if out.Replace? then out.body else Null
  }

  ghost function Restored(rs: Rules, fo: Foreign, obj: Json): Json {
    Body(PayloadItem(rs, fo, Restoring)(obj))
  }

  ghost predicate AllWatchable(fo: Foreign, events: seq<Event>) {
    forall ev | ev in events && IsChange(ev) :: Watchable(fo, ev.obj)
  }

  lemma PassedChange(rs: Rules, fo: Foreign, ev: Event)
    requires IsChange(ev) && Watchable(fo, ev.obj)
    ensures Passed(TransformWatchEvent(rs, fo), ev)
            == if Hidden(rs, ev.obj) then [] else [Event(ev.kind, Restored(rs, fo, ev.obj))]
    ensures !Hidden(rs, ev.obj) ==> KeyOf(Restored(rs, fo, ev.obj)) == KeyOf(ev.obj)
  {
    RestoringKeepsKey(rs, fo, ev.obj);
  }

  lemma PassedOther(rs: Rules, fo: Foreign, ev: Event)
    requires !IsChange(ev)
    ensures var out := Passed(TransformWatchEvent(rs, fo), ev);
            out == [] || (|out| == 1 && !IsChange(out[0]))
  {
  }

  ghost function RestoredEvent(rs: Rules, fo: Foreign, last: Option<Event>): Option<Event> {
    match last case Some(ev) => Some(Event(ev.kind, Restored(rs, fo, ev.obj))) case None => None
  }

  lemma LastOfConcat(events: seq<Event>, more: seq<Event>, key: Key)
    requires |more| <= 1
    ensures LastChange(events + more, key, Any())
            == if more != [] && IsChange(more[0]) && KeyOf(more[0].obj) == key then Some(more[0])
               else LastChange(events, key, Any())
  {
    if more == [] {
      assert events + more == events;
    } else {
      assert (events + more)[..|events + more| - 1] == events;
    }
  }

  /** The last change of a key that is sent is the image of the last one that is not hidden. */
  lemma {:induction false} LastPassed(rs: Rules, fo: Foreign, events: seq<Event>, key: Key)
    requires AllWatchable(fo, events)
    ensures LastChange(PassedAll(TransformWatchEvent(rs, fo), events), key, Any())
            == RestoredEvent(rs, fo, LastChange(events, key, Visible(rs)))
  {
    if events != [] {
      var rest, ev := events[..|events| - 1], events[|events| - 1];
      LastPassed(rs, fo, rest, key);
      if IsChange(ev) { PassedChange(rs, fo, ev); } else { PassedOther(rs, fo, ev); }
      LastOfConcat(PassedAll(TransformWatchEvent(rs, fo), rest), Passed(TransformWatchEvent(rs, fo), ev), key);
    }
  }

  lemma {:induction false} LastAmongVisible(events: seq<Event>, key: Key, p: Event -> bool)
    ensures var last, shown := LastChange(events, key, Any()), LastChange(events, key, p);
            && (shown.Some? ==> last.Some? && shown.value in events && KeyOf(shown.value.obj) == key && p(shown.value))
            && (last.Some? ==> last.value in events && KeyOf(last.value.obj) == key && IsChange(last.value))
            && (last.Some? && p(last.value) ==> shown == last)
            && (shown.Some? ==> IsChange(shown.value))
  {
    if events != [] { LastAmongVisible(events[..|events| - 1], key, p); }
  }

  /** The image of a store: hidden objects are dropped, the others restored. */
  ghost function RestoredStore(rs: Rules, fo: Foreign, store: Store): Store {
    map key | key in store && !Hidden(rs, store[key]) :: Restored(rs, fo, store[key])
  }

  /** A key whose last change is hidden was shown last as deleted, or neither shown since nor at the start. */
  ghost predicate NotStale(rs: Rules, start: Store, events: seq<Event>, key: Key) {
    var last, shown := LastChange(events, key, Any()), LastChange(events, key, Visible(rs));
    last.Some? && Hidden(rs, last.value.obj) ==>
      match shown case Some(ev) => ev.kind == DELETED case None => key in start ==> Hidden(rs, start[key])
  }

  ghost predicate NothingStale(rs: Rules, start: Store, events: seq<Event>) {
    forall key :: NotStale(rs, start, events, key)
  }

  lemma AgreeAtKey(rs: Rules, fo: Foreign, start: Store, events: seq<Event>, key: Key)
    requires AllWatchable(fo, events)
    ensures At(Replay(RestoredStore(rs, fo, start), PassedAll(TransformWatchEvent(rs, fo), events)), key)
            == At(RestoredStore(rs, fo, Replay(start, events)), key)
            <==> NotStale(rs, start, events, key)
  {
    ReplayIsLastChange(RestoredStore(rs, fo, start), PassedAll(TransformWatchEvent(rs, fo), events), key);
    ReplayIsLastChange(start, events, key);
    LastPassed(rs, fo, events, key);
    LastAmongVisible(events, key, Visible(rs));
  }

  lemma SameStore(a: Store, b: Store)
    ensures a == b <==> forall key :: At(a, key) == At(b, key)
  {
    if forall key :: At(a, key) == At(b, key) {
      forall key | key in a ensures key in b && a[key] == b[key] { assert At(a, key) == At(b, key); }
      forall key | key in b ensures key in a { assert At(a, key) == At(b, key); }
    }
  }

  /** The events as they are sent keep the image of the store, exactly when nothing is left stale. */
  lemma EventsAgree(rs: Rules, fo: Foreign, start: Store, events: seq<Event>)
    requires AllWatchable(fo, events)
    ensures Replay(RestoredStore(rs, fo, start), PassedAll(TransformWatchEvent(rs, fo), events)) == RestoredStore(rs, fo, Replay(start, events))
            <==> NothingStale(rs, start, events)
  {
    var a, b := Replay(RestoredStore(rs, fo, start), PassedAll(TransformWatchEvent(rs, fo), events)), RestoredStore(rs, fo, Replay(start, events));
    forall key ensures At(a, key) == At(b, key) <==> NotStale(rs, start, events, key) {
      AgreeAtKey(rs, fo, start, events, key);
    }
    SameStore(a, b);
  }

  /** No object's exclusion status changes between its events, nor from what it was at the start. */
  ghost predicate StableExclusion(rs: Rules, start: Store, events: seq<Event>) {
    && (forall a, b | a in events && b in events && IsChange(a) && IsChange(b) && KeyOf(a.obj) == KeyOf(b.obj) ::
          Hidden(rs, a.obj) == Hidden(rs, b.obj))
    && (forall a | a in events && IsChange(a) && KeyOf(a.obj) in start :: Hidden(rs, a.obj) == Hidden(rs, start[KeyOf(a.obj)]))
  }

  lemma StableIsNotStale(rs: Rules, start: Store, events: seq<Event>)
    requires StableExclusion(rs, start, events)
    ensures NothingStale(rs, start, events)
  {
    forall key ensures NotStale(rs, start, events, key) {
      LastAmongVisible(events, key, Visible(rs));
    }
  }

  /**
    A whole run of the loop, for a client that starts with the image of the target's store: it ends
    with the image of the target's store exactly when nothing is left stale.
   */
  lemma WatchAgrees(rs: Rules, fo: Foreign, start: Store, turns: seq<Turn>)
    requires (forall turn | turn in turns :: turn.delivered) && AllWatchable(fo, Received(turns))
    ensures Replay(RestoredStore(rs, fo, start), Sent(TransformWatchEvent(rs, fo), turns)) == RestoredStore(rs, fo, Replay(start, Received(turns)))
            <==> NothingStale(rs, start, Received(turns))
    ensures StableExclusion(rs, start, Received(turns)) ==> NothingStale(rs, start, Received(turns))
  {
    SentIsPassed(TransformWatchEvent(rs, fo), turns);
    EventsAgree(rs, fo, start, Received(turns));
    if StableExclusion(rs, start, Received(turns)) { StableIsNotStale(rs, start, Received(turns)); }
  }

  // ---------------------------------------------------------------- against listing

  function Adds(items: seq<Json>): seq<Event> {
    seq(|items|, i requires 0 <= i < |items| => Event(ADDED, items[i]))
  }

  ghost function StoreOf(items: seq<Json>): Store {
    Replay(map[], Adds(items))
  }

  ghost predicate DistinctKeys(items: seq<Json>) {
    forall i, j | 0 <= i < j < |items| :: KeyOf(items[i]) != KeyOf(items[j])
  }

  lemma AddsOfCons(x: Json, rest: seq<Json>)
    ensures Adds([x] + rest) == [Event(ADDED, x)] + Adds(rest)
  {
  }

  lemma PassedOfOne(transform: Transform, ev: Event)
    ensures PassedAll(transform, [ev]) == Passed(transform, ev)
  {
    assert [ev][..0] == [] && PassedAll(transform, []) == [];
  }

  /** Handing items one by one to a transform and collecting them from a list come to the same. */
  lemma {:induction false} ItemsPass(transform: Transform, one: Json -> Outcome<Json>, items: seq<Json>)
    requires forall x | x in items :: one(x).Skip? || one(x).Replace?
    requires forall x | x in items :: Passed(transform, Event(ADDED, x)) == if one(x).Skip? then [] else Adds([Body(one(x))])
    ensures FilterMap(items, one).Some?
    ensures PassedAll(transform, Adds(items)) == Adds(FilterMap(items, one).value)
  {
    if items != [] {
      var x, rest := items[0], items[1..];
      assert x in items;
      ItemsPass(transform, one, rest);
      assert items == [x] + rest;
      AddsOfCons(x, rest);
      FilterMapConcat([x], rest, one);
      FilterMapOne(x, one);
      PassedOfConcat(transform, [Event(ADDED, x)], Adds(rest));
      PassedOfOne(transform, Event(ADDED, x));
      AddsOfOneMore(one(x), FilterMap(rest, one).value);
    }
  }

  lemma AddsOfOneMore(out: Outcome<Json>, rest: seq<Json>)
    requires out.Skip? || out.Replace?
    ensures (if out.Skip? then [] else Adds([Body(out)])) + Adds(rest) == Adds(if out.Skip? then rest else [Body(out)] + rest)
  {
    assert [] + Adds(rest) == Adds(rest);
  }

  lemma ListPasses(rs: Rules, fo: Foreign, items: seq<Json>)
    requires forall x | x in items :: Watchable(fo, x)
    ensures FilterMap(items, PayloadItem(rs, fo, Restoring)).Some?
    ensures PassedAll(TransformWatchEvent(rs, fo), Adds(items)) == Adds(FilterMap(items, PayloadItem(rs, fo, Restoring)).value)
  {
    var transform, one := TransformWatchEvent(rs, fo), PayloadItem(rs, fo, Restoring);
    forall x | x in items
      ensures one(x).Skip? || one(x).Replace?
      ensures Passed(transform, Event(ADDED, x)) == if one(x).Skip? then [] else Adds([Body(one(x))])
    {
      RestoringKeepsKey(rs, fo, x);
      PassedChange(rs, fo, Event(ADDED, x));
    }
    ItemsPass(transform, one, items);
  }

  lemma ListIsStable(rs: Rules, items: seq<Json>)
    requires DistinctKeys(items)
    ensures StableExclusion(rs, map[], Adds(items))
  {
    forall a, b | a in Adds(items) && b in Adds(items) && KeyOf(a.obj) == KeyOf(b.obj) ensures a == b {
      var i :| 0 <= i < |items| && a == Event(ADDED, items[i]);
      var j :| 0 <= j < |items| && b == Event(ADDED, items[j]);
      assert KeyOf(items[i]) == KeyOf(items[j]);
    }
  }

  lemma ListIsImage(rs: Rules, fo: Foreign, items: seq<Json>)
    requires (forall x | x in items :: Watchable(fo, x)) && DistinctKeys(items)
    ensures FilterMap(items, PayloadItem(rs, fo, Restoring)).Some?
    ensures StoreOf(FilterMap(items, PayloadItem(rs, fo, Restoring)).value) == RestoredStore(rs, fo, StoreOf(items))
  {
    ListPasses(rs, fo, items);
    EventsAgree(rs, fo, map[], Adds(items));
    assert RestoredStore(rs, fo, map[]) == map[];
    ListIsStable(rs, items);
    StableIsNotStale(rs, map[], Adds(items));
  }

  /**
    Watching agrees with listing: when the target's list holds what its events have made of what
    was there at the start, the client's replayed events give the same store as the restored list,
    exactly when nothing is left stale.
   */
  lemma WatchAgreesWithList(rs: Rules, fo: Foreign, start: Store, turns: seq<Turn>, list: Json, single: string)
    requires (forall turn | turn in turns :: turn.delivered) && AllWatchable(fo, Received(turns))
    requires ListedKind(fo, single) || CustomListKind(rs, fo, single, Restoring)
    requires TextAt(list, "kind") == single + LIST && !ShouldExclude(rs.excludes, list, single + LIST)
    requires forall x | x in ItemsAt(list, "items") :: TextAt(x, "kind") == single && Watchable(fo, x)
    requires DistinctKeys(ItemsAt(list, "items")) && StoreOf(ItemsAt(list, "items")) == Replay(start, Received(turns))
    ensures RewriteJSONPayload(rs, fo, list, Restoring).Replace?
    ensures Replay(RestoredStore(rs, fo, start), Sent(TransformWatchEvent(rs, fo), turns))
            == StoreOf(ItemsAt(RewriteJSONPayload(rs, fo, list, Restoring).body, "items"))
            <==> NothingStale(rs, start, Received(turns))
  {
    var items := ItemsAt(list, "items");
    ListIsImage(rs, fo, items);
    var after := FilterMap(items, PayloadItem(rs, fo, Restoring)).value;
    assert RewriteJSONPayload(rs, fo, list, Restoring).Replace?
           && ItemsAt(RewriteJSONPayload(rs, fo, list, Restoring).body, "items") == after by {
      ListedItems(rs, fo, list, single, after);
    }
    WatchAgrees(rs, fo, start, turns);
  }

  lemma ListedItems(rs: Rules, fo: Foreign, list: Json, single: string, after: seq<Json>)
    requires ListedKind(fo, single) || CustomListKind(rs, fo, single, Restoring)
    requires TextAt(list, "kind") == single + LIST && !ShouldExclude(rs.excludes, list, single + LIST)
    requires forall x | x in ItemsAt(list, "items") :: TextAt(x, "kind") == single
    requires FilterMap(ItemsAt(list, "items"), PayloadItem(rs, fo, Restoring)) == Some(after)
    ensures RewriteJSONPayload(rs, fo, list, Restoring).Replace?
    ensures ItemsAt(RewriteJSONPayload(rs, fo, list, Restoring).body, "items") == after
  {
    assert ItemsAt(list, "items") == [] ==> after == [];
    if ListedKind(fo, single) {
      BuiltInListIsPointwise(rs, fo, list, single, Restoring);
      WithItemsFacts(list, after);
    } else {
      CustomListIsPointwise(rs, fo, list, single, Restoring);
      HeaderItems(rs, list, after);
    }
  }

  lemma HeaderItems(rs: Rules, list: Json, after: seq<Json>)
    requires list.Obj?
    ensures ItemsAt(WithItems(RewriteVersionAndKind(rs, list, Restoring), ItemsAt(list, "items"), after), "items")
            == if ItemsAt(list, "items") == [] then [] else after
  {
    var apiVersion, kind := ApiVersionAction(rs, Restoring, TextAt(list, "apiVersion")), KindAction(rs, Restoring, TextAt(list, "kind"));
    HeaderAndItems(list, apiVersion, kind, Null);
    WithItemsFacts(SetHeader(list, apiVersion, kind), after);
  }

  /** An object that is shown and then becomes excluded stays with the client for good. */
  lemma ShownThenHiddenIsStale(rs: Rules, fo: Foreign, shown: Json, hidden: Json)
    requires Watchable(fo, shown) && Watchable(fo, hidden) && KeyOf(shown) == KeyOf(hidden)
    requires !Hidden(rs, shown) && Hidden(rs, hidden)
    ensures var events := [Event(ADDED, shown), Event(DELETED, hidden)];
            && Replay(map[], events) == map[]
            && KeyOf(shown) in Replay(map[], PassedAll(TransformWatchEvent(rs, fo), events))
  {
    var add, remove := Event(ADDED, shown), Event(DELETED, hidden);
    PassedChange(rs, fo, add);
    PassedChange(rs, fo, remove);
    PassedPair(TransformWatchEvent(rs, fo), add, remove);
    ReplayOfOne(Event(ADDED, Restored(rs, fo, shown)));
    AddedThenDeleted(add, remove);
  }

  /** The second of two events being skipped, the first is all that passes. */
  lemma PassedPair(transform: Transform, one: Event, other: Event)
    requires Passed(transform, other) == []
    ensures PassedAll(transform, [one, other]) == Passed(transform, one)
  {
    assert [one, other] == [one] + [other];
    PassedOfConcat(transform, [one], [other]);
    PassedOfOne(transform, one);
    PassedOfOne(transform, other);
  }

  lemma AddedThenDeleted(add: Event, remove: Event)
    requires add.kind == ADDED && remove.kind == DELETED && KeyOf(add.obj) == KeyOf(remove.obj)
    ensures Replay(map[], [add, remove]) == map[]
  {
    ReplayOfOne(add);
    assert [add, remove][..1] == [add];
  }

  lemma ReplayOfOne(ev: Event)
    requires ev.kind == ADDED
    ensures Replay(map[], [ev]) == map[KeyOf(ev.obj) := ev.obj]
  {
    assert [ev][..0] == [] && Replay(map[], []) == map[];
  }

  // ---------------------------------------------------------------- events that change no store

  /** A bookmark goes on with its kind and version restored and all else as it was, whatever is excluded. */
  lemma BookmarkRestored(rs: Rules, fo: Foreign, ev: Event)
    requires ev.kind == BOOKMARK && !(TextAt(ev.obj, "apiVersion") == "" && TextAt(ev.obj, "kind") == "")
    ensures var out := Passed(TransformWatchEvent(rs, fo), ev);
            && |out| == 1 && out[0].kind == BOOKMARK
            && HeaderTo(ev.obj, out[0].obj, KindTo(rs, Restoring, TextAt(ev.obj, "kind")), VersionTo(rs, Restoring, TextAt(ev.obj, "apiVersion")))
  {
    HeaderWritten(rs, ev.obj, Restoring);
  }

  /** An event of unknown type, or whose object has neither apiVersion nor kind, goes on as it is. */
  lemma UndetectablePasses(rs: Rules, fo: Foreign, ev: Event)
    requires ev.kind !in {"ADDED", "MODIFIED", "DELETED", "ERROR", "BOOKMARK"} || (TextAt(ev.obj, "apiVersion") == "" && TextAt(ev.obj, "kind") == "")
    ensures Passed(TransformWatchEvent(rs, fo), ev) == [ev]
  {
  }

  /** Any other event goes on with its object as the payload rewriter restores it, and not at all when that is skipped. */
  lemma EventRestored(rs: Rules, fo: Foreign, ev: Event)
    requires ev.kind in {"ADDED", "MODIFIED", "DELETED", "ERROR"} && !(TextAt(ev.obj, "apiVersion") == "" && TextAt(ev.obj, "kind") == "")
    ensures Passed(TransformWatchEvent(rs, fo), ev)
            == match RewriteJSONPayload(rs, fo, ev.obj, Restoring)
               case Replace(body) => [Event(ev.kind, body)]
               case Keep => [Event(ev.kind, Null)]
               case Skip => []
               case Abort => [ev]
  {
  }
}
