/**
  JSON Patch documents (section 4 of RFC 6902) on labels and annotations. Operations address the
  whole map or one member by a JSON Pointer token; the proxy decodes the token, renames the name
  and encodes it again.
 */
module JsonPatches {
  import opened Text
  import opened NameRewriting
  import opened RoundTrips
  import opened LabelMaps
  import opened Visibility
  import opened Rules
  import opened Transparency
  import opened Json
  import opened Transforms
  import opened FieldMaps
  import opened Payload
  import opened JsonPointer
  import opened Patches

  const LABELS := "/metadata/labels"
  const ANNOTATIONS := "/metadata/annotations"
  const FINALIZERS := "/metadata/finalizers"
  const OWNERS := "/metadata/ownerReferences"
  const META := "/metadata"

  datatype PatchOp = PatchOp(op: string, path: string, value: Option<Json>)

  // ---------------------------------------------------------------- renaming an operation

  /** The operation with its member renamed; None when the path is elsewhere or the name does not change. */
  function RenameMember(r: NameRewriter, dir: string, op: PatchOp): Option<PatchOp> {
    if !HasPrefix(op.path, dir + "/") then None
    else
      var name := Decode(TrimPrefix(op.path, dir + "/"));
      if ServerName(r, name) == name then None
      else Some(op.(path := dir + "/" + Encode(ServerName(r, name))))
  }

  /** The JSON Patch branch of RenameMetadataPatch. */
  ghost function RenameOp(rs: Rules, op: PatchOp): PatchOp {
    if op.path == LABELS then op.(value := MapField(op.value, LabelsField(rs.labels, Renaming)))
    else if op.path == ANNOTATIONS then op.(value := MapField(op.value, LabelsField(rs.annotations, Renaming)))
    else if op.path == FINALIZERS then op.(value := MapField(op.value, OverItems(FinalizerItem(rs.finalizers, Renaming))))
    else if op.path == OWNERS then op.(value := MapField(op.value, OverItems(OwnerItem(rs, Renaming))))
    else if op.path == META then op.(value := MapField(op.value, RewriteMetadata(rs, Renaming)))
    else match RenameMember(rs.labels, LABELS, op)
      case Some(out) => out
      case None =>
        match RenameMember(rs.annotations, ANNOTATIONS, op)
        case Some(out) => out
        case None => (match RenameMember(rs.finalizers, FINALIZERS, op) case Some(out) => out case None => op)
  }

  // ---------------------------------------------------------------- applying an operation

  /** What a path addresses: the labels (0) or annotations (1) map, one member of it, or something else. */
  datatype Target = Whole(which: nat) | Member(which: nat, key: string) | Elsewhere

  function Dir(i: nat): string {
    if i == 0 then LABELS else ANNOTATIONS
  }

  function Under(dir: string, path: string): Option<string> {
    if HasPrefix(path, dir + "/") && '/' !in TrimPrefix(path, dir + "/") then Some(Decode(TrimPrefix(path, dir + "/"))) else None
  }

  function ParsePath(path: string): Target {
    if path == LABELS then Whole(0)
    else if path == ANNOTATIONS then Whole(1)
    else match Under(LABELS, path)
      case Some(key) => Member(0, key)
      case None => (match Under(ANNOTATIONS, path) case Some(key) => Member(1, key) case None => Elsewhere)
  }

  /** One operation on the member of an object that key names; None when it fails. */
  function Apply(m: Fields, op: string, key: string, value: Option<Json>): Option<Fields> {
    match (op, value)
    case ("add", Some(v)) => Some(m[key := v])
    case ("replace", Some(v)) => if key in m then Some(m[key := v]) else None
    case ("remove", _) => if key in m then Some(m - {key}) else None
    case ("test", Some(v)) => if key in m && m[key] == v then Some(m) else None
    case _ => None
  }

  /** An operation on an object whose fields are named; a member operation needs the field to be an object. */
  function ApplyAt(m: Fields, names: seq<string>, target: Target, op: string, value: Option<Json>): Option<Fields> {
    match target
    case Whole(i) => if i < |names| then Apply(m, op, names[i], value) else None
    case Member(i, key) =>
      if i < |names| && names[i] in m && m[names[i]].Obj? then
        match Apply(m[names[i]].fields, op, key, value)
        case Some(fields) => Some(m[names[i] := Obj(fields)])
        case None => None
      else None
    case Elsewhere => None
  }

  /** An operation on the metadata object. Paths that address neither map are not interpreted. */
  function ApplyOp(m: Fields, op: PatchOp): Option<Fields> {
    ApplyAt(m, METADATA, ParsePath(op.path), op.op, op.value)
  }

  /** A patch document: operations in order, stopping at the first that fails. */
  function ApplyAll(m: Fields, ops: seq<PatchOp>): Option<Fields>
    decreases |ops|
  {
    if ops == [] then Some(m)
    else match ApplyOp(m, ops[0])
      case Some(next) => ApplyAll(next, ops[1..])
      case None => None
  }

  // ---------------------------------------------------------------- paths

  lemma {:induction false} TokenHasNoSlash(t: string)
    requires WellFormedToken(t)
    ensures '/' !in t
  {
    if t != "" {
      if t[0] == '~' {
        TokenHasNoSlash(t[2..]);
        assert t == t[..2] + t[2..];
      } else {
        TokenHasNoSlash(t[1..]);
        assert t == [t[0]] + t[1..];
      }
    }
  }

  lemma TrimJoined(dir: string, rest: string)
    ensures HasPrefix(dir + "/" + rest, dir + "/") && TrimPrefix(dir + "/" + rest, dir + "/") == rest
  {
    assert dir + "/" + rest == (dir + "/") + rest;
  }

  lemma EncodedMember(dir: string, name: string)
    ensures Under(dir, dir + "/" + Encode(name)) == Some(name)
  {
    DecodeUndoesEncode(name);
    TokenHasNoSlash(Encode(name));
    TrimJoined(dir, Encode(name));
  }

  /** The two directories have no path in common, and a member path is none of the fixed paths. */
  lemma PathsApart(path: string)
    requires HasPrefix(path, LABELS + "/") || HasPrefix(path, ANNOTATIONS + "/")
    ensures path !in {LABELS, ANNOTATIONS, FINALIZERS, OWNERS, META}
    ensures HasPrefix(path, LABELS + "/") ==> !HasPrefix(path, ANNOTATIONS + "/") && !HasPrefix(path, FINALIZERS + "/")
    ensures HasPrefix(path, ANNOTATIONS + "/") ==> !HasPrefix(path, LABELS + "/") && !HasPrefix(path, FINALIZERS + "/")
  {
    var l, a := LABELS + "/", ANNOTATIONS + "/";
    assert l[10] == 'l' && a[10] == 'a' && (FINALIZERS + "/")[10] == 'f';
    assert |l| == 17 && |a| == 22 && l[16] == '/' && a[21] == '/';
    assert LABELS[10] == 'l' && ANNOTATIONS[10] == 'a' && FINALIZERS[10] == 'f' && OWNERS[10] == 'o';
    assert |LABELS| == 16 && |ANNOTATIONS| == 21 && |META| == 9;
  }

  function RewriterOf(rs: Rules, i: nat): NameRewriter {
    if i == 0 then rs.labels else rs.annotations
  }

  /** Renaming an operation keeps what it does and where; a member's name is the renamed name. */
  lemma RenamedMember(rs: Rules, op: PatchOp, i: nat, key: string)
    requires ParsePath(op.path) == Member(i, key)
    ensures i < 2
    ensures var sent := RenameOp(rs, op);
            && sent.op == op.op && sent.value == op.value
            && ParsePath(sent.path) == Member(i, ServerName(RewriterOf(rs, i), key))
  {
    PathsApart(op.path);
    var name := ServerName(RewriterOf(rs, i), key);
    EncodedMember(Dir(i), name);
    TrimJoined(Dir(i), Encode(name));
    PathsApart(Dir(i) + "/" + Encode(name));
  }

  lemma RenamedWhole(rs: Rules, op: PatchOp, i: nat)
    requires ParsePath(op.path) == Whole(i)
    ensures i < 2
    ensures RenameOp(rs, op) == op.(value := MapField(op.value, LabelsField(RewriterOf(rs, i), Renaming)))
  {
  }

  // ---------------------------------------------------------------- one map, as a value

  ghost predicate ClientLabelsValue(r: NameRewriter, v: Option<Json>) {
    v.Some? && v.value.Obj? ==> ClientFields(r, v.value.fields) && !Twins(r, v.value.fields.Keys)
  }

  /** A labels value: restoring undoes renaming on client values, and renaming undoes restoring on server values. */
  lemma ClientValueUndone(r: NameRewriter, v: Json)
    requires Coherent(r) && NamesFollow(r) && ClientLabelsValue(r, Some(v))
    ensures LabelsField(r, Restoring)(LabelsField(r, Renaming)(v)) == v
    ensures ServerLabelsValue(r, Some(LabelsField(r, Renaming)(v)))
  {
    if v.Obj? {
      var sent := RenameFields(r, v.fields);
      ClientFieldsRoundTrip(r, v.fields);
      RenamedIsServer(r, v.fields);
      LabelsFieldOfObject(r, Renaming, v.fields);
      LabelsFieldOfObject(r, Restoring, sent);
    }
  }

  lemma RenamedIsServer(r: NameRewriter, m: Fields)
    requires Coherent(r) && NamesFollow(r) && ClientFields(r, m)
    ensures ServerFields(r, RenameFields(r, m))
  {
    var f, sent := JsonEntry(Rewriter(r, Renaming)), RenameFields(r, m);
    forall n | n in sent ensures StringOrNull(sent[n]) && '=' !in n && ServerDomain(r, n, AsText(sent[n])) {
      var k :| Yields(m, f, k, n, sent[n]);
      RenamedStandsFor(r, k, m[k]);
    }
  }

  lemma ServerValueUndone(r: NameRewriter, v: Json)
    requires Coherent(r) && NamesFollow(r) && ServerLabelsValue(r, Some(v))
    ensures LabelsField(r, Renaming)(LabelsField(r, Restoring)(v)) == v
  {
    if v.Obj? {
      ServerFieldsRoundTrip(r, v.fields);
      LabelsFieldOfObject(r, Restoring, v.fields);
      LabelsFieldOfObject(r, Renaming, RestoreFields(r, v.fields));
    }
  }

  // ---------------------------------------------------------------- one member

  lemma ViewAfterSet(r: NameRewriter, m: Fields, view: Fields, key: string, v: Json)
    requires IsView(r, m, view) && SettledAt(r, m, key) && StandsFor(r, key, v, v)
    ensures IsView(r, m[ServerName(r, key) := v], view[key := v])
  {
    var m', view' := m[ServerName(r, key) := v], view[key := v];
    forall k ensures At(view', k) == ViewAt(r, m', k) {
      assert At(view, k) == ViewAt(r, m, k);
    }
  }

  lemma ViewAfterDelete(r: NameRewriter, m: Fields, view: Fields, key: string)
    requires IsView(r, m, view) && SettledAt(r, m, key)
    ensures IsView(r, m - {ServerName(r, key)}, view - {key})
  {
    var m', view' := m - {ServerName(r, key)}, view - {key};
    forall k ensures At(view', k) == ViewAt(r, m', k) {
      assert At(view, k) == ViewAt(r, m, k);
    }
  }

  /** The value in the operation is the value the server would hold for it. */
  ghost predicate Fits(r: NameRewriter, key: string, v: Json) {
    JsonEntry(Rewriter(r, Renaming))(key, v) == (ServerName(r, key), v)
  }

  predicate WritesValue(op: string) { op in {"add", "replace", "test"} }

  predicate MovesMember(op: string) { op in {"add", "replace", "remove"} }

  ghost predicate SettledFor(r: NameRewriter, m: Fields, op: string, key: string) {
    MovesMember(op) ==> SettledAt(r, m, key)
  }

  /** One member operation, on the server map and on the client's view of it. */
  lemma MemberCommutes(r: NameRewriter, m: Fields, view: Fields, op: string, key: string, value: Option<Json>)
    requires IsView(r, m, view) && SettledFor(r, m, op, key)
    requires WritesValue(op) && value.Some? ==> StandsFor(r, key, value.value, value.value)
    requires op == "test" && value.Some? && key in view && view[key] == value.value ==> At(m, ServerName(r, key)) == value
    ensures match (Apply(m, op, ServerName(r, key), value), Apply(view, op, key, value))
            case (Some(m'), Some(view')) => IsView(r, m', view')
            case (None, None) => true
            case _ => false
  {
    assert At(view, key) == ViewAt(r, m, key);
    if SettledAt(r, m, key) {
      if value.Some? && WritesValue(op) { ViewAfterSet(r, m, view, key, value.value); }
      ViewAfterDelete(r, m, view, key);
    }
  }

  /** A value that is no string and not null is in neither map. */
  lemma NeitherHolds(r: NameRewriter, m: Fields, view: Fields, key: string, v: Json)
    requires IsView(r, m, view) && !StringOrNull(v) && forall n | n in m :: StringOrNull(m[n])
    ensures At(m, ServerName(r, key)) != Some(v) && At(view, key) != Some(v)
  {
    assert At(view, key) == ViewAt(r, m, key);
  }

  /** What the client sees as v the server holds as v, when v fits. */
  lemma FittingIsHeld(r: NameRewriter, m: Fields, key: string, v: Json)
    requires Undoes(m, JsonEntry(Rewriter(r, Restoring)), JsonEntry(Rewriter(r, Renaming))) && Fits(r, key, v)
    requires ViewAt(r, m, key) == Some(v)
    ensures At(m, ServerName(r, key)) == Some(v)
  {
    var n := ServerName(r, key);
    assert SeenPair(r, n, m[n]) == (NewKey(m, JsonEntry(Rewriter(r, Restoring)), n), NewValue(m, JsonEntry(Rewriter(r, Restoring)), n));
  }

  /** A member operation on a server map is the client's operation on what it sees of the map. */
  ghost predicate MemberFacts(r: NameRewriter, fields: Fields, op: string, key: string, value: Option<Json>) {
    match (Apply(fields, op, ServerName(r, key), value), Apply(RestoreFields(r, fields), op, key, value))
    case (Some(after), Some(seen)) => RestoreFields(r, after) == seen && ServerFields(r, after)
    case (None, None) => true
    case _ => false
  }

  /** The text an operation carries, if it carries one. */
  ghost function Carried(op: string, value: Option<Json>): Option<string> {
    if WritesValue(op) && value.Some? && StringOrNull(value.value) then Some(AsText(value.value)) else None
  }

  /** What a client may do to a member: under names it can meet, with values of its domain; only `test` may carry any value. */
  ghost predicate ClientMember(r: NameRewriter, op: string, key: string, value: Option<Json>) {
    && Askable(r, key)
    && (op in {"add", "replace"} && value.Some? ==> StringOrNull(value.value))
    && (match Carried(op, value) case Some(text) => ClientDomain(r, key, text) case None => true)
  }

  /** The name is steady if the operation moves the member, and the value it carries is the value the server has for it. */
  ghost predicate MemberFits(r: NameRewriter, op: string, key: string, value: Option<Json>) {
    && (MovesMember(op) ==> Steady(r, key))
    && (match Carried(op, value) case Some(text) => Rename(r, key, text).1 == text case None => true)
  }

  lemma FittingText(r: NameRewriter, key: string, v: Json)
    requires Coherent(r) && NamesFollow(r) && StringOrNull(v) && '=' !in key && ClientDomain(r, key, AsText(v))
    ensures Fits(r, key, v) <==> Rename(r, key, AsText(v)).1 == AsText(v)
    ensures Fits(r, key, v) ==> StandsFor(r, key, v, v) && '=' !in ServerName(r, key) && ServerDomain(r, ServerName(r, key), AsText(v))
  {
    RenamedStandsFor(r, key, v);
    EmptyValueStays(r, key);
  }

  lemma StillServer(r: NameRewriter, m: Fields, op: string, key: string, value: Option<Json>)
    requires ServerFields(r, m)
    requires op in {"add", "replace"} && value.Some? ==>
               StringOrNull(value.value) && '=' !in ServerName(r, key) && ServerDomain(r, ServerName(r, key), AsText(value.value))
    ensures Apply(m, op, ServerName(r, key), value).Some? ==> ServerFields(r, Apply(m, op, ServerName(r, key), value).value)
  {
  }

  lemma OddTestFails(r: NameRewriter, m: Fields, view: Fields, key: string, v: Json)
    requires IsView(r, m, view) && !StringOrNull(v) && forall n | n in m :: StringOrNull(m[n])
    ensures Apply(m, "test", ServerName(r, key), Some(v)).None? && Apply(view, "test", key, Some(v)).None?
  {
    NeitherHolds(r, m, view, key, v);
  }

  lemma MemberFactsHold(r: NameRewriter, fields: Fields, op: string, key: string, value: Option<Json>)
    requires Coherent(r) && NamesFollow(r) && ServerFields(r, fields)
    requires ClientMember(r, op, key, value) && MemberFits(r, op, key, value)
    ensures MemberFacts(r, fields, op, key, value)
  {
    var view := RestoreFields(r, fields);
    RestoredIsView(r, fields);
    if MovesMember(op) { SteadyIsSettled(r, fields, key); }
    if op == "test" && value.Some? && !StringOrNull(value.value) {
      OddTestFails(r, fields, view, key, value.value);
    } else {
      if WritesValue(op) && value.Some? { CarriedFits(r, fields, view, key, value.value); }
      MemberCommutes(r, fields, view, op, key, value);
      StillServer(r, fields, op, key, value);
      AfterIsSeen(r, fields, op, key, value);
    }
  }

  lemma CarriedFits(r: NameRewriter, fields: Fields, view: Fields, key: string, v: Json)
    requires Coherent(r) && NamesFollow(r) && ServerFields(r, fields) && IsView(r, fields, view)
    requires StringOrNull(v) && '=' !in key && ClientDomain(r, key, AsText(v)) && Rename(r, key, AsText(v)).1 == AsText(v)
    ensures StandsFor(r, key, v, v) && '=' !in ServerName(r, key) && ServerDomain(r, ServerName(r, key), AsText(v))
    ensures key in view && view[key] == v ==> At(fields, ServerName(r, key)) == Some(v)
  {
    FittingText(r, key, v);
    ServerFieldsUndone(r, fields);
    assert At(view, key) == ViewAt(r, fields, key);
    if key in view && view[key] == v { FittingIsHeld(r, fields, key, v); }
  }

  lemma AfterIsSeen(r: NameRewriter, fields: Fields, op: string, key: string, value: Option<Json>)
    requires Coherent(r) && NamesFollow(r)
    requires match (Apply(fields, op, ServerName(r, key), value), Apply(RestoreFields(r, fields), op, key, value))
             case (Some(after), Some(seen)) => IsView(r, after, seen) && ServerFields(r, after)
             case (None, None) => true
             case _ => false
    ensures MemberFacts(r, fields, op, key, value)
  {
    var after := Apply(fields, op, ServerName(r, key), value);
    if after.Some? {
      RestoredIsView(r, after.value);
      SameAt(RestoreFields(r, after.value), Apply(RestoreFields(r, fields), op, key, value).value);
    }
  }

  // ---------------------------------------------------------------- exactly which member operations commute

  ghost predicate AlwaysCommutes(r: NameRewriter, op: string, key: string, value: Option<Json>) {
    forall fields | ServerFields(r, fields) :: MemberFacts(r, fields, op, key, value)
  }

  lemma OnePairIsServer(r: NameRewriter, name: string, v: Json)
    requires StringOrNull(v) && '=' !in name && ServerDomain(r, name, AsText(v))
    ensures ServerFields(r, map[name := v])
  {
  }

  lemma BrokenOnOne(r: NameRewriter, fields: Fields, op: string, key: string, value: Option<Json>)
    requires ServerFields(r, fields) && !MemberFacts(r, fields, op, key, value)
    ensures !AlwaysCommutes(r, op, key, value)
  {
  }

  lemma HiddenPair(r: NameRewriter, key: string, text: string)
    requires Coherent(r) && NamesFollow(r) && Askable(r, key)
    requires ServerDomain(r, ServerName(r, key), text) && !Shows(r, key, text)
    ensures ServerFields(r, map[ServerName(r, key) := Str(text)]) && SeenPair(r, ServerName(r, key), Str(text)).0 != key
  {
    var n := ServerName(r, key);
    RestoredToName(r, key, text);
    NewNameHasNoEquals(r, key, "");
    StringText(Str(text));
    OnePairIsServer(r, n, Str(text));
    SeenName(r, n, text);
  }

  lemma SeenName(r: NameRewriter, name: string, text: string)
    ensures SeenPair(r, name, Str(text)).0 == Restore(r, name, text).0
  {
    assert AsText(Str(text)) == text;
  }

  /** A server pair that is seen under another name: moving the member there does something else for the client. */
  lemma UnsteadyBreaks(r: NameRewriter, op: string, key: string, value: Option<Json>, text: string)
    requires Coherent(r) && NamesFollow(r) && Askable(r, key) && MovesMember(op) && (op != "remove" ==> value.Some?)
    requires ServerDomain(r, ServerName(r, key), text) && !Shows(r, key, text)
    ensures !AlwaysCommutes(r, op, key, value)
  {
    HiddenPair(r, key, text);
    HiddenBreaks(r, ServerName(r, key), Str(text), op, key, value);
    BrokenOnOne(r, map[ServerName(r, key) := Str(text)], op, key, value);
  }

  lemma RestoredPair(r: NameRewriter, n: string, v: Json)
    ensures RestoreFields(r, map[n := v]) == map[SeenPair(r, n, v).0 := SeenPair(r, n, v).1]
  {
    ImageOfOne(n, v, JsonEntry(Rewriter(r, Restoring)));
  }

  lemma HiddenBreaks(r: NameRewriter, n: string, v: Json, op: string, key: string, value: Option<Json>)
    requires n == ServerName(r, key) && MovesMember(op) && (op != "remove" ==> value.Some?)
    requires SeenPair(r, n, v).0 != key
    ensures !MemberFacts(r, map[n := v], op, key, value)
  {
    RestoredPair(r, n, v);
    if op == "add" {
      RestoredPair(r, n, value.value);
      assert map[n := v][n := value.value] == map[n := value.value];
      var seen := RestoreFields(r, map[n := v])[key := value.value];
      assert SeenPair(r, n, v).0 in seen && key in seen;
    }
  }

  /** A value that the server would hold otherwise: written as it is, it reads back as another value or leaves the server's domain. */
  lemma MisfitBreaks(r: NameRewriter, op: string, key: string, v: Json)
    requires Coherent(r) && NamesFollow(r) && WritesValue(op) && StringOrNull(v) && '=' !in key && ClientDomain(r, key, AsText(v))
    requires Rename(r, key, AsText(v)).1 != AsText(v)
    ensures !AlwaysCommutes(r, op, key, Some(v))
  {
    var v' := JsonEntry(Rewriter(r, Renaming))(key, v).1;
    MisfitPair(r, key, v);
    WrittenMisfit(r, ServerName(r, key), v', op, key, v);
    BrokenOnOne(r, map[ServerName(r, key) := v'], op, key, Some(v));
  }

  lemma MisfitPair(r: NameRewriter, key: string, v: Json)
    requires Coherent(r) && NamesFollow(r) && StringOrNull(v) && '=' !in key && ClientDomain(r, key, AsText(v))
    requires Rename(r, key, AsText(v)).1 != AsText(v)
    ensures var n, v' := ServerName(r, key), JsonEntry(Rewriter(r, Renaming))(key, v).1;
            && ServerFields(r, map[n := v']) && v' != v && SeenPair(r, n, v') == (key, v)
            && !(SeenPair(r, n, v) == (key, v) && ServerDomain(r, n, AsText(v)))
  {
    var n, v' := ServerName(r, key), JsonEntry(Rewriter(r, Renaming))(key, v).1;
    RenamedStandsFor(r, key, v);
    FittingText(r, key, v);
    OnePairIsServer(r, n, v');
    if SeenPair(r, n, v) == (key, v) && ServerDomain(r, n, AsText(v)) { UndoneFits(r, key, v); }
  }

  lemma UndoneFits(r: NameRewriter, key: string, v: Json)
    requires Coherent(r) && StringOrNull(v) && '=' !in ServerName(r, key) && ServerDomain(r, ServerName(r, key), AsText(v))
    requires SeenPair(r, ServerName(r, key), v) == (key, v)
    ensures Rename(r, key, AsText(v)).1 == AsText(v)
  {
    ServerRoundTrip(r, ServerName(r, key), AsText(v));
    SeenText(r, ServerName(r, key), key, v);
  }

  lemma SeenText(r: NameRewriter, n: string, key: string, v: Json)
    requires StringOrNull(v) && SeenPair(r, n, v) == (key, v)
    ensures Restore(r, n, AsText(v)) == (key, AsText(v))
  {
    EmptyValueStays(r, n);
  }

  lemma WrittenMisfit(r: NameRewriter, n: string, v': Json, op: string, key: string, v: Json)
    requires n == ServerName(r, key) && WritesValue(op) && v' != v && SeenPair(r, n, v') == (key, v)
    requires !(SeenPair(r, n, v) == (key, v) && ServerDomain(r, n, AsText(v)))
    ensures !MemberFacts(r, map[n := v'], op, key, Some(v))
  {
    RestoredPair(r, n, v');
    if op != "test" {
      assert map[n := v'][n := v] == map[n := v] && map[key := v][key := v] == map[key := v];
      NotBothRight(r, n, key, v);
    }
  }

  lemma NotBothRight(r: NameRewriter, n: string, key: string, v: Json)
    requires !(SeenPair(r, n, v) == (key, v) && ServerDomain(r, n, AsText(v)))
    ensures !(RestoreFields(r, map[n := v]) == map[key := v] && ServerFields(r, map[n := v]))
  {
    RestoredPair(r, n, v);
    if RestoreFields(r, map[n := v]) == map[key := v] {
      assert SeenPair(r, n, v).0 in map[key := v];
    }
    assert ServerFields(r, map[n := v]) ==> n in map[n := v];
  }

  /**
    A member operation with the value of a client's pair does on every server map what the client's
    operation does on what it sees, and leaves a map of the server's domain, exactly when it fits.
   */
  lemma MemberExactly(r: NameRewriter, op: string, key: string, value: Option<Json>)
    requires Coherent(r) && NamesFollow(r) && ClientMember(r, op, key, value)
    requires MovesMember(op) || WritesValue(op)
    requires WritesValue(op) ==> value.Some? && StringOrNull(value.value)
    ensures AlwaysCommutes(r, op, key, value) <==> MemberFits(r, op, key, value)
  {
    if MemberFits(r, op, key, value) {
      forall fields | ServerFields(r, fields) ensures MemberFacts(r, fields, op, key, value) {
        MemberFactsHold(r, fields, op, key, value);
      }
    } else if MovesMember(op) && !Steady(r, key) {
      var text :| ServerDomain(r, ServerName(r, key), text) && !Shows(r, key, text);
      UnsteadyBreaks(r, op, key, value, text);
    } else {
      MisfitBreaks(r, op, key, value.value);
    }
  }

  /** With value rules on top removing always fits, and writing or testing fits exactly when the value is not renamed. */
  lemma OnTopFits(r: NameRewriter, op: string, key: string, value: Option<Json>, text: string)
    requires Coherent(r) && ValueRulesOnTop(r) && ClientMember(r, op, key, value) && ClientDomain(r, key, text)
    requires WritesValue(op) ==> Carried(op, value) == Some(text)
    ensures MemberFits(r, op, key, value) <==> (WritesValue(op) ==> Rename(r, key, text).1 == text)
  {
    OnTopIsSteady(r, key, text);
  }

  // ---------------------------------------------------------------- the metadata object

  ghost function Seen(rs: Rules, m: Fields): Json {
    AtFields(Obj(m), METADATA, MetadataRewriters(rs, Restoring))
  }

  lemma SetThrough(m: Fields, names: seq<string>, fs: seq<Json -> Json>, i: nat, v: Json)
    requires |names| == |fs| && AllDistinct(names) && i < |names|
    ensures AtFields(Obj(m), names, fs).Obj?
    ensures AtFields(Obj(m[names[i] := v]), names, fs) == Obj(AtFields(Obj(m), names, fs).fields[names[i] := fs[i](v)])
  {
    var j, j' := Obj(m), Obj(m[names[i] := v]);
    FieldAfter(j, names, fs, "");
    FieldAfter(j', names, fs, "");
    var left, right := AtFields(j', names, fs), Obj(AtFields(j, names, fs).fields[names[i] := fs[i](v)]);
    forall k ensures Get(left, k) == Get(right, k) {
      FieldAfter(j, names, fs, k);
      FieldAfter(j', names, fs, k);
      if k in names && k != names[i] {
        var n :| 0 <= n < |names| && names[n] == k;
      }
    }
    SameFields(left, right);
  }

  lemma DeleteThrough(m: Fields, names: seq<string>, fs: seq<Json -> Json>, i: nat)
    requires |names| == |fs| && AllDistinct(names) && i < |names|
    ensures AtFields(Obj(m), names, fs).Obj?
    ensures AtFields(Obj(m - {names[i]}), names, fs) == Obj(AtFields(Obj(m), names, fs).fields - {names[i]})
  {
    var j, j' := Obj(m), Obj(m - {names[i]});
    FieldAfter(j, names, fs, "");
    FieldAfter(j', names, fs, "");
    var left, right := AtFields(j', names, fs), Obj(AtFields(j, names, fs).fields - {names[i]});
    forall k ensures Get(left, k) == Get(right, k) {
      FieldAfter(j, names, fs, k);
      FieldAfter(j', names, fs, k);
      if k in names && k != names[i] {
        var n :| 0 <= n < |names| && names[n] == k;
      }
    }
    SameFields(left, right);
  }

  /** The server's result is seen as the client's result, and the two agree on failure. */
  ghost predicate Agrees(server: Option<Fields>, client: Option<Fields>, names: seq<string>, gs: seq<Json -> Json>)
    requires |names| == |gs|
  {
    match (server, client)
    case (Some(m), Some(seen)) => AtFields(Obj(m), names, gs) == Obj(seen)
    case (None, None) => true
    case _ => false
  }

  /** An operation on a whole field, whatever renames and restores its value. */
  lemma WholeCommutes(m: Fields, names: seq<string>, gs: seq<Json -> Json>, i: nat, f: Json -> Json, op: string, value: Option<Json>)
    requires |names| == |gs| && AllDistinct(names) && i < |names|
    requires value.Some? ==> gs[i](f(value.value)) == value.value
    requires names[i] in m ==> f(gs[i](m[names[i]])) == m[names[i]]
    ensures AtFields(Obj(m), names, gs).Obj?
    ensures Agrees(Apply(m, op, names[i], MapField(value, f)), Apply(AtFields(Obj(m), names, gs).fields, op, names[i], value), names, gs)
  {
    FieldAfter(Obj(m), names, gs, names[i]);
    if value.Some? { SetThrough(m, names, gs, i, f(value.value)); }
    DeleteThrough(m, names, gs, i);
  }

  /** After an operation only the addressed field may differ, and it still holds server labels. */
  ghost predicate StaysServer(r: NameRewriter, m: Fields, m': Option<Fields>, field: string) {
    m'.Some? ==>
      && ServerLabelsValue(r, Get(Obj(m'.value), field))
      && forall other | other != field :: Get(Obj(m'.value), other) == Get(Obj(m), other)
  }

  /** What an operation on the whole map needs of the two directions of the rewriter. */
  ghost predicate WholeFacts(r: NameRewriter, target: Option<Json>, value: Option<Json>) {
    && (value.Some? ==> LabelsField(r, Restoring)(LabelsField(r, Renaming)(value.value)) == value.value)
    && (value.Some? ==> ServerLabelsValue(r, Some(LabelsField(r, Renaming)(value.value))))
    && (target.Some? ==> LabelsField(r, Renaming)(LabelsField(r, Restoring)(target.value)) == target.value)
  }

  lemma WholeFactsHold(r: NameRewriter, target: Option<Json>, value: Option<Json>)
    requires Coherent(r) && NamesFollow(r) && ServerLabelsValue(r, target) && ClientLabelsValue(r, value)
    ensures WholeFacts(r, target, value)
  {
    if value.Some? { ClientValueUndone(r, value.value); }
    if target.Some? { ServerValueUndone(r, target.value); }
  }

  lemma WholeOpCommutes(r: NameRewriter, m: Fields, names: seq<string>, gs: seq<Json -> Json>, i: nat, op: string, value: Option<Json>)
    requires |names| == |gs| && AllDistinct(names) && i < |names| && gs[i] == LabelsField(r, Restoring)
    requires ServerLabelsValue(r, Get(Obj(m), names[i])) && WholeFacts(r, Get(Obj(m), names[i]), value)
    ensures AtFields(Obj(m), names, gs).Obj?
    ensures var sent := ApplyAt(m, names, Whole(i), op, MapField(value, LabelsField(r, Renaming)));
            && Agrees(sent, ApplyAt(AtFields(Obj(m), names, gs).fields, names, Whole(i), op, value), names, gs)
            && StaysServer(r, m, sent, names[i])
  {
    WholeCommutes(m, names, gs, i, LabelsField(r, Renaming), op, value);
    ApplyIsLocal(r, m, op, names[i], MapField(value, LabelsField(r, Renaming)));
  }

  lemma ApplyIsLocal(r: NameRewriter, m: Fields, op: string, key: string, value: Option<Json>)
    requires ServerLabelsValue(r, Get(Obj(m), key)) && ServerLabelsValue(r, value)
    ensures StaysServer(r, m, Apply(m, op, key, value), key)
  {
  }

  lemma MemberOpCommutes(r: NameRewriter, m: Fields, names: seq<string>, gs: seq<Json -> Json>, i: nat, op: string, key: string, value: Option<Json>)
    requires |names| == |gs| && AllDistinct(names) && i < |names| && gs[i] == LabelsField(r, Restoring)
    requires names[i] in m && m[names[i]].Obj? ==> MemberFacts(r, m[names[i]].fields, op, key, value)
    ensures AtFields(Obj(m), names, gs).Obj?
    ensures var sent := ApplyAt(m, names, Member(i, ServerName(r, key)), op, value);
            && Agrees(sent, ApplyAt(AtFields(Obj(m), names, gs).fields, names, Member(i, key), op, value), names, gs)
            && StaysServer(r, m, sent, names[i])
  {
    FieldAfter(Obj(m), names, gs, names[i]);
    if names[i] in m && m[names[i]].Obj? {
      var fields := m[names[i]].fields;
      LabelsFieldOfObject(r, Restoring, fields);
      var after := Apply(fields, op, ServerName(r, key), value);
      if after.Some? {
        LabelsFieldOfObject(r, Restoring, after.value);
        SetThrough(m, names, gs, i, Obj(after.value));
      }
    } else if names[i] in m {
      assert LabelsField(r, Restoring)(m[names[i]]) == m[names[i]];
    }
  }

  // ---------------------------------------------------------------- whole patches

  ghost predicate ClientOp(rs: Rules, op: PatchOp) {
    match ParsePath(op.path)
    case Whole(i) => ClientLabelsValue(RewriterOf(rs, i), op.value)
    case Member(i, key) => ClientMember(RewriterOf(rs, i), op.op, key, op.value) && MemberFits(RewriterOf(rs, i), op.op, key, op.value)
    case Elsewhere => false
  }

  ghost predicate LabelRules(rs: Rules) {
    Coherent(rs.labels) && NamesFollow(rs.labels) && Coherent(rs.annotations) && NamesFollow(rs.annotations)
  }

  lemma LabelsRewriterAt(rs: Rules, i: nat)
    requires i < 2
    ensures MetadataRewriters(rs, Restoring)[i] == LabelsField(RewriterOf(rs, i), Restoring)
    ensures METADATA[i] == if i == 0 then "labels" else "annotations"
  {
  }

  lemma StillServerMetadata(rs: Rules, m: Fields, m': Option<Fields>, i: nat)
    requires ServerMetadata(rs, Obj(m)) && i < 2 && StaysServer(RewriterOf(rs, i), m, m', METADATA[i])
    ensures m'.Some? ==> ServerMetadata(rs, Obj(m'.value))
  {
    assert METADATA[0] == "labels" && METADATA[1] == "annotations";
  }

  ghost predicate OpFacts(rs: Rules, m: Fields, op: PatchOp, i: nat)
    requires i < 2
  {
    var field := Get(Obj(m), METADATA[i]);
    match ParsePath(op.path)
    case Whole(j) => j == i && ServerLabelsValue(RewriterOf(rs, i), field) && WholeFacts(RewriterOf(rs, i), field, op.value)
    case Member(j, key) => j == i && (field.Some? && field.value.Obj? ==> MemberFacts(RewriterOf(rs, i), field.value.fields, op.op, key, op.value))
    case Elsewhere => false
  }

  lemma OpFactsHold(rs: Rules, r: NameRewriter, m: Fields, op: PatchOp, i: nat)
    requires Coherent(r) && NamesFollow(r) && ServerMetadata(rs, Obj(m)) && ClientOp(rs, op) && r == RewriterOf(rs, i) && i < 2
    requires ParsePath(op.path).which == i
    ensures OpFacts(rs, m, op, i)
  {
    LabelsRewriterAt(rs, i);
    var field := Get(Obj(m), METADATA[i]);
    match ParsePath(op.path) {
      case Whole(_) => WholeFactsHold(r, field, op.value);
      case Member(_, key) => if field.Some? && field.value.Obj? { MemberFactsHold(r, field.value.fields, op.op, key, op.value); }
    }
  }

  lemma OpCommutes(rs: Rules, m: Fields, op: PatchOp, i: nat)
    requires i < 2 && OpFacts(rs, m, op, i) && ServerMetadata(rs, Obj(m))
    ensures Seen(rs, m).Obj?
    ensures Agrees(ApplyOp(m, RenameOp(rs, op)), ApplyOp(Seen(rs, m).fields, op), METADATA, MetadataRewriters(rs, Restoring))
    ensures ApplyOp(m, RenameOp(rs, op)).Some? ==> ServerMetadata(rs, Obj(ApplyOp(m, RenameOp(rs, op)).value))
  {
    MetadataDistinct();
    LabelsRewriterAt(rs, i);
    match ParsePath(op.path) {
      case Whole(_) =>
        RenamedWhole(rs, op, i);
        WholeOpCommutes(RewriterOf(rs, i), m, METADATA, MetadataRewriters(rs, Restoring), i, op.op, op.value);
      case Member(_, key) =>
        RenamedMember(rs, op, i, key);
        MemberOpCommutes(RewriterOf(rs, i), m, METADATA, MetadataRewriters(rs, Restoring), i, op.op, key, op.value);
    }
    StillServerMetadata(rs, m, ApplyOp(m, RenameOp(rs, op)), i);
  }

  /** On every server metadata the renamed operation does what the client's does on what it sees. */
  ghost predicate StepCommutes(rs: Rules, op: PatchOp) {
    && !ParsePath(op.path).Elsewhere? && ParsePath(op.path).which < 2
    && forall m | ServerMetadata(rs, Obj(m)) :: OpFacts(rs, m, op, ParsePath(op.path).which)
  }

  lemma ClientStepCommutes(rs: Rules, op: PatchOp)
    requires LabelRules(rs) && ClientOp(rs, op)
    ensures StepCommutes(rs, op)
  {
    PathIndex(op.path);
    var i := ParsePath(op.path).which;
    if i == 0 { FactsEverywhere(rs, rs.labels, op, 0); } else { FactsEverywhere(rs, rs.annotations, op, 1); }
  }

  lemma PathIndex(path: string)
    ensures ParsePath(path).Elsewhere? || ParsePath(path).which < 2
  {
  }

  lemma FactsEverywhere(rs: Rules, r: NameRewriter, op: PatchOp, i: nat)
    requires Coherent(r) && NamesFollow(r) && ClientOp(rs, op) && r == RewriterOf(rs, i) && i < 2
    requires ParsePath(op.path).which == i
    ensures forall m | ServerMetadata(rs, Obj(m)) :: OpFacts(rs, m, op, i)
  {
    forall m | ServerMetadata(rs, Obj(m)) ensures OpFacts(rs, m, op, i) { OpFactsHold(rs, r, m, op, i); }
  }

  ghost function RenameOps(rs: Rules, ops: seq<PatchOp>): seq<PatchOp> {
    seq(|ops|, i requires 0 <= i < |ops| => RenameOp(rs, ops[i]))
  }

  lemma SeenIsObject(rs: Rules, m: Fields)
    ensures Seen(rs, m).Obj?
    ensures Agrees(Some(m), Some(Seen(rs, m).fields), METADATA, MetadataRewriters(rs, Restoring))
  {
    MetadataDistinct();
    FieldAfter(Obj(m), METADATA, MetadataRewriters(rs, Restoring), "");
  }

  /**
    A client's JSON Patch on labels and annotations, renamed and applied by the server, fails
    exactly when the client's own patch fails on what it saw, `test` included; otherwise the
    client reads what its own patch gives.
   */
  lemma JsonPatchCommutes(rs: Rules, m: Fields, ops: seq<PatchOp>)
    requires LabelRules(rs) && ServerMetadata(rs, Obj(m)) && forall op | op in ops :: ClientOp(rs, op)
    ensures Seen(rs, m).Obj?
    ensures Agrees(ApplyAll(m, RenameOps(rs, ops)), ApplyAll(Seen(rs, m).fields, ops), METADATA, MetadataRewriters(rs, Restoring))
  {
    forall op | op in ops ensures StepCommutes(rs, op) { ClientStepCommutes(rs, op); }
    StepsCommute(rs, m, ops);
  }

  lemma {:induction false} StepsCommute(rs: Rules, m: Fields, ops: seq<PatchOp>)
    requires ServerMetadata(rs, Obj(m)) && forall op | op in ops :: StepCommutes(rs, op)
    ensures Seen(rs, m).Obj?
    ensures Agrees(ApplyAll(m, RenameOps(rs, ops)), ApplyAll(Seen(rs, m).fields, ops), METADATA, MetadataRewriters(rs, Restoring))
    decreases |ops|
  {
    SeenIsObject(rs, m);
    if ops != [] {
      assert StepCommutes(rs, ops[0]);
      OpCommutes(rs, m, ops[0], ParsePath(ops[0].path).which);
      var next := ApplyOp(m, RenameOp(rs, ops[0]));
      assert RenameOps(rs, ops)[1..] == RenameOps(rs, ops[1..]);
      if next.Some? {
        StepsCommute(rs, next.value, ops[1..]);
      }
    }
  }

  // ---------------------------------------------------------------- where the claim stops

  /** A path that descends below a label is read as one label name, and addresses a new label exactly when that name is renamed. */
  lemma NestedPathBecomesMember(rs: Rules, op: PatchOp, rest: string)
    requires op.path == LABELS + "/" + rest && '/' in rest
    ensures ParsePath(op.path) == Elsewhere
    ensures ParsePath(RenameOp(rs, op).path)
            == if ServerName(rs.labels, Decode(rest)) == Decode(rest) then Elsewhere else Member(0, ServerName(rs.labels, Decode(rest)))
  {
    TrimJoined(LABELS, rest);
    PathsApart(op.path);
    var name := ServerName(rs.labels, Decode(rest));
    EncodedMember(LABELS, name);
    TrimJoined(LABELS, Encode(name));
    PathsApart(LABELS + "/" + Encode(name));
  }

  /**
    With a value rule on top, which LayeredRulesAreCoherent shows to be coherent, `test` on one
    label passes for the client and fails on the server: only the name in the path is renamed.
   */
  lemma ValueRuleSplitsTest(a: string, b: string, x: string, y: string)
    requires Simple(a) && Simple(b) && a != b && x != "" && y != "" && x != y
    ensures var r, m := LayeredRules(a, b, x, y), map[b := Str(y)];
            && Apply(RestoreFields(r, m), "test", a, Some(Str(x))).Some?
            && Apply(m, "test", ServerName(r, a), Some(Str(x))).None?
  {
    var r := LayeredRules(a, b, x, y);
    LayeredNames(a, b, x, y);
    ImageOfOne(b, Str(y), JsonEntry(Rewriter(r, Restoring)));
    assert AsText(Str(y)) == y;
  }

  lemma LayeredNames(a: string, b: string, x: string, y: string)
    requires Simple(a) && Simple(b) && a != b && x != "" && y != ""
    ensures ServerName(LayeredRules(a, b, x, y), a) == b
    ensures Restore(LayeredRules(a, b, x, y), b, y) == (a, x)
  {
    SplitOfJoin(a, x);
    SplitOfJoin(b, y);
    SplitOfJoin(a, "");
  }
}
