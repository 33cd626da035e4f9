/**
  Label selectors, from the parsed selector on. The proxy renames a client's selector and sends
  it to the server; what it selects there must be what the client asked for.
 */
module Selectors {
  import opened Text
  import opened NameRewriting
  import opened RoundTrips
  import opened LabelMaps
  import opened Visibility

  datatype Operator = In | NotIn | Exists | DoesNotExist

  datatype Requirement = Requirement(key: string, operator: Operator, values: seq<string>)

  datatype Selector = Selector(matchLabels: map<string, string>, matchExpressions: seq<Requirement>)

  // ---------------------------------------------------------------- meaning, as the API server reads it

  predicate Has(labels: map<string, string>, pair: (string, string)) {
    pair.0 in labels && labels[pair.0] == pair.1
  }

  predicate HasAll(labels: map<string, string>, wanted: map<string, string>) {
    forall k | k in wanted :: Has(labels, (k, wanted[k]))
  }

  predicate Holds(req: Requirement, labels: map<string, string>) {
    match req.operator
    case In => req.key in labels && labels[req.key] in req.values
    case NotIn => req.key !in labels || labels[req.key] !in req.values
    case Exists => req.key in labels
    case DoesNotExist => req.key !in labels
  }

  predicate Matches(sel: Selector, labels: map<string, string>) {
    && HasAll(labels, sel.matchLabels)
    && (forall req | req in sel.matchExpressions :: Holds(req, labels))
  }

  // ---------------------------------------------------------------- the rewriting

  /** The new name is the first one that differs from the old. */
  function FirstNewName(name: string, values: seq<string>, f: Entry<string>): string {
    if values == [] then name
    else if f(name, values[0]).0 != name then f(name, values[0]).0
    else FirstNewName(name, values[1..], f)
  }

  function NewValues(name: string, values: seq<string>, f: Entry<string>): seq<string> {
    seq(|values|, i requires 0 <= i < |values| => f(name, values[i]).1)
  }

  lemma {:induction false} FirstNewNameSnoc(name: string, values: seq<string>, value: string, f: Entry<string>)
    ensures FirstNewName(name, values + [value], f)
            == if FirstNewName(name, values, f) != name then FirstNewName(name, values, f) else f(name, value).0
  {
    if values != [] {
      assert (values + [value])[1..] == values[1..] + [value];
      FirstNewNameSnoc(name, values[1..], value, f);
    } else {
      assert (values + [value])[1..] == [];
    }
  }

  method RewriteNameValues(name: string, values: seq<string>, f: Entry<string>) returns (name': string, values': seq<string>)
    ensures name' == FirstNewName(name, values, f)
    ensures values' == NewValues(name, values, f)
  {
    name', values' := name, [];
    for i := 0 to |values|
      invariant name' == FirstNewName(name, values[..i], f)
      invariant values' == NewValues(name, values, f)[..i]
    {
      var (n, v) := f(name, values[i]);
      assert values[..i + 1] == values[..i] + [values[i]];
      FirstNewNameSnoc(name, values[..i], values[i], f);
      if n != name && name' == name {
        name' := n;
      }
      values' := values' + [v];
    }
    assert values[..|values|] == values;
  }

  function RenameRequirement(r: NameRewriter, req: Requirement): Requirement {
    if req.values == [] then req.(key := Rename(r, req.key, "").0)
    else req.(key := FirstNewName(req.key, req.values, Renamer(r)), values := NewValues(req.key, req.values, Renamer(r)))
  }

  ghost predicate IsRenamedSelector(r: NameRewriter, sel: Selector, out: Selector) {
    && IsImage(sel.matchLabels, Renamer(r), out.matchLabels)
    && |out.matchExpressions| == |sel.matchExpressions|
    && forall i | 0 <= i < |sel.matchExpressions| :: out.matchExpressions[i] == RenameRequirement(r, sel.matchExpressions[i])
  }

  method RenameSelector(r: NameRewriter, sel: Selector) returns (out: Selector)
    ensures IsRenamedSelector(r, sel, out)
  {
    var labels := RewriteMap(sel.matchLabels, Renamer(r));
    var exprs: seq<Requirement> := [];
    for i := 0 to |sel.matchExpressions|
      invariant |exprs| == i
      invariant forall j | 0 <= j < i :: exprs[j] == RenameRequirement(r, sel.matchExpressions[j])
    {
      var expr := sel.matchExpressions[i];
      if expr.values == [] {
        expr := expr.(key := Rename(r, expr.key, "").0);
      } else {
        var key, values := RewriteNameValues(expr.key, expr.values, Renamer(r));
        expr := expr.(key := key, values := values);
      }
      exprs := exprs + [expr];
    }
    out := Selector(labels, exprs);
  }

  // ---------------------------------------------------------------- pairs

  /** The client sees a pair exactly when the server holds its renamed form. */
  lemma PairMeaning(r: NameRewriter, labels: map<string, string>, name: string, value: string)
    requires Coherent(r) && NamesFollow(r) && ServerLabels(r, labels)
    requires '=' !in name && ClientDomain(r, name, value)
    ensures Has(RestoreMap(r, labels), (name, value)) <==> Has(labels, Rename(r, name, value))
  {
    var f, seen := Restorer(r), RestoreMap(r, labels);
    RestoreKeysDistinct(r, labels);
    ClientRoundTrip(r, name, value);
    if Has(seen, (name, value)) {
      var k :| Yields(labels, f, k, name, seen[name]);
      ServerRoundTrip(r, k, labels[k]);
    }
    var (n, v) := Rename(r, name, value);
    if Has(labels, (n, v)) {
      ImageAt(labels, f, seen, n);
    }
  }

  // ---------------------------------------------------------------- names

  /** The server's pair under the renamed name, if there is one, is seen under the name. */
  predicate SeenUnder(r: NameRewriter, labels: map<string, string>, name: string) {
    var n := Rename(r, name, "").0;
    n in labels ==> Shows(r, name, labels[n])
  }

  /** The client sees the name exactly when the server has the renamed one, unless the pair there is seen under another name. */
  lemma KeyMeaning(r: NameRewriter, labels: map<string, string>, name: string)
    requires Coherent(r) && NamesFollow(r) && ServerLabels(r, labels) && Askable(r, name)
    ensures (name in RestoreMap(r, labels) <==> Rename(r, name, "").0 in labels) <==> SeenUnder(r, labels, name)
  {
    var f, seen, n := Restorer(r), RestoreMap(r, labels), Rename(r, name, "").0;
    RestoreKeysDistinct(r, labels);
    if name in seen {
      var k :| Yields(labels, f, k, name, seen[name]);
      RestoredNameLeadsBack(r, k, labels[k]);
    }
    if n in labels {
      RestoredToName(r, name, labels[n]);
      ImageAt(labels, f, seen, n);
    }
  }

  // ---------------------------------------------------------------- meaning is kept

  predicate AsksPresence(req: Requirement) {
    req.operator.Exists? || req.operator.DoesNotExist?
  }

  predicate ClientRequirement(r: NameRewriter, req: Requirement) {
    '=' !in req.key && if AsksPresence(req) then Askable(r, req.key) else forall v | v in req.values :: ClientDomain(r, req.key, v)
  }

  predicate ClientSelector(r: NameRewriter, sel: Selector) {
    ClientLabels(r, sel.matchLabels) && forall req | req in sel.matchExpressions :: ClientRequirement(r, req)
  }

  lemma {:induction false} NewNameIsRenamed(r: NameRewriter, name: string, values: seq<string>)
    requires NamesFollow(r) && '=' !in name && values != []
    ensures FirstNewName(name, values, Renamer(r)) == Rename(r, name, "").0
  {
    NameFollows(r, name, values[0]);
    if |values| > 1 { NewNameIsRenamed(r, name, values[1..]); }
  }

  lemma RenamedKeyAndValues(r: NameRewriter, req: Requirement, i: nat)
    requires NamesFollow(r) && '=' !in req.key
    ensures RenameRequirement(r, req).key == Rename(r, req.key, "").0 && RenameRequirement(r, req).operator == req.operator
    ensures |RenameRequirement(r, req).values| == |req.values|
    ensures i < |req.values| ==>
              (RenameRequirement(r, req).key, RenameRequirement(r, req).values[i]) == Rename(r, req.key, req.values[i])
  {
    if req.values != [] { NewNameIsRenamed(r, req.key, req.values); }
    if i < |req.values| { NameFollows(r, req.key, req.values[i]); }
  }

  /** In and NotIn ask for pairs: two requirements that agree on every pair agree. */
  lemma HoldsTransfers(req: Requirement, seen: map<string, string>, req': Requirement, labels: map<string, string>)
    requires req'.operator == req.operator && |req'.values| == |req.values| && !AsksPresence(req)
    requires forall i | 0 <= i < |req.values| :: Has(seen, (req.key, req.values[i])) <==> Has(labels, (req'.key, req'.values[i]))
    ensures Holds(req, seen) <==> Holds(req', labels)
  {
    HoldsByPairs(req, seen);
    HoldsByPairs(req', labels);
  }

  lemma HoldsByPairs(req: Requirement, labels: map<string, string>)
    requires !AsksPresence(req)
    ensures Holds(req, labels) <==>
              (req.operator.In? <==> exists i | 0 <= i < |req.values| :: Has(labels, (req.key, req.values[i])))
  {
    if req.key in labels && labels[req.key] in req.values {
      var i :| 0 <= i < |req.values| && req.values[i] == labels[req.key];
      assert Has(labels, (req.key, req.values[i]));
    }
  }

  /**
    A requirement holds of what the client sees exactly when the renamed one holds of what the
    server has: always for In and NotIn, and for Exists and DoesNotExist exactly when the pair the
    server has there is seen under that name.
   */
  lemma RequirementMeaning(r: NameRewriter, req: Requirement, labels: map<string, string>)
    requires Coherent(r) && NamesFollow(r) && ServerLabels(r, labels) && ClientRequirement(r, req)
    ensures (Holds(req, RestoreMap(r, labels)) <==> Holds(RenameRequirement(r, req), labels))
            <==> (AsksPresence(req) ==> SeenUnder(r, labels, req.key))
  {
    RenamedKeyAndValues(r, req, 0);
    if AsksPresence(req) {
      KeyMeaning(r, labels, req.key);
    } else {
      ValuesMeaning(r, req, labels);
    }
  }

  lemma ValuesMeaning(r: NameRewriter, req: Requirement, labels: map<string, string>)
    requires Coherent(r) && NamesFollow(r) && ServerLabels(r, labels) && ClientRequirement(r, req) && !AsksPresence(req)
    ensures Holds(req, RestoreMap(r, labels)) <==> Holds(RenameRequirement(r, req), labels)
  {
    var seen, req' := RestoreMap(r, labels), RenameRequirement(r, req);
    RenamedKeyAndValues(r, req, 0);
    forall i | 0 <= i < |req.values|
      ensures Has(seen, (req.key, req.values[i])) <==> Has(labels, (req'.key, req'.values[i]))
    {
      RenamedKeyAndValues(r, req, i);
      PairMeaning(r, labels, req.key, req.values[i]);
    }
    HoldsTransfers(req, seen, req', labels);
  }

  ghost predicate PresenceKept(r: NameRewriter, name: string) {
    forall labels | ServerLabels(r, labels) :: name in RestoreMap(r, labels) <==> Rename(r, name, "").0 in labels
  }

  /** A client can ask for a name's presence, whatever the server holds, exactly when the name is steady. */
  lemma PresenceExactly(r: NameRewriter, name: string)
    requires Coherent(r) && NamesFollow(r) && Askable(r, name)
    ensures PresenceKept(r, name) <==> Steady(r, name)
  {
    if Steady(r, name) {
      forall labels | ServerLabels(r, labels) ensures name in RestoreMap(r, labels) <==> Rename(r, name, "").0 in labels {
        KeyMeaning(r, labels, name);
      }
    } else {
      var v :| ServerDomain(r, Rename(r, name, "").0, v) && !Shows(r, name, v);
      HiddenPairBreaksPresence(r, name, v);
    }
  }

  lemma HiddenPairBreaksPresence(r: NameRewriter, name: string, value: string)
    requires Coherent(r) && NamesFollow(r) && Askable(r, name)
    requires ServerDomain(r, Rename(r, name, "").0, value) && !Shows(r, name, value)
    ensures !PresenceKept(r, name)
  {
    NewNameHasNoEquals(r, name, "");
    HiddenLabel(r, name, value);
    var labels := map[Rename(r, name, "").0 := value];
    KeyMeaning(r, labels, name);
    PresenceBroken(r, labels, name);
  }

  lemma HiddenLabel(r: NameRewriter, name: string, value: string)
    requires '=' !in Rename(r, name, "").0 && ServerDomain(r, Rename(r, name, "").0, value) && !Shows(r, name, value)
    ensures var labels := map[Rename(r, name, "").0 := value]; ServerLabels(r, labels) && !SeenUnder(r, labels, name)
  {
  }

  lemma PresenceBroken(r: NameRewriter, labels: map<string, string>, name: string)
    requires ServerLabels(r, labels) && !(name in RestoreMap(r, labels) <==> Rename(r, name, "").0 in labels)
    ensures !PresenceKept(r, name)
  {
  }

  /** No client ever sees twins, so asking for both matches nothing it sees. */
  lemma TwinsAreNeverSeen(r: NameRewriter, wanted: map<string, string>, labels: map<string, string>)
    requires Coherent(r) && NamesFollow(r) && ServerLabels(r, labels) && Twins(r, wanted.Keys) && forall k | k in wanted :: '=' !in k
    ensures !HasAll(RestoreMap(r, labels), wanted)
  {
    var a, b :| a in wanted.Keys && b in wanted.Keys && AreTwins(r, a, b);
    var seen, f := RestoreMap(r, labels), Restorer(r);
    if a in seen {
      var j :| Yields(labels, f, j, a, seen[a]);
      RestoredNameLeadsBack(r, j, labels[j]);
    }
    if b in seen {
      var k :| Yields(labels, f, k, b, seen[b]);
      RestoredNameLeadsBack(r, k, labels[k]);
      TrimOfPrefixed(PRESERVED, a);
    }
    assert a != b;
    assert !(a in seen && b in seen);
  }

  lemma MatchLabelsMeaning(r: NameRewriter, wanted: map<string, string>, renamed: map<string, string>, labels: map<string, string>)
    requires Coherent(r) && NamesFollow(r) && ServerLabels(r, labels) && ClientLabels(r, wanted) && !Twins(r, wanted.Keys)
    requires IsImage(wanted, Renamer(r), renamed)
    ensures HasAll(RestoreMap(r, labels), wanted) <==> HasAll(labels, renamed)
  {
    var seen, f := RestoreMap(r, labels), Renamer(r);
    RenameKeysDistinct(r, wanted);
    forall k | k in wanted
      ensures NewKey(wanted, f, k) in renamed
      ensures Has(seen, (k, wanted[k])) <==> Has(labels, (NewKey(wanted, f, k), renamed[NewKey(wanted, f, k)]))
    {
      ImageAt(wanted, f, renamed, k);
      PairMeaning(r, labels, k, wanted[k]);
    }
    forall k' | k' in renamed ensures exists k | k in wanted :: NewKey(wanted, f, k) == k' {
      var k :| Yields(wanted, f, k, k', renamed[k']);
    }
  }

  ghost predicate MatchLabelsKept(r: NameRewriter, wanted: map<string, string>) {
    forall renamed, labels | IsImage(wanted, Renamer(r), renamed) && ServerLabels(r, labels) ::
      HasAll(RestoreMap(r, labels), wanted) <==> HasAll(labels, renamed)
  }

  lemma RenamedLabelsAreServer(r: NameRewriter, wanted: map<string, string>)
    requires Coherent(r) && NamesFollow(r) && ClientLabels(r, wanted)
    ensures ServerLabels(r, RenameMap(r, wanted))
  {
    var renamed := RenameMap(r, wanted);
    forall n | n in renamed ensures '=' !in n && ServerDomain(r, n, renamed[n]) {
      var k :| Yields(wanted, Renamer(r), k, n, renamed[n]);
      ClientPairShows(r, k, wanted[k]);
    }
  }

  /** Match labels mean the same in every order of renaming and on every server map exactly when they hold no twins. */
  lemma MatchLabelsExactly(r: NameRewriter, wanted: map<string, string>)
    requires Coherent(r) && NamesFollow(r) && ClientLabels(r, wanted)
    ensures MatchLabelsKept(r, wanted) <==> !Twins(r, wanted.Keys)
  {
    if Twins(r, wanted.Keys) {
      var renamed := RenameMap(r, wanted);
      RenamedLabelsAreServer(r, wanted);
      TwinsAreNeverSeen(r, wanted, renamed);
      assert HasAll(renamed, renamed);
    } else {
      forall renamed, labels | IsImage(wanted, Renamer(r), renamed) && ServerLabels(r, labels)
        ensures HasAll(RestoreMap(r, labels), wanted) <==> HasAll(labels, renamed)
      {
        MatchLabelsMeaning(r, wanted, renamed, labels);
      }
    }
  }

  lemma ExpressionsMeaning(r: NameRewriter, sel: Selector, renamed: Selector, labels: map<string, string>)
    requires Coherent(r) && NamesFollow(r) && ServerLabels(r, labels) && ClientSelector(r, sel) && IsRenamedSelector(r, sel, renamed)
    requires forall req | req in sel.matchExpressions && AsksPresence(req) :: SeenUnder(r, labels, req.key)
    ensures (forall req | req in sel.matchExpressions :: Holds(req, RestoreMap(r, labels)))
            <==> (forall req | req in renamed.matchExpressions :: Holds(req, labels))
  {
    var seen := RestoreMap(r, labels);
    forall i | 0 <= i < |sel.matchExpressions|
      ensures Holds(sel.matchExpressions[i], seen) <==> Holds(renamed.matchExpressions[i], labels)
    {
      RequirementMeaning(r, sel.matchExpressions[i], labels);
    }
    assert (forall req | req in sel.matchExpressions :: Holds(req, seen)) <==>
           forall i | 0 <= i < |sel.matchExpressions| :: Holds(sel.matchExpressions[i], seen);
    assert (forall req | req in renamed.matchExpressions :: Holds(req, labels)) <==>
           forall i | 0 <= i < |renamed.matchExpressions| :: Holds(renamed.matchExpressions[i], labels);
  }

  /**
    A client's selector matches what the client sees exactly when the renamed selector matches what
    the server holds, unless its match labels hold twins: then it matches nothing the client sees.
   */
  lemma SelectorMeaning(r: NameRewriter, sel: Selector, renamed: Selector, labels: map<string, string>)
    requires Coherent(r) && NamesFollow(r) && ServerLabels(r, labels) && ClientSelector(r, sel) && IsRenamedSelector(r, sel, renamed)
    requires forall req | req in sel.matchExpressions && AsksPresence(req) :: SeenUnder(r, labels, req.key)
    ensures (Matches(sel, RestoreMap(r, labels)) <==> Matches(renamed, labels))
            <==> (Twins(r, sel.matchLabels.Keys) ==> !Matches(renamed, labels))
    ensures Twins(r, sel.matchLabels.Keys) ==> !Matches(sel, RestoreMap(r, labels))
  {
    if Twins(r, sel.matchLabels.Keys) {
      TwinsAreNeverSeen(r, sel.matchLabels, labels);
    } else {
      MatchLabelsMeaning(r, sel.matchLabels, renamed.matchLabels, labels);
      ExpressionsMeaning(r, sel, renamed, labels);
    }
  }
}
