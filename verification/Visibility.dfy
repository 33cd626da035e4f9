/**
  Under which name a client sees a server pair. With value rules that keep a name, the same server
  name shows as itself or, while its pair is an original one, in preserved form.
 */
module Visibility {
  import opened Text
  import opened NameRewriting
  import opened RoundTrips
  import opened LabelMaps

  /** A name that a client can meet: preserved, original, or neither original nor renamed. */
  predicate Askable(r: NameRewriter, name: string) {
    '=' !in name && (IsPreserved(name) || IsOriginal(r, name, "") || !IsRenamed(r, name, ""))
  }

  /** A value at the renamed name shows under this name: the pair is original just when the name is preserved. */
  predicate Shows(r: NameRewriter, name: string, value: string) {
    IsOriginal(r, Rename(r, name, "").0, value) <==> IsPreserved(name)
  }

  /** Whatever the server holds at the renamed name shows under this name. */
  ghost predicate Steady(r: NameRewriter, name: string) {
    forall v | ServerDomain(r, Rename(r, name, "").0, v) :: Shows(r, name, v)
  }

  /** A server pair is restored to the name asked for exactly when it shows under it. */
  lemma RestoredToName(r: NameRewriter, name: string, value: string)
    requires Coherent(r) && NamesFollow(r) && Askable(r, name) && ServerDomain(r, Rename(r, name, "").0, value)
    ensures var n := Rename(r, name, "").0;
            Restore(r, n, value).0 == name <==> Shows(r, name, value)
  {
    var n := Rename(r, name, "").0;
    NewNameHasNoEquals(r, name, "");
    if !IsOriginal(r, n, value) { NotOriginalNotPreserved(r, n, value); }
    if IsPreserved(name) {
      assert name == PRESERVED + n;
    } else {
      assert IsPreserved(PRESERVED + n);
      RestoredOrTwin(r, name, value);
    }
  }

  lemma RestoredOrTwin(r: NameRewriter, name: string, value: string)
    requires Coherent(r) && NamesFollow(r) && Askable(r, name) && !IsPreserved(name) && ServerDomain(r, Rename(r, name, "").0, value)
    ensures var n := Rename(r, name, "").0; Restore(r, n, value).0 in {name, PRESERVED + n}
  {
    var n := Rename(r, name, "").0;
    NewNameHasNoEquals(r, name, "");
    NewNameHasNoEquals(r, n, value);
    ServerRoundTrip(r, n, value);
    var (k, v) := Restore(r, n, value);
    ClientRoundTrip(r, k, v);
    if k != name { OnlyTwinsMeet(r, k, v, name, ""); }
  }

  lemma NotOriginalNotPreserved(r: NameRewriter, name: string, value: string)
    requires Coherent(r) && '=' !in name && !IsOriginal(r, name, value) && !IsPreserved(name)
    ensures !IsPreserved(Restore(r, name, value).0)
  {
    if IsRenamed(r, name, value) {
      LookupInverts(r.namesRestore, r.prefixRestore, r.namesRename, r.prefixRename, name, value);
    }
  }

  /** A pair that a client may write shows under its name. */
  lemma ClientPairShows(r: NameRewriter, name: string, value: string)
    requires Coherent(r) && NamesFollow(r) && '=' !in name && ClientDomain(r, name, value)
    ensures var (n, v) := Rename(r, name, value);
            n == Rename(r, name, "").0 && '=' !in n && ServerDomain(r, n, v) && Restore(r, n, v) == (name, value)
  {
    NameFollows(r, name, value);
    NewNameHasNoEquals(r, name, value);
    ClientRoundTrip(r, name, value);
    ServerRoundTrip(r, Rename(r, name, value).0, Rename(r, name, value).1);
  }

  lemma OriginalIsServer(r: NameRewriter, name: string, value: string)
    requires Coherent(r) && '=' !in name && IsOriginal(r, name, value)
    ensures ServerDomain(r, name, value)
  {
    RuledIsNotPreserved(r.namesRename, r.prefixRename, name, value);
    ServerRoundTrip(r, name, value);
    TrimOfPrefixed(PRESERVED, name);
  }

  /** A name is steady exactly when no value rule alone decides whether the server's pair is an original one. */
  lemma SteadyExactly(r: NameRewriter, name: string)
    requires Coherent(r) && Askable(r, name)
    ensures var n := Rename(r, name, "").0;
            Steady(r, name) <==> if IsPreserved(name) then IsPreserved(n) || IsOriginal(r, n, "") else forall v :: !IsOriginal(r, n, v)
  {
    if IsPreserved(name) {
      PreservedSteadyExactly(r, name);
    } else {
      var n := Rename(r, name, "").0;
      NewNameHasNoEquals(r, name, "");
      forall v | IsOriginal(r, n, v) ensures ServerDomain(r, n, v) && !Shows(r, name, v) { OriginalIsServer(r, n, v); }
    }
  }

  lemma PreservedSteadyExactly(r: NameRewriter, name: string)
    requires IsPreserved(name)
    ensures var n := Rename(r, name, "").0; Steady(r, name) <==> IsPreserved(n) || IsOriginal(r, n, "")
  {
    var n := Rename(r, name, "").0;
    assert ServerDomain(r, n, "") <==> !IsPreserved(n);
    assert IsOriginal(r, n, "") ==> forall v :: Shows(r, name, v);
  }

  /** With value rules on top every name of the client's domain is steady. */
  lemma OnTopIsSteady(r: NameRewriter, name: string, value: string)
    requires Coherent(r) && ValueRulesOnTop(r) && '=' !in name && ClientDomain(r, name, value)
    ensures Steady(r, name)
  {
    var n := Rename(r, name, "").0;
    NewNameHasNoEquals(r, name, "");
    if IsPreserved(name) {
      OnTopIgnoresValue(r, n, value);
    } else if PlainLookup(r.namesRename, r.prefixRename, name).Some? {
      PlainNameMoves(r, name);
    } else {
      forall v ensures !IsOriginal(r, n, v) { OnTopIgnoresValue(r, n, v); }
    }
  }

  lemma OnTopIgnoresValue(r: NameRewriter, name: string, value: string)
    requires ValueRulesOnTop(r) && '=' !in name
    ensures IsOriginal(r, name, value) <==> PlainLookup(r.namesRename, r.prefixRename, name).Some?
  {
    SplitOfJoin(name, value);
    assert JoinKV(name, value)[|name|] == '=';
    assert NamePart(JoinKV(name, value)) == name;
  }

  // ---------------------------------------------------------------- a value rule that keeps the name

  /** Rules such as `managed-by=operator -> managed-by=operator-internal`: coherent, following, not on top. */
  lemma KeptNameIsCoherent(a: string, x: string, y: string)
    requires Simple(a) && x != "" && y != "" && x != y
    ensures var r := LoneValueRule(a, a, x, y); Coherent(r) && NamesFollow(r) && !ValueRulesOnTop(r)
  {
    var r := LoneValueRule(a, a, x, y);
    LoneHalfIsWellFormed(a, a, x, y);
    LoneHalfIsWellFormed(a, a, y, x);
    KeptNameIsNotRenamed(a, x, y);
    KeptNameFollows(a, x, y);
    assert JoinKV(a, x) != JoinKV(a, y);
  }

  lemma KeptNameFollows(a: string, x: string, y: string)
    requires Simple(a) && x != "" && y != ""
    ensures var r := LoneValueRule(a, a, x, y); NamesFollow(r) && !ValueRulesOnTop(r)
  {
    var r := LoneValueRule(a, a, x, y);
    SplitOfJoin(a, x);
    SplitOfJoin(a, y);
    var k := JoinKV(a, x);
    assert k[|a|] == '=' && NamePart(k) == a && NamePart(JoinKV(a, y)) == a;
    assert a !in r.namesRename && k in r.namesRename;
    assert PlainLookup(r.namesRename, r.prefixRename, a).None?;
  }

  lemma KeptNameIsNotRenamed(a: string, x: string, y: string)
    requires Simple(a) && x != "" && y != "" && x != y
    ensures RenamedIsNotOriginal(LoneValueRule(a, a, x, y))
  {
    var r := LoneValueRule(a, a, x, y);
    SplitOfJoin(a, y);
    KeptNameRestores(a, x, y);
    forall k | k in r.namesRestore ensures '=' in k && !IsOriginal(r, NamePart(k), Cut(k, '=').after) {
      assert k == JoinKV(a, y) && k[|a|] == '=';
    }
  }

  /** The server's `a: x` shows as preserved-original-a, its `a: y` as `a: x`. */
  lemma KeptNameRestores(a: string, x: string, y: string)
    requires Simple(a) && x != "" && y != "" && x != y
    ensures var r := LoneValueRule(a, a, x, y);
            && Restore(r, a, x) == (PRESERVED + a, x) && Restore(r, a, y) == (a, x)
            && !IsOriginal(r, a, y) && IsOriginal(r, a, x) && Askable(r, a) && !Steady(r, a)
  {
    var r := LoneValueRule(a, a, x, y);
    SplitOfJoin(a, x);
    SplitOfJoin(a, y);
    assert JoinKV(a, x)[|a|] == '=' && JoinKV(a, y)[|a|] == '=';
    assert a !in r.namesRename && a !in r.namesRestore && JoinKV(a, y) !in r.namesRename;
    assert Rename(r, a, "").0 == a;
    assert ServerDomain(r, a, x) && !Shows(r, a, x);
  }
}
