/**
  When renaming and restoring a name undo each other: exact conditions on both sides, over all
  coherent rule sets, all names and all values.
 */
module RoundTrips {
  import opened Text
  import opened NameRewriting

  // ---------------------------------------------------------------- coherent rules

  predicate GoodNameEntry(key: string, target: string) {
    var k, t := Cut(key, '='), Cut(target, '=');
    && k.found == t.found
    && (k.found ==> k.after != "" && t.after != "")
    && !IsPreserved(k.before) && !IsPreserved(t.before)
  }

  predicate GoodPrefix(prefix: string) {
    '/' !in prefix && '=' !in prefix && !IsPreserved(prefix)
  }

  /** An exact-name rule under a ruled prefix says the same as the prefix rule. */
  predicate Agree(names: map<string, string>, prefixes: map<string, string>) {
    forall n | n in names && '=' !in n ::
      var c := Cut(n, '/');
      c.found && c.before in prefixes ==> names[n] == prefixes[c.before] + "/" + c.after
  }

  predicate WellFormed(names: map<string, string>, prefixes: map<string, string>) {
    && (forall k | k in names :: GoodNameEntry(k, names[k]))
    && (forall p | p in prefixes :: GoodPrefix(p) && GoodPrefix(prefixes[p]))
    && Agree(names, prefixes)
  }

  predicate Inverse(a: map<string, string>, b: map<string, string>) {
    && (forall k | k in a :: a[k] in b && b[a[k]] == k)
    && (forall k | k in b :: b[k] in a && a[b[k]] == k)
  }

  function NamePart(key: string): string {
    Cut(key, '=').before
  }

  /** A renamed name rule, value rule or prefix never names anything that is itself renamed away. */
  predicate RenamedIsNotOriginal(r: NameRewriter) {
    && (forall k | k in r.namesRestore ::
          if '=' in k then !IsOriginal(r, NamePart(k), Cut(k, '=').after)
          else !IsOriginal(r, k, "") && forall o | o in r.namesRename :: NamePart(o) != k)
    && (forall q | q in r.prefixRestore ::
          && q !in r.prefixRename
          && forall o | o in r.namesRename :: var c := Cut(NamePart(o), '/'); !(c.found && c.before == q))
  }

  predicate Coherent(r: NameRewriter) {
    && WellFormed(r.namesRename, r.prefixRename) && WellFormed(r.namesRestore, r.prefixRestore)
    && Inverse(r.namesRename, r.namesRestore) && Inverse(r.prefixRename, r.prefixRestore)
    && RenamedIsNotOriginal(r)
  }

  /** Every value rule renames the name the way a name or prefix rule does. */
  predicate ValueRulesOnTop(r: NameRewriter) {
    forall k | k in r.namesRename && '=' in k ::
      PlainLookup(r.namesRename, r.prefixRename, NamePart(k)) == Some(NamePart(r.namesRename[k]))
  }

  /** The name that the name and prefix layers give; without a rule a name stays. */
  function PlainName(names: map<string, string>, prefixes: map<string, string>, name: string): string {
    match PlainLookup(names, prefixes, name) case Some(m) => m case None => name
  }

  /**
    Every value rule leads to the name that its own name leads to without a value: it is on top of
    a name or prefix rule, or it keeps the name and there is no such rule.
   */
  predicate NamesFollow(r: NameRewriter) {
    forall k | k in r.namesRename && '=' in k ::
      NamePart(r.namesRename[k]) == PlainName(r.namesRename, r.prefixRename, NamePart(k))
  }

  // ---------------------------------------------------------------- one lookup and its inverse

  /**
    (name, value) goes through the name or prefix layer, and lands on a pair that a value rule of
    the opposite direction claims.
   */
  predicate Shadowed(names: map<string, string>, prefixes: map<string, string>,
                     back: map<string, string>, name: string, value: string)
  {
    && value != ""
    && JoinKV(name, value) !in names
    && match PlainLookup(names, prefixes, name)
       case Some(m) => JoinKV(m, value) in back
       case None => false
  }

  lemma PrefixedIsNotPreserved(prefix: string, rest: string)
    requires GoodPrefix(prefix)
    ensures !IsPreserved(prefix + "/" + rest)
  {
    var s := prefix + "/" + rest;
    if |prefix| < |PRESERVED| {
      assert s[|prefix|] == '/' && '/' !in PRESERVED;
      assert PRESERVED[|prefix|] in PRESERVED;
    } else {
      assert s[..|PRESERVED|] == prefix[..|PRESERVED|];
    }
  }

  lemma PlainLookupInverts(names: map<string, string>, prefixes: map<string, string>,
                           back: map<string, string>, backPrefixes: map<string, string>, name: string)
    requires WellFormed(names, prefixes) && WellFormed(back, backPrefixes)
    requires Inverse(names, back) && Inverse(prefixes, backPrefixes)
    requires '=' !in name
    ensures match PlainLookup(names, prefixes, name)
            case None => true
            case Some(m) => '=' !in m && !IsPreserved(m) && PlainLookup(back, backPrefixes, m) == Some(name)
  {
    var c := Cut(name, '/');
    if name in names {
      assert GoodNameEntry(name, names[name]);
    } else if c.found && c.before in prefixes {
      var q := prefixes[c.before];
      PrefixedIsNotPreserved(q, c.after);
      CutOfJoin(q, '/', c.after);
    }
  }

  /** The heart of every round trip: a lookup is undone by the opposite lookup unless a value rule shadows it. */
  lemma LookupInverts(names: map<string, string>, prefixes: map<string, string>,
                      back: map<string, string>, backPrefixes: map<string, string>, name: string, value: string)
    requires WellFormed(names, prefixes) && WellFormed(back, backPrefixes)
    requires Inverse(names, back) && Inverse(prefixes, backPrefixes)
    requires '=' !in name && Lookup(names, prefixes, name, value).Some?
    ensures var (m, w) := Lookup(names, prefixes, name, value).value;
            && '=' !in m && !IsPreserved(m)
            && Lookup(back, backPrefixes, m, w).Some?
            && (Lookup(back, backPrefixes, m, w) == Some((name, value)) <==> !Shadowed(names, prefixes, back, name, value))
  {
    PlainLookupInverts(names, prefixes, back, backPrefixes, name);
    SplitOfJoin(name, value);
    var key := JoinKV(name, value);
    if value != "" && key in names {
      assert GoodNameEntry(key, names[key]);
      var (m, w) := SplitKV(names[key]);
      assert names[key] == JoinKV(m, w);
    } else {
      var m := PlainLookup(names, prefixes, name).value;
      if value != "" && JoinKV(m, value) in back {
        var target := back[JoinKV(m, value)];
        assert GoodNameEntry(JoinKV(m, value), target);
        SplitOfJoin(m, value);
        var (m', w') := SplitKV(target);
        assert target == JoinKV(m', w');
        assert target in names;
      }
    }
  }

  lemma RenamedIsNeverOriginal(r: NameRewriter, name: string, value: string)
    requires Coherent(r) && '=' !in name
    requires IsRenamed(r, name, value)
    ensures !IsOriginal(r, name, value)
  {
    SplitOfJoin(name, value);
    var key := JoinKV(name, value);
    assert NamePart(key) == name == NamePart(name);
    var c := Cut(name, '/');
    if value != "" && key in r.namesRestore {
      assert '=' in key;
    } else if name in r.namesRestore {
      assert !IsOriginal(r, name, "");
      assert key !in r.namesRename;
    } else {
      assert c.before in r.prefixRestore;
      assert name !in r.namesRename && key !in r.namesRename;
    }
  }

  // ---------------------------------------------------------------- the two round trips

  /** What the server may hold without the client's view losing it. */
  predicate ServerDomain(r: NameRewriter, name: string, value: string) {
    !IsPreserved(name) && !Shadowed(r.namesRestore, r.prefixRestore, r.namesRename, name, value)
  }

  /** What a client may send and read back unchanged. */
  predicate ClientDomain(r: NameRewriter, name: string, value: string) {
    if IsPreserved(name) then IsOriginal(r, TrimPrefix(name, PRESERVED), value)
    else if IsOriginal(r, name, value) then !Shadowed(r.namesRename, r.prefixRename, r.namesRestore, name, value)
    else !IsRenamed(r, name, value)
  }

  lemma RuledIsNotPreserved(names: map<string, string>, prefixes: map<string, string>, name: string, value: string)
    requires WellFormed(names, prefixes) && '=' !in name
    requires Lookup(names, prefixes, name, value).Some?
    ensures !IsPreserved(name)
  {
    SplitOfJoin(name, value);
    var key := JoinKV(name, value);
    var c := Cut(name, '/');
    if value != "" && key in names {
      assert GoodNameEntry(key, names[key]);
    } else if name in names {
      assert GoodNameEntry(name, names[name]);
    } else {
      PrefixedIsNotPreserved(c.before, c.after);
    }
  }

  /** Restoring for the client and renaming back reaches the same server pair exactly on the server domain. */
  lemma ServerRoundTrip(r: NameRewriter, name: string, value: string)
    requires Coherent(r) && '=' !in name
    ensures var (n, v) := Restore(r, name, value);
            Rename(r, n, v) == (name, value) <==> ServerDomain(r, name, value)
  {
    if IsRenamed(r, name, value) {
      RenamedIsNeverOriginal(r, name, value);
      RuledIsNotPreserved(r.namesRestore, r.prefixRestore, name, value);
      LookupInverts(r.namesRestore, r.prefixRestore, r.namesRename, r.prefixRename, name, value);
    } else if IsOriginal(r, name, value) {
      RuledIsNotPreserved(r.namesRename, r.prefixRename, name, value);
      TrimOfPrefixed(PRESERVED, name);
    }
  }

  /** Renaming what the client sends and restoring the answer gives it back exactly on the client domain. */
  lemma ClientRoundTrip(r: NameRewriter, name: string, value: string)
    requires Coherent(r) && '=' !in name
    ensures var (n, v) := Rename(r, name, value);
            Restore(r, n, v) == (name, value) <==> ClientDomain(r, name, value)
  {
    var (n, v) := Rename(r, name, value);
    if IsPreserved(name) {
      assert name == PRESERVED + n;
      assert '=' !in n;
      if !IsOriginal(r, n, v) && IsRenamed(r, n, v) {
        LookupInverts(r.namesRestore, r.prefixRestore, r.namesRename, r.prefixRename, n, v);
      }
    } else if IsOriginal(r, name, value) {
      LookupInverts(r.namesRename, r.prefixRename, r.namesRestore, r.prefixRestore, name, value);
      RenamedIsNeverOriginal(r, n, v);
    } else if IsRenamed(r, name, value) {
      LookupInverts(r.namesRestore, r.prefixRestore, r.namesRename, r.prefixRename, name, value);
    }
  }

  // ---------------------------------------------------------------- why the conditions are there

  /** What the rules `a -> b` and, on top, `a=x -> b=y` index to. */
  function LayeredRules(a: string, b: string, x: string, y: string): NameRewriter {
    NameRewriter(map[a := b, JoinKV(a, x) := JoinKV(b, y)], map[b := a, JoinKV(b, y) := JoinKV(a, x)], map[], map[])
  }

  predicate Simple(name: string) {
    '=' !in name && '/' !in name && !IsPreserved(name)
  }

  lemma LayeredHalfIsWellFormed(a: string, b: string, x: string, y: string)
    requires Simple(a) && Simple(b) && x != "" && y != ""
    ensures WellFormed(map[a := b, JoinKV(a, x) := JoinKV(b, y)], map[])
  {
    SplitOfJoin(a, x);
    SplitOfJoin(b, y);
    assert GoodNameEntry(a, b) && GoodNameEntry(JoinKV(a, x), JoinKV(b, y));
  }

  lemma LayeredRenamesAreNotOriginal(a: string, b: string, x: string, y: string)
    requires Simple(a) && Simple(b) && a != b && x != "" && y != ""
    ensures RenamedIsNotOriginal(LayeredRules(a, b, x, y))
  {
    var r := LayeredRules(a, b, x, y);
    SplitOfJoin(a, x);
    SplitOfJoin(b, y);
    forall o | o in r.namesRename ensures NamePart(o) == a {}
    assert NamePart(b) == b && NamePart(JoinKV(b, y)) == b;
    assert b !in r.namesRename && JoinKV(b, y) !in r.namesRename;
    assert !IsOriginal(r, b, "") && !IsOriginal(r, b, y);
  }

  lemma LayeredRulesAreCoherent(a: string, b: string, x: string, y: string)
    requires Simple(a) && Simple(b) && a != b && x != "" && y != ""
    ensures Coherent(LayeredRules(a, b, x, y)) && ValueRulesOnTop(LayeredRules(a, b, x, y))
  {
    LayeredHalfIsWellFormed(a, b, x, y);
    LayeredHalfIsWellFormed(b, a, y, x);
    LayeredRenamesAreNotOriginal(a, b, x, y);
    SplitOfJoin(a, x);
    SplitOfJoin(b, y);
  }

  /**
    Coherence cannot save a shadowed pair. Under `a -> b` and `a=x -> b=y` the server's `b: x`
    comes back as `b: y` and the client's `a: y` comes back as `a: x`.
   */
  lemma ShadowedPairsBreak(a: string, b: string, x: string, y: string)
    requires Simple(a) && Simple(b) && a != b && x != "" && y != "" && x != y
    ensures var r := LayeredRules(a, b, x, y);
            && Coherent(r) && ValueRulesOnTop(r)
            && Restore(r, b, x) == (a, x) && Rename(r, a, x) == (b, y)
            && Rename(r, a, y) == (b, y) && Restore(r, b, y) == (a, x)
  {
    LayeredRulesAreCoherent(a, b, x, y);
    SplitOfJoin(a, x);
    SplitOfJoin(a, y);
    SplitOfJoin(b, x);
    SplitOfJoin(b, y);
  }

  /** A value rule whose key reads as this name, or as this name and value, cut at the first `=`. */
  predicate ReadAsPair(rules: seq<ReplaceRule>, name: string, value: string) {
    var (n, v) := SplitKV(name);
    || (v != "" && LastValueRule(rules, n, v).Some?)
    || (value != "" && LastValueRule(rules, n, JoinKV(v, value)).Some?)
  }

  /**
    Names that hold `=` leave the scan exactly where a value rule reads as the name: the index
    takes the name for an original, and no scan of the names does.
   */
  lemma EqualsInNameLeavesScan(rules: MetadataReplace, name: string, value: string)
    requires EqualsFree(rules.names) && '=' in name && (Cut(name, '/').found ==> '=' !in Cut(name, '/').before)
    ensures IsOriginal(NewNameRewriter(rules), name, value) <==> ReadAsPair(rules.names, name, value) || Scan(rules, name, value).Some?
    ensures LastPlainRule(rules.names, name).None? && LastValueRule(rules.names, name, value).None?
  {
    NameReadAsPair(rules.names, name, value);
    NoRuleNamesEquals(rules.names, name, value);
    if Cut(name, '/').found { IndexedPrefixMeansLast(rules.prefixes, Cut(name, '/').before); }
  }

  lemma NameReadAsPair(rules: seq<ReplaceRule>, name: string, value: string)
    requires EqualsFree(rules) && '=' in name
    ensures name in Indexed(rules) || (value != "" && JoinKV(name, value) in Indexed(rules)) <==> ReadAsPair(rules, name, value)
  {
    var (n, v) := SplitKV(name);
    assert '=' !in n && name == JoinKV(n, v) && JoinKV(name, value) == JoinKV(n, JoinKV(v, value));
    IndexHoldsPair(rules, n, v);
    IndexHoldsPair(rules, n, JoinKV(v, value));
  }

  lemma IndexHoldsPair(rules: seq<ReplaceRule>, name: string, value: string)
    requires EqualsFree(rules) && '=' !in name
    ensures JoinKV(name, value) in Indexed(rules) <==> value != "" && LastValueRule(rules, name, value).Some?
  {
    if value != "" { IndexedPairMeansLast(rules, name, value); } else { NoPairWithoutValue(rules, name); }
  }

  lemma {:induction false} NoPairWithoutValue(rules: seq<ReplaceRule>, name: string)
    requires EqualsFree(rules) && '=' !in name
    ensures JoinKV(name, "") !in Indexed(rules)
  {
    if rules != [] {
      var last := rules[|rules| - 1];
      NoPairWithoutValue(rules[..|rules| - 1], name);
      SplitOfJoin(name, "");
      SplitOfJoin(last.original, last.originalValue);
      assert JoinKV(name, "")[|name|] == '=' && '=' in JoinKV(name, "");
    }
  }

  lemma {:induction false} NoRuleNamesEquals(rules: seq<ReplaceRule>, name: string, value: string)
    requires EqualsFree(rules) && '=' in name
    ensures LastPlainRule(rules, name).None? && LastValueRule(rules, name, value).None?
  {
    if rules != [] {
      NoRuleNamesEquals(rules[..|rules| - 1], name, value);
    }
  }

  // ---------------------------------------------------------------- rule lists whose indexes invert

  predicate DistinctKeys(rules: seq<ReplaceRule>) {
    forall i, j | 0 <= i < j < |rules| :: rules[i].Key() != rules[j].Key()
  }

  lemma {:induction false} IndexedComesFromList(rules: seq<ReplaceRule>, k: string)
    requires k in Indexed(rules)
    ensures exists i | 0 <= i < |rules| :: k == rules[i].Key()
  {
    var front, last := rules[..|rules| - 1], rules[|rules| - 1];
    if k == last.Key() {
      assert k == rules[|rules| - 1].Key();
    } else {
      IndexedComesFromList(front, k);
      var i :| 0 <= i < |front| && k == front[i].Key();
      assert k == rules[i].Key();
    }
  }

  lemma {:induction false} ListIsIndexed(rules: seq<ReplaceRule>, i: nat)
    requires DistinctKeys(rules) && i < |rules|
    ensures rules[i].Key() in Indexed(rules) && Indexed(rules)[rules[i].Key()] == rules[i].Flip().Key()
  {
    var front, last := rules[..|rules| - 1], rules[|rules| - 1];
    if i < |front| {
      ListIsIndexed(front, i);
      assert front[i] == rules[i] && rules[i].Key() != last.Key();
    }
  }

  lemma IndexedIsTheList(rules: seq<ReplaceRule>)
    requires DistinctKeys(rules)
    ensures forall rule | rule in rules :: rule.Key() in Indexed(rules) && Indexed(rules)[rule.Key()] == rule.Flip().Key()
    ensures forall k | k in Indexed(rules) :: exists i | 0 <= i < |rules| :: k == rules[i].Key()
  {
    forall rule | rule in rules ensures rule.Key() in Indexed(rules) && Indexed(rules)[rule.Key()] == rule.Flip().Key() {
      var i :| 0 <= i < |rules| && rules[i] == rule;
      ListIsIndexed(rules, i);
    }
    forall k | k in Indexed(rules) ensures exists i | 0 <= i < |rules| :: k == rules[i].Key() {
      IndexedComesFromList(rules, k);
    }
  }

  /** A list that neither repeats an original nor a renamed entry yields mutually inverse indexes. */
  lemma DistinctListsInvert(rules: seq<ReplaceRule>)
    requires DistinctKeys(rules) && DistinctKeys(FlipAll(rules))
    ensures Inverse(Indexed(rules), Indexed(FlipAll(rules)))
  {
    var flipped := FlipAll(rules);
    IndexedIsTheList(rules);
    IndexedIsTheList(flipped);
    forall k | k in Indexed(rules)
      ensures Indexed(rules)[k] in Indexed(flipped) && Indexed(flipped)[Indexed(rules)[k]] == k
    {
      var i :| 0 <= i < |rules| && k == rules[i].Key();
      assert flipped[i] in flipped && rules[i] in rules && flipped[i].Flip() == rules[i];
    }
    forall k | k in Indexed(flipped)
      ensures Indexed(flipped)[k] in Indexed(rules) && Indexed(rules)[Indexed(flipped)[k]] == k
    {
      var i :| 0 <= i < |rules| && k == flipped[i].Key();
      assert flipped[i] in flipped && rules[i] in rules && flipped[i].Flip() == rules[i];
    }
  }
}
