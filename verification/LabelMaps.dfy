/**
  Rewriting whole label and annotation maps. The source fills a new map while ranging over a Go
  map, so the order of the writes is arbitrary; the rewriting methods here pick the next entry
  nondeterministically.
 */
module LabelMaps {
  import opened Text
  import opened NameRewriting
  import opened RoundTrips

  type Entry<!V> = (string, V) -> (string, V)

  // ---------------------------------------------------------------- any entry rewriter

  function NewKey<V>(m: map<string, V>, f: Entry<V>, k: string): string
    requires k in m
  {
    f(k, m[k]).0
  }

  function NewValue<V>(m: map<string, V>, f: Entry<V>, k: string): V
    requires k in m
  {
    f(k, m[k]).1
  }

  predicate KeyInjective<V>(m: map<string, V>, f: Entry<V>) {
    forall j, k | j in m && k in m && NewKey(m, f, j) == NewKey(m, f, k) :: j == k
  }

  predicate Yields<V(==)>(m: map<string, V>, f: Entry<V>, k: string, k': string, v': V) {
    k in m && NewKey(m, f, k) == k' && NewValue(m, f, k) == v'
  }

  /** Every entry has an image key, and every result entry is the image of an entry. */
  ghost predicate IsImage<V>(m: map<string, V>, f: Entry<V>, out: map<string, V>) {
    && (forall k | k in m :: NewKey(m, f, k) in out)
    && (forall k' | k' in out :: exists k :: Yields(m, f, k, k', out[k']))
  }

  method RewriteMap<V(==)>(m: map<string, V>, f: Entry<V>) returns (out: map<string, V>)
    ensures IsImage(m, f, out)
  {
    out := map[];
    var rest := m.Keys;
    while rest != {}
      invariant rest <= m.Keys
      invariant forall k | k in m && k !in rest :: NewKey(m, f, k) in out
      invariant forall k' | k' in out :: exists k :: Yields(m, f, k, k', out[k'])
      decreases rest
    {
      var k :| k in rest;
      var (k', v') := f(k, m[k]);
      assert Yields(m, f, k, k', v');
      out := out[k' := v'];
      rest := rest - {k};
    }
  }

  ghost function Source<V>(m: map<string, V>, f: Entry<V>, k': string): (k: string)
    requires exists k | k in m :: NewKey(m, f, k) == k'
    ensures k in m && NewKey(m, f, k) == k'
  {
    var k :| k in m && NewKey(m, f, k) == k'; k
  }

  /** One possible outcome of RewriteMap. */
  ghost function Image<V>(m: map<string, V>, f: Entry<V>): (out: map<string, V>)
    ensures IsImage(m, f, out)
  {
    var keys := set k | k in m :: NewKey(m, f, k);
    var out := map k' | k' in keys :: NewValue(m, f, Source(m, f, k'));
    assert forall k' | k' in out :: Yields(m, f, Source(m, f, k'), k', out[k']);
    out
  }

  lemma ImageAt<V>(m: map<string, V>, f: Entry<V>, out: map<string, V>, k: string)
    requires KeyInjective(m, f) && IsImage(m, f, out) && k in m
    ensures NewKey(m, f, k) in out && out[NewKey(m, f, k)] == NewValue(m, f, k)
  {
    var k' := NewKey(m, f, k);
    var j :| Yields(m, f, j, k', out[k']);
  }

  /** Without key collisions the outcome is unique, so no iteration order shows. */
  lemma ImageIsUnique<V>(m: map<string, V>, f: Entry<V>, one: map<string, V>, other: map<string, V>)
    requires KeyInjective(m, f) && IsImage(m, f, one) && IsImage(m, f, other)
    ensures one == other
  {
    forall k' | k' in one ensures k' in other && one[k'] == other[k'] {
      var k :| Yields(m, f, k, k', one[k']);
      ImageAt(m, f, other, k);
    }
    forall k' | k' in other ensures k' in one {
      var k :| Yields(m, f, k, k', other[k']);
    }
  }

  /** Any entry may have been the last to write its key. */
  lemma ImageWith<V>(m: map<string, V>, f: Entry<V>, out: map<string, V>, k: string)
    requires IsImage(m, f, out) && k in m
    ensures IsImage(m, f, out[NewKey(m, f, k) := NewValue(m, f, k)])
  {
    assert Yields(m, f, k, NewKey(m, f, k), NewValue(m, f, k));
  }

  lemma ImageOfOne<V>(k: string, v: V, f: Entry<V>)
    ensures Image(map[k := v], f) == map[f(k, v).0 := f(k, v).1]
  {
    var m := map[k := v];
    assert NewKey(m, f, k) == f(k, v).0 && NewValue(m, f, k) == f(k, v).1;
    assert Yields(m, f, k, f(k, v).0, f(k, v).1);
    ImageIsUnique(m, f, Image(m, f), map[f(k, v).0 := f(k, v).1]);
  }

  /** Without key collisions no entry is lost. */
  lemma ImageSize<V>(m: map<string, V>, f: Entry<V>, out: map<string, V>)
    requires KeyInjective(m, f) && IsImage(m, f, out)
    ensures |out| == |m|
  {
    forall k' | k' in out ensures exists k :: k in m && NewKey(m, f, k) == k' {
      var k :| Yields(m, f, k, k', out[k']);
    }
    assert out.Keys == set k | k in m.Keys :: NewKey(m, f, k);
    InjectiveSetSize(m, f, m.Keys);
  }

  lemma {:induction false} InjectiveSetSize<V>(m: map<string, V>, f: Entry<V>, keys: set<string>)
    requires KeyInjective(m, f) && keys <= m.Keys
    ensures |set k | k in keys :: NewKey(m, f, k)| == |keys|
  {
    if keys != {} {
      var k :| k in keys;
      InjectiveSetSize(m, f, keys - {k});
      var rest := set j | j in keys - {k} :: NewKey(m, f, j);
      assert (set j | j in keys :: NewKey(m, f, j)) == rest + {NewKey(m, f, k)};
    }
  }

  /** g undoes f on every entry of m. */
  predicate Undoes<V(==)>(m: map<string, V>, f: Entry<V>, g: Entry<V>) {
    forall k | k in m :: g(NewKey(m, f, k), NewValue(m, f, k)) == (k, m[k])
  }

  /** Then rewriting by f and by g gives the map back. */
  lemma ImageUndone<V>(m: map<string, V>, f: Entry<V>, g: Entry<V>, out: map<string, V>)
    requires Undoes(m, f, g) && KeyInjective(m, f) && IsImage(m, f, out)
    ensures KeyInjective(out, g) && IsImage(out, g, m)
  {
    forall k' | k' in out ensures NewKey(out, g, k') in m && NewKey(m, f, NewKey(out, g, k')) == k' {
      var k :| Yields(m, f, k, k', out[k']);
    }
    forall k | k in m ensures exists k' :: Yields(out, g, k', k, m[k]) {
      ImageAt(m, f, out, k);
      assert Yields(out, g, NewKey(m, f, k), k, m[k]);
    }
  }

  // ---------------------------------------------------------------- labels

  function Renamer(r: NameRewriter): Entry<string> {
    (k, v) => Rename(r, k, v)
  }

  function Restorer(r: NameRewriter): Entry<string> {
    (k, v) => Restore(r, k, v)
  }

  ghost function RenameMap(r: NameRewriter, m: map<string, string>): map<string, string> {
    Image(m, Renamer(r))
  }

  ghost function RestoreMap(r: NameRewriter, m: map<string, string>): map<string, string> {
    Image(m, Restorer(r))
  }

  predicate ServerLabels(r: NameRewriter, m: map<string, string>) {
    forall k | k in m :: '=' !in k && ServerDomain(r, k, m[k])
  }

  predicate ClientLabels(r: NameRewriter, m: map<string, string>) {
    forall k | k in m :: '=' !in k && ClientDomain(r, k, m[k])
  }

  // ---------------------------------------------------------------- names that do not depend on values

  lemma NewNameHasNoEquals(r: NameRewriter, name: string, value: string)
    requires Coherent(r) && '=' !in name
    ensures '=' !in Rename(r, name, value).0 && '=' !in Restore(r, name, value).0
  {
    RenamedHasNoEquals(r, name, value);
    RestoredHasNoEquals(r, name, value);
  }

  lemma RenamedHasNoEquals(r: NameRewriter, name: string, value: string)
    requires Coherent(r) && '=' !in name
    ensures '=' !in Rename(r, name, value).0
  {
    if IsPreserved(name) {
      assert forall c | c in TrimPrefix(name, PRESERVED) :: c in name;
    } else if IsOriginal(r, name, value) {
      LookupInverts(r.namesRename, r.prefixRename, r.namesRestore, r.prefixRestore, name, value);
    }
  }

  lemma PreservedHasNoEquals(name: string)
    requires '=' !in name
    ensures '=' !in PRESERVED + name
  {
  }

  lemma RestoredHasNoEquals(r: NameRewriter, name: string, value: string)
    requires Coherent(r) && '=' !in name
    ensures '=' !in Restore(r, name, value).0
  {
    if IsOriginal(r, name, value) {
      PreservedHasNoEquals(name);
    } else if IsRenamed(r, name, value) {
      LookupInverts(r.namesRestore, r.prefixRestore, r.namesRename, r.prefixRename, name, value);
    }
  }

  /** When names follow, the new name of a client's pair does not depend on the value. */
  lemma NameFollows(r: NameRewriter, name: string, value: string)
    requires NamesFollow(r) && '=' !in name
    ensures Rename(r, name, value).0 == Rename(r, name, "").0
  {
    SplitOfJoin(name, value);
    var key := JoinKV(name, value);
    assert key[|name|] == '=';
    assert key in r.namesRename ==> NamePart(key) == name && SplitKV(r.namesRename[key]).0 == NamePart(r.namesRename[key]);
  }

  /** What a server pair is restored to leads back to it, by its name alone. */
  lemma RestoredNameLeadsBack(r: NameRewriter, name: string, value: string)
    requires Coherent(r) && NamesFollow(r) && '=' !in name && ServerDomain(r, name, value)
    ensures Rename(r, Restore(r, name, value).0, "").0 == name
  {
    ServerRoundTrip(r, name, value);
    NewNameHasNoEquals(r, name, value);
    NameFollows(r, Restore(r, name, value).0, Restore(r, name, value).1);
  }

  lemma RestoreKeysDistinct(r: NameRewriter, m: map<string, string>)
    requires Coherent(r) && NamesFollow(r) && ServerLabels(r, m)
    ensures KeyInjective(m, Restorer(r))
  {
    forall j, k | j in m && k in m && NewKey(m, Restorer(r), j) == NewKey(m, Restorer(r), k)
      ensures j == k
    {
      RestoredNameLeadsBack(r, j, m[j]);
      RestoredNameLeadsBack(r, k, m[k]);
    }
  }

  /**
    Read-modify-write loses nothing: restoring a server label map merges no keys, keeps the number
    of entries, is the same for every iteration order, and renaming the result gives the map back.
   */
  lemma ReadModifyWrite(r: NameRewriter, m: map<string, string>, seen: map<string, string>, sent: map<string, string>)
    requires Coherent(r) && NamesFollow(r) && ServerLabels(r, m)
    requires IsImage(m, Restorer(r), seen) && IsImage(seen, Renamer(r), sent)
    ensures seen == RestoreMap(r, m) && |seen| == |m|
    ensures sent == m
  {
    RestoreKeysDistinct(r, m);
    ImageIsUnique(m, Restorer(r), seen, RestoreMap(r, m));
    ImageSize(m, Restorer(r), seen);
    RestoreUndone(r, m);
    ImageUndone(m, Restorer(r), Renamer(r), seen);
    ImageIsUnique(seen, Renamer(r), sent, m);
  }

  lemma RestoreUndone(r: NameRewriter, m: map<string, string>)
    requires Coherent(r) && ServerLabels(r, m)
    ensures Undoes(m, Restorer(r), Renamer(r))
  {
    forall k | k in m ensures Rename(r, NewKey(m, Restorer(r), k), NewValue(m, Restorer(r), k)) == (k, m[k]) {
      ServerRoundTrip(r, k, m[k]);
    }
  }

  // ---------------------------------------------------------------- exactly when nothing merges

  ghost predicate NothingMerges(r: NameRewriter) {
    forall m | ServerLabels(r, m) :: KeyInjective(m, Restorer(r))
  }

  /** A name that a value rule renames is no renamed name. */
  lemma ValueRuleNameIsNotRenamed(r: NameRewriter, key: string)
    requires Coherent(r) && key in r.namesRename && '=' in key
    ensures '=' !in NamePart(key) && !IsPreserved(NamePart(key))
    ensures PlainLookup(r.namesRestore, r.prefixRestore, NamePart(key)).None?
  {
    assert GoodNameEntry(key, r.namesRename[key]);
  }

  /** A value rule and a pair without a value that restore to the same name, from different names. */
  lemma StrayValueRuleMerges(r: NameRewriter, key: string)
    requires Coherent(r) && key in r.namesRename && '=' in key
    requires NamePart(r.namesRename[key]) != PlainName(r.namesRename, r.prefixRename, NamePart(key))
    ensures !NothingMerges(r)
  {
    var a, b := NamePart(key), NamePart(r.namesRename[key]);
    var c := PlainName(r.namesRename, r.prefixRename, a);
    ValueRuleNameIsNotRenamed(r, key);
    RestoredByValueRule(r, key);
    PlainNameLeadsBack(r, a);
    PairMerges(r, b, Cut(r.namesRename[key], '=').after, c);
  }

  lemma PairMerges(r: NameRewriter, b: string, y: string, c: string)
    requires '=' !in b && '=' !in c && b != c && ServerDomain(r, b, y) && ServerDomain(r, c, "")
    requires Restore(r, b, y).0 == Restore(r, c, "").0
    ensures !NothingMerges(r)
  {
    var m := map[b := y, c := ""];
    assert ServerLabels(r, m);
    assert NewKey(m, Restorer(r), b) == NewKey(m, Restorer(r), c);
  }

  lemma RestoredByValueRule(r: NameRewriter, key: string)
    requires Coherent(r) && key in r.namesRename && '=' in key
    ensures var b, y := NamePart(r.namesRename[key]), Cut(r.namesRename[key], '=').after;
            '=' !in b && Restore(r, b, y).0 == NamePart(key) && ServerDomain(r, b, y)
  {
    var b, y := NamePart(r.namesRename[key]), Cut(r.namesRename[key], '=').after;
    assert GoodNameEntry(key, r.namesRename[key]);
    assert r.namesRename[key] == JoinKV(b, y);
    RenamedIsNeverOriginal(r, b, y);
  }

  lemma PlainNameLeadsBack(r: NameRewriter, a: string)
    requires Coherent(r) && '=' !in a && !IsPreserved(a) && PlainLookup(r.namesRestore, r.prefixRestore, a).None?
    ensures var c := PlainName(r.namesRename, r.prefixRename, a);
            '=' !in c && Restore(r, c, "") == (a, "") && ServerDomain(r, c, "")
  {
    var c := PlainName(r.namesRename, r.prefixRename, a);
    if PlainLookup(r.namesRename, r.prefixRename, a).Some? {
      PlainLookupInverts(r.namesRename, r.prefixRename, r.namesRestore, r.prefixRestore, a);
      RenamedIsNeverOriginal(r, c, "");
    }
  }

  /** Restoring never merges two server labels exactly when every value rule leads where its name leads. */
  lemma NothingMergesExactly(r: NameRewriter)
    requires Coherent(r)
    ensures NothingMerges(r) <==> NamesFollow(r)
  {
    if NamesFollow(r) {
      forall m | ServerLabels(r, m) ensures KeyInjective(m, Restorer(r)) { RestoreKeysDistinct(r, m); }
    } else {
      var k :| k in r.namesRename && '=' in k && NamePart(r.namesRename[k]) != PlainName(r.namesRename, r.prefixRename, NamePart(k));
      StrayValueRuleMerges(r, k);
    }
  }

  // ---------------------------------------------------------------- what a client writes

  /** A name that stays and its preserved form, both there. */
  predicate Twins(r: NameRewriter, keys: set<string>) {
    exists a, b | a in keys && b in keys :: AreTwins(r, a, b)
  }

  predicate AreTwins(r: NameRewriter, a: string, b: string) {
    b == PRESERVED + a && Rename(r, a, "").0 == a
  }

  lemma RenamedNameIsNeverOriginal(r: NameRewriter, name: string)
    requires Coherent(r) && '=' !in name && PlainLookup(r.namesRestore, r.prefixRestore, name).Some?
    ensures forall v :: !IsOriginal(r, name, v)
  {
    forall v ensures !IsOriginal(r, name, v) { RenamedIsNeverOriginal(r, name, v); }
  }

  /** A name with a name or prefix rule never stays, nor is it a renamed name. */
  lemma PlainNameMoves(r: NameRewriter, name: string)
    requires Coherent(r) && '=' !in name && PlainLookup(r.namesRename, r.prefixRename, name).Some?
    ensures var n := PlainLookup(r.namesRename, r.prefixRename, name).value;
            && n != name && !IsPreserved(name) && Rename(r, name, "").0 == n
            && PlainLookup(r.namesRestore, r.prefixRestore, n) == Some(name)
            && forall v :: !IsOriginal(r, n, v)
  {
    var n := PlainLookup(r.namesRename, r.prefixRename, name).value;
    RuledIsNotPreserved(r.namesRename, r.prefixRename, name, "");
    PlainLookupInverts(r.namesRename, r.prefixRename, r.namesRestore, r.prefixRestore, name);
    RenamedNameIsNeverOriginal(r, n);
    assert IsOriginal(r, name, "") && !IsOriginal(r, n, "");
  }

  /** Two client pairs reach the same server name only as twins. */
  lemma OnlyTwinsMeet(r: NameRewriter, j: string, v: string, k: string, w: string)
    requires Coherent(r) && NamesFollow(r) && '=' !in j && '=' !in k && j != k
    requires ClientDomain(r, j, v) && ClientDomain(r, k, w) && Rename(r, j, v).0 == Rename(r, k, w).0
    ensures AreTwins(r, j, k) || AreTwins(r, k, j)
  {
    NameFollows(r, j, v);
    NameFollows(r, k, w);
    if PlainLookup(r.namesRename, r.prefixRename, j).Some? {
      MovedNameMeetsNone(r, j, k, w);
    } else if PlainLookup(r.namesRename, r.prefixRename, k).Some? {
      MovedNameMeetsNone(r, k, j, v);
    }
    assert IsPreserved(j) ==> j == PRESERVED + TrimPrefix(j, PRESERVED);
    assert IsPreserved(k) ==> k == PRESERVED + TrimPrefix(k, PRESERVED);
  }

  lemma MovedNameMeetsNone(r: NameRewriter, j: string, k: string, w: string)
    requires Coherent(r) && '=' !in j && '=' !in k && PlainLookup(r.namesRename, r.prefixRename, j).Some?
    requires ClientDomain(r, k, w) && Rename(r, j, "").0 == Rename(r, k, "").0
    ensures j == k
  {
    PlainNameMoves(r, j);
    if !IsPreserved(k) && PlainLookup(r.namesRename, r.prefixRename, k).Some? {
      PlainNameMoves(r, k);
    }
  }

  lemma TwinsMeet(r: NameRewriter, a: string, v: string, w: string)
    requires NamesFollow(r) && '=' !in a && Rename(r, a, "").0 == a
    ensures Rename(r, a, v).0 == Rename(r, PRESERVED + a, w).0
  {
    NameFollows(r, a, v);
    TrimOfPrefixed(PRESERVED, a);
  }

  /** With value rules on top a preserved name never meets the name itself. */
  lemma OnTopHasNoTwins(r: NameRewriter, a: string, v: string)
    requires Coherent(r) && ValueRulesOnTop(r) && '=' !in a && ClientDomain(r, PRESERVED + a, v)
    ensures NamesFollow(r) && Rename(r, a, "").0 != a
  {
    TrimOfPrefixed(PRESERVED, a);
    SplitOfJoin(a, v);
    PlainNameMoves(r, a);
  }

  lemma RenameKeysDistinct(r: NameRewriter, m: map<string, string>)
    requires Coherent(r) && NamesFollow(r) && ClientLabels(r, m)
    ensures KeyInjective(m, Renamer(r)) <==> !Twins(r, m.Keys)
  {
    if Twins(r, m.Keys) {
      var a, b :| a in m.Keys && b in m.Keys && AreTwins(r, a, b);
      TwinsMeet(r, a, m[a], m[b]);
      assert NewKey(m, Renamer(r), a) == NewKey(m, Renamer(r), b) && a != b;
    } else {
      forall j, k | j in m && k in m && NewKey(m, Renamer(r), j) == NewKey(m, Renamer(r), k) ensures j == k {
        if j != k { OnlyTwinsMeet(r, j, m[j], k, m[k]); }
      }
    }
  }

  /**
    What a client writes it reads back, whatever the order either map was filled in, exactly when
    the map does not hold a name that stays together with its preserved form.
   */
  lemma WriteThenRead(r: NameRewriter, m: map<string, string>, sent: map<string, string>, seen: map<string, string>)
    requires Coherent(r) && NamesFollow(r) && ClientLabels(r, m)
    requires IsImage(m, Renamer(r), sent) && IsImage(sent, Restorer(r), seen)
    ensures seen == m <==> !Twins(r, m.Keys)
    ensures !Twins(r, m.Keys) ==> sent == RenameMap(r, m) && |sent| == |m|
  {
    RenameKeysDistinct(r, m);
    RenameUndone(r, m);
    if !Twins(r, m.Keys) {
      ImageIsUnique(m, Renamer(r), sent, RenameMap(r, m));
      ImageSize(m, Renamer(r), sent);
      ImageUndone(m, Renamer(r), Restorer(r), sent);
      ImageIsUnique(sent, Restorer(r), seen, m);
    } else if seen == m {
      UndoneMeansApart(m, Renamer(r), Restorer(r), sent);
    }
  }

  lemma RenameUndone(r: NameRewriter, m: map<string, string>)
    requires Coherent(r) && ClientLabels(r, m)
    ensures Undoes(m, Renamer(r), Restorer(r))
  {
    forall k | k in m ensures Restore(r, NewKey(m, Renamer(r), k), NewValue(m, Renamer(r), k)) == (k, m[k]) {
      ClientRoundTrip(r, k, m[k]);
    }
  }

  /** If a rewritten map can be rewritten back entry by entry, no two entries had met. */
  lemma UndoneMeansApart<V>(m: map<string, V>, f: Entry<V>, g: Entry<V>, out: map<string, V>)
    requires Undoes(m, f, g) && IsImage(m, f, out) && IsImage(out, g, m)
    ensures KeyInjective(m, f)
  {
    forall j, k | j in m && k in m && NewKey(m, f, j) == NewKey(m, f, k) ensures j == k {
      EntryIsItsOwnImage(m, f, g, out, j);
      EntryIsItsOwnImage(m, f, g, out, k);
    }
  }

  lemma EntryIsItsOwnImage<V>(m: map<string, V>, f: Entry<V>, g: Entry<V>, out: map<string, V>, k: string)
    requires Undoes(m, f, g) && IsImage(m, f, out) && IsImage(out, g, m) && k in m
    ensures NewKey(m, f, k) in out && g(NewKey(m, f, k), out[NewKey(m, f, k)]).0 == k
  {
    var k' :| Yields(out, g, k', k, m[k]);
    var j :| Yields(m, f, j, k', out[k']);
    SameSource(m, f, g, out, j, k', k);
  }

  lemma SameSource<V>(m: map<string, V>, f: Entry<V>, g: Entry<V>, out: map<string, V>, j: string, k': string, k: string)
    requires Undoes(m, f, g) && k' in out && Yields(m, f, j, k', out[k']) && k in m && Yields(out, g, k', k, m[k])
    ensures j == k
  {
    assert g(NewKey(m, f, j), NewValue(m, f, j)) == (j, m[j]);
  }

  // ---------------------------------------------------------------- a value rule that goes its own way

  /** The single value rule `a=x -> b=y`, with no rule for the name `a` itself. */
  function LoneValueRule(a: string, b: string, x: string, y: string): NameRewriter {
    NameRewriter(map[JoinKV(a, x) := JoinKV(b, y)], map[JoinKV(b, y) := JoinKV(a, x)], map[], map[])
  }

  lemma LoneHalfIsWellFormed(a: string, b: string, x: string, y: string)
    requires Simple(a) && Simple(b) && x != "" && y != ""
    ensures WellFormed(map[JoinKV(a, x) := JoinKV(b, y)], map[])
  {
    SplitOfJoin(a, x);
    SplitOfJoin(b, y);
    assert GoodNameEntry(JoinKV(a, x), JoinKV(b, y));
  }

  lemma LoneValueRuleIsCoherent(a: string, b: string, x: string, y: string)
    requires Simple(a) && Simple(b) && a != b && x != "" && y != ""
    ensures Coherent(LoneValueRule(a, b, x, y))
  {
    var r := LoneValueRule(a, b, x, y);
    LoneHalfIsWellFormed(a, b, x, y);
    LoneHalfIsWellFormed(b, a, y, x);
    SplitOfJoin(a, x);
    SplitOfJoin(b, y);
    assert b !in r.namesRename && JoinKV(b, y) !in r.namesRename;
    assert !IsOriginal(r, b, y);
  }

  lemma LoneValueRuleRestores(a: string, b: string, x: string, y: string, name: string, value: string)
    requires Simple(a) && Simple(b) && a != b && x != "" && y != "" && Simple(name) && (name, value) != (a, x)
    ensures var r := LoneValueRule(a, b, x, y);
            && Restore(r, name, value) == (if (name, value) == (b, y) then (a, x) else (name, value))
            && ServerDomain(r, name, value)
  {
    SplitOfJoin(a, x);
    SplitOfJoin(b, y);
    SplitOfJoin(name, value);
  }

  /** Then two server entries merge in the client's view, and which one survives depends on iteration order. */
  lemma LoneValueRulesMerge(a: string, b: string, x: string, y: string, z: string)
    requires Simple(a) && Simple(b) && a != b && x != "" && y != "" && z != x
    ensures var r, m := LoneValueRule(a, b, x, y), map[b := y, a := z];
            && Coherent(r) && ServerLabels(r, m)
            && IsImage(m, Restorer(r), map[a := x]) && IsImage(m, Restorer(r), map[a := z])
  {
    var r, m := LoneValueRule(a, b, x, y), map[b := y, a := z];
    LoneValueRuleIsCoherent(a, b, x, y);
    LoneValueRuleRestores(a, b, x, y, b, y);
    LoneValueRuleRestores(a, b, x, y, a, z);
    assert NewKey(m, Restorer(r), b) == a == NewKey(m, Restorer(r), a);
    assert Yields(m, Restorer(r), b, a, x) && Yields(m, Restorer(r), a, a, z);
  }
}
