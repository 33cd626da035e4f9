/** Label and annotation maps held as JSON: what the client sees under a key, in terms of what the server holds. */
module FieldMaps {
  import opened Text
  import opened NameRewriting
  import opened RoundTrips
  import opened LabelMaps
  import opened Visibility
  import opened Json
  import opened Transforms

  function ServerName(r: NameRewriter, key: string): string {
    Rename(r, key, "").0
  }

  function At(m: Fields, key: string): Option<Json> {
    if key in m then Some(m[key]) else None
  }

  /** The pair a client sees of the server's pair. */
  ghost function SeenPair(r: NameRewriter, name: string, v: Json): (string, Json) {
    JsonEntry(Rewriter(r, Restoring))(name, v)
  }

  ghost function ViewAt(r: NameRewriter, m: Fields, key: string): Option<Json> {
    var n := ServerName(r, key);
    if n in m && SeenPair(r, n, m[n]).0 == key then Some(SeenPair(r, n, m[n]).1) else None
  }

  /** view is what a client sees of m. */
  ghost predicate IsView(r: NameRewriter, m: Fields, view: Fields) {
    forall key :: At(view, key) == ViewAt(r, m, key)
  }

  lemma RestoredAt(r: NameRewriter, m: Fields, key: string)
    requires Coherent(r) && NamesFollow(r) && ServerFields(r, m)
    ensures At(RestoreFields(r, m), key) == ViewAt(r, m, key)
  {
    var f, out, n := JsonEntry(Rewriter(r, Restoring)), RestoreFields(r, m), ServerName(r, key);
    RestoreFieldsDistinct(r, m);
    if key in out {
      var j :| Yields(m, f, j, key, out[key]);
      RestoredNameLeadsBack(r, j, AsText(m[j]));
    }
    if n in m { ImageAt(m, f, out, n); }
  }

  lemma RestoredIsView(r: NameRewriter, m: Fields)
    requires Coherent(r) && NamesFollow(r) && ServerFields(r, m)
    ensures IsView(r, m, RestoreFields(r, m))
  {
    forall key ensures At(RestoreFields(r, m), key) == ViewAt(r, m, key) { RestoredAt(r, m, key); }
  }

  lemma SameAt(a: Fields, b: Fields)
    requires forall key :: At(a, key) == At(b, key)
    ensures a == b
  {
    forall key | key in a ensures key in b && a[key] == b[key] { assert At(a, key) == At(b, key); }
    forall key | key in b ensures key in a { assert At(a, key) == At(b, key); }
  }

  /** A client pair with the server pair that stands for it. */
  ghost predicate StandsFor(r: NameRewriter, key: string, v: Json, v': Json) {
    SeenPair(r, ServerName(r, key), v') == (key, v)
  }

  /** A pair of the client's domain, renamed with its value, stands for itself and is in the server's domain. */
  lemma RenamedStandsFor(r: NameRewriter, key: string, v: Json)
    requires Coherent(r) && NamesFollow(r) && StringOrNull(v) && '=' !in key && ClientDomain(r, key, AsText(v))
    ensures var (n, v') := JsonEntry(Rewriter(r, Renaming))(key, v);
            && n == ServerName(r, key) && '=' !in n && StringOrNull(v') && (v'.Null? <==> v.Null?)
            && StandsFor(r, key, v, v') && ServerDomain(r, n, AsText(v'))
  {
    ClientPairShows(r, key, AsText(v));
    EmptyValueStays(r, key);
    EntryUndone(Rewriter(r, Renaming), Rewriter(r, Restoring), key, v);
    assert AsText(Str(Rename(r, key, AsText(v)).1)) == Rename(r, key, AsText(v)).1;
  }
}
