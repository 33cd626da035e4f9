/** API endpoints: parsing a URL path, rewriting its names, printing it again. */
module Endpoints {
  import opened Text
  import opened RoundTrips
  import opened Rules
  import opened Arrays
  import opened Paths

  const CORE_PREFIX := "api"
  const APIS_PREFIX := "apis"
  const NAMESPACES := "namespaces"
  const CRD_GROUP := "apiextensions.k8s.io"
  const CRD_RESOURCE := "customresourcedefinitions"

  datatype Endpoint = Endpoint(
    isUnknown: bool, rawPath: string, isRoot: bool, prefix: string, isCore: bool,
    group: string, version: string, namespace: string, resourceType: string, name: string, subresource: string,
    remainder: seq<string>, isCRD: bool, crdResourceType: string, crdGroup: string, rawQuery: string)

  const EMPTY := Endpoint(false, "", false, "", false, "", "", "", "", "", "", [], false, "", "", "")

  // ---------------------------------------------------------------- parsing, as the source does it

  /** A slice that Shift consumes from the front through a pointer. */
  class PathItems {
    var items: seq<string>

    constructor (items: seq<string>)
      ensures this.items == items
    {
      this.items := items;
    }

    method Shift() returns (first: string, isLast: bool)
      modifies this
      ensures first == At(old(items), 0)
      ensures items == if old(items) == [] then [] else old(items)[1..]
      ensures isLast <==> |old(items)| <= 1
    {
      if |items| == 0 {
        return "", true;
      }
      first := items[0];
      items := items[1..];
      isLast := |items| == 0;
    }
  }

  function At(items: seq<string>, i: nat): string {
    if i < |items| then items[i] else ""
  }

  method ParseAPIsEndpoint(pathItems: seq<string>) returns (ae: Endpoint)
    requires pathItems != []
    ensures ae == ParsedApis(pathItems)
  {
    var cursor := new PathItems(pathItems);
    ae := EMPTY;
    var isLast: bool;
    var part: string;
    part, isLast := cursor.Shift();
    ae := ae.(prefix := part);
    if isLast { return; }
    part, isLast := cursor.Shift();
    ae := ae.(group := part);
    if isLast { return; }
    part, isLast := cursor.Shift();
    ae := ae.(version := part);
    if isLast { return; }
    assert cursor.items == pathItems[3..];
    part, isLast := cursor.Shift();
    ae := ae.(resourceType := part);
    if ae.group == CRD_GROUP && ae.resourceType == CRD_RESOURCE {
      ae := ae.(isCRD := true);
    }
    if isLast { return; }
    assert cursor.items == pathItems[4..];
    ae := ParseResource(cursor, ae, pathItems);
  }

  /** The part of the parser below the resource type. */
  method ParseResource(cursor: PathItems, head: Endpoint, ghost pathItems: seq<string>) returns (ae: Endpoint)
    requires |pathItems| > 4 && cursor.items == pathItems[4..] && head == ParsedApis(pathItems[..4])
    modifies cursor
    ensures ae == ParsedApis(pathItems)
  {
    ae := head;
    var part, isLast := cursor.Shift();
    ae := ae.(name := part);
    if ae.isCRD {
      var c := Cut(part, '.');
      ae := ae.(crdResourceType := c.before, crdGroup := c.after);
    }
    if isLast { return; }
    assert cursor.items == pathItems[5..];
    part, isLast := cursor.Shift();
    ae := ae.(subresource := part);
    if ae.resourceType == NAMESPACES {
      ae := ae.(namespace := ae.name, resourceType := ae.subresource, name := "", subresource := "");
    }
    if isLast { return; }
    assert cursor.items == pathItems[6..];
    part, isLast := cursor.Shift();
    ae := ae.(name := part);
    if isLast { return; }
    assert cursor.items == pathItems[7..];
    part, isLast := cursor.Shift();
    ae := ae.(subresource := part);
    if isLast { return; }
    assert cursor.items == pathItems[8..];
    ae := ae.(remainder := cursor.items);
  }

  // ---------------------------------------------------------------- parsing, by position

  predicate Namespaced(items: seq<string>) {
    |items| >= 6 && items[3] == NAMESPACES
  }

  /** What each segment of an /apis path means, by its position. */
  function ParsedApis(items: seq<string>): Endpoint {
    var n := |items|;
    var crd := n >= 4 && items[1] == CRD_GROUP && items[3] == CRD_RESOURCE;
    var c := Cut(At(items, 4), '.');
    var rest := if n > 8 then items[8..] else [];
    var base := EMPTY.(prefix := At(items, 0), group := At(items, 1), version := At(items, 2), remainder := rest,
                       isCRD := crd, crdResourceType := if crd then c.before else "", crdGroup := if crd then c.after else "");
    if Namespaced(items) then
      base.(namespace := items[4], resourceType := items[5], name := At(items, 6), subresource := At(items, 7))
    else
      base.(resourceType := At(items, 3), name := if n >= 7 then items[6] else At(items, 4),
            subresource := if n >= 8 then items[7] else At(items, 5))
  }

  /** ParseAPIEndpoint. Of a core path only the fact that it is one is kept. */
  function Parse(path: string, query: string): Endpoint {
    var items := Split(Trim(path, '/'), '/');
    var raw := EMPTY.(rawPath := path, rawQuery := query);
    if Trim(path, '/') == "" then raw.(isRoot := true)
    else if items[0] == CORE_PREFIX then raw.(isCore := true)
    else if items[0] == APIS_PREFIX then ParsedApis(items).(rawPath := path, rawQuery := query)
    else raw.(isUnknown := true)
  }

  // ---------------------------------------------------------------- printing

  function Parts(ep: Endpoint): seq<string> {
    [ep.prefix, ep.group, ep.version, if ep.namespace != "" then NAMESPACES + "/" + ep.namespace else "",
     ep.resourceType, ep.name, ep.subresource] + ep.remainder
  }

  function PathOf(ep: Endpoint): string {
    if ep.isRoot || ep.isCore || ep.isUnknown then ep.rawPath else "/" + Join(NonEmpty(Parts(ep)), "/")
  }

  method Path(ep: Endpoint) returns (path: string)
    ensures path == PathOf(ep)
  {
    if ep.isRoot || ep.isCore || ep.isUnknown {
      return ep.rawPath;
    }
    var ns := "";
    if ep.namespace != "" {
      ns := NAMESPACES + "/" + ep.namespace;
    }
    var parts := [ep.prefix, ep.group, ep.version, ns, ep.resourceType, ep.name, ep.subresource];
    if |ep.remainder| > 0 {
      parts := parts + ep.remainder;
    }
    assert parts == Parts(ep);
    var nonEmptyParts: seq<string> := [];
    for i := 0 to |parts|
      invariant nonEmptyParts == NonEmpty(parts[..i])
    {
      assert parts[..i + 1] == parts[..i] + [parts[i]];
      NonEmptyConcat(parts[..i], [parts[i]]);
      if parts[i] != "" {
        nonEmptyParts := nonEmptyParts + [parts[i]];
      }
    }
    assert parts[..|parts|] == parts;
    path := "/" + Join(nonEmptyParts, "/");
  }

  // ---------------------------------------------------------------- printing undoes parsing

  /** The printed segments, one by one: "namespaces/NAME" counts as two. */
  function Printed(ep: Endpoint): seq<string> {
    NonEmpty([ep.prefix, ep.group, ep.version])
    + (if ep.namespace != "" then [NAMESPACES, ep.namespace] else [])
    + NonEmpty([ep.resourceType, ep.name, ep.subresource] + ep.remainder)
  }

  lemma {:induction false} JoinSplitsPair(a: seq<string>, x: string, y: string, b: seq<string>)
    ensures Join(a + [x + "/" + y] + b, "/") == Join(a + [x, y] + b, "/")
  {
    if a == [] {
      assert a + [x + "/" + y] + b == [x + "/" + y] + b && a + [x, y] + b == [x, y] + b;
      assert ([x + "/" + y] + b)[1..] == b && ([x, y] + b)[1..] == [y] + b && ([y] + b)[1..] == b;
    } else {
      assert (a + [x + "/" + y] + b)[1..] == a[1..] + [x + "/" + y] + b;
      assert (a + [x, y] + b)[1..] == a[1..] + [x, y] + b;
      JoinSplitsPair(a[1..], x, y, b);
    }
  }

  lemma PathIsPrinted(ep: Endpoint)
    requires !ep.isRoot && !ep.isCore && !ep.isUnknown
    ensures PathOf(ep) == "/" + Join(Printed(ep), "/")
  {
    var a, b := [ep.prefix, ep.group, ep.version], [ep.resourceType, ep.name, ep.subresource] + ep.remainder;
    var ns := if ep.namespace != "" then NAMESPACES + "/" + ep.namespace else "";
    assert Parts(ep) == a + ([ns] + b);
    NonEmptyConcat(a, [ns] + b);
    NonEmptyConcat([ns], b);
    if ep.namespace != "" {
      assert NonEmpty([ns]) == [ns];
      assert NonEmpty(Parts(ep)) == NonEmpty(a) + [ns] + NonEmpty(b);
      JoinSplitsPair(NonEmpty(a), NAMESPACES, ep.namespace, NonEmpty(b));
    } else {
      assert NonEmpty(Parts(ep)) == Printed(ep);
    }
  }

  /** The paths whose every segment has a place in the endpoint. */
  predicate Printable(items: seq<string>) {
    "" !in items && (|items| <= 6 || items[3] == NAMESPACES)
  }

  lemma Pad(items: seq<string>, upTo: nat)
    requires "" !in items && |items| <= upTo
    ensures NonEmpty(seq(upTo, i requires 0 <= i < upTo => At(items, i))) == items
    decreases upTo
  {
    var padded := seq(upTo, i requires 0 <= i < upTo => At(items, i));
    var blanks := padded[|items|..];
    assert padded == items + blanks;
    NonEmptyConcat(items, blanks);
    NonEmptyOfFull(items);
    NonEmptyOfBlanks(blanks);
    assert items + [] == items;
  }

  lemma PadThree(items: seq<string>)
    requires "" !in items && |items| <= 3
    ensures NonEmpty([At(items, 0), At(items, 1), At(items, 2)]) == items
  {
    Pad(items, 3);
    assert seq(3, i requires 0 <= i < 3 => At(items, i)) == [At(items, 0), At(items, 1), At(items, 2)];
  }

  lemma PrintedOfNamespaced(items: seq<string>)
    requires Namespaced(items) && "" !in items
    ensures Printed(ParsedApis(items)) == items
  {
    var ep := ParsedApis(items);
    NonEmptyOfFull(items[..3]);
    assert [ep.prefix, ep.group, ep.version] == items[..3];
    var tail := items[5..];
    NamespacedTail(items, tail);
    assert items[4] in items;
    NamespacedSegments(items);
  }

  lemma NamespacedSegments(items: seq<string>)
    requires Namespaced(items)
    ensures items == items[..3] + [NAMESPACES, items[4]] + items[5..]
  {
  }

  lemma NamespacedTail(items: seq<string>, tail: seq<string>)
    requires Namespaced(items) && "" !in items && tail == items[5..]
    ensures var ep := ParsedApis(items); NonEmpty([ep.resourceType, ep.name, ep.subresource] + ep.remainder) == tail
  {
    var ep := ParsedApis(items);
    if |items| <= 8 {
      PadThree(tail);
      assert ep.remainder == [] && [ep.resourceType, ep.name, ep.subresource] == [At(tail, 0), At(tail, 1), At(tail, 2)];
      assert [ep.resourceType, ep.name, ep.subresource] + [] == [ep.resourceType, ep.name, ep.subresource];
    } else {
      NonEmptyOfFull(tail);
      assert [ep.resourceType, ep.name, ep.subresource] + ep.remainder == tail;
    }
  }

  lemma PrintedOfShort(items: seq<string>)
    requires 1 <= |items| <= 6 && !Namespaced(items) && "" !in items
    ensures Printed(ParsedApis(items)) == items
  {
    var ep := ParsedApis(items);
    var a, b := [ep.prefix, ep.group, ep.version], [ep.resourceType, ep.name, ep.subresource];
    Pad(items, 6);
    assert b + ep.remainder == b;
    assert a + b == seq(6, i requires 0 <= i < 6 => At(items, i));
    NonEmptyConcat(a, b);
    assert NonEmpty(a) + [] == NonEmpty(a);
  }

  lemma PrintedOfOther(items: seq<string>)
    requires 1 <= |items| && !Printable(items)
    ensures Printed(ParsedApis(items)) != items
  {
    var ep := ParsedApis(items);
    var a, b := [ep.prefix, ep.group, ep.version], [ep.resourceType, ep.name, ep.subresource] + ep.remainder;
    NonEmptyFacts(a);
    NonEmptyFacts(b);
    if "" !in items {
      assert !Namespaced(items) && |b| == if |items| > 8 then |items| - 5 else 3;
    } else {
      assert "" !in Printed(ep);
    }
  }

  lemma PrintedSegments(items: seq<string>)
    requires 1 <= |items|
    ensures Printed(ParsedApis(items)) == items <==> Printable(items)
  {
    if !Printable(items) {
      PrintedOfOther(items);
    } else if Namespaced(items) {
      PrintedOfNamespaced(items);
    } else {
      PrintedOfShort(items);
    }
  }

  lemma PrintedIsClean(items: seq<string>)
    requires items != [] && items[0] != "" && forall part | part in items :: '/' !in part
    ensures forall part | part in Printed(ParsedApis(items)) :: part != "" && '/' !in part
    ensures Printed(ParsedApis(items)) != []
  {
    var ep := ParsedApis(items);
    NonEmptyFacts([ep.prefix, ep.group, ep.version]);
    NonEmptyFacts([ep.resourceType, ep.name, ep.subresource] + ep.remainder);
    assert ep.prefix == items[0];
    assert forall part | part in [ep.prefix, ep.group, ep.version] :: '/' !in part;
    assert forall part | part in [ep.resourceType, ep.name, ep.subresource] + ep.remainder :: '/' !in part;
  }

  /**
    Printing undoes parsing, for every /apis path: the printed path is the path without the
    surrounding slashes behind one slash exactly when no segment is empty and the path is
    namespaced or ends at the subresource.
   */
  lemma PrintUndoesParse(path: string, query: string)
    requires Trim(path, '/') != "" && Split(Trim(path, '/'), '/')[0] == APIS_PREFIX
    ensures PathOf(Parse(path, query)) == "/" + Trim(path, '/') <==> Printable(Split(Trim(path, '/'), '/'))
  {
    var clean := Trim(path, '/');
    var items := Split(clean, '/');
    var ep := Parse(path, query);
    PathIsPrinted(ep);
    assert Printed(ep) == Printed(ParsedApis(items));
    JoinOfSplit(clean, '/');
    PrintedSegments(items);
    PrintedIsClean(items);
    if PathOf(ep) == "/" + clean {
      assert ("/" + clean)[1..] == ("/" + Join(Printed(ep), "/"))[1..];
      PartsOfJoin(Printed(ep), '/');
    }
  }

  // ---------------------------------------------------------------- rewriting

  /** What rewriting a query string gives; the query languages themselves are not represented. */
  datatype Queries = Queries(labelSelector: string -> string, crdFieldSelector: string -> Option<string>)

  function RewriteCrdEndpoint(rs: Rules, q: Queries, ep: Endpoint): Option<Endpoint> {
    if ep.crdGroup == "" && ep.crdResourceType == "" then
      match q.crdFieldSelector(ep.rawQuery) case Some(query) => Some(ep.(rawQuery := query)) case None => None
    else if ResourceRules(rs, ep.crdGroup, ep.crdResourceType).None? then None
    else
      var group, resource := RenameApiVersion(rs.groupIndex, ep.crdGroup), RenameResource(rs, ep.crdResourceType);
      Some(ep.(crdGroup := group, crdResourceType := resource, name := resource + "." + group))
  }

  function RewriteCrEndpoint(rs: Rules, ep: Endpoint): Option<Endpoint> {
    if ep.group == "" || ep.group !in rs.groups then None
    else if ep.resourceType != "" && ResourceRules(rs, ep.group, ep.resourceType).None? then None
    else
      var group := RenameApiVersion(rs.groupIndex, ep.group);
      var resource := if ep.resourceType != "" then RenameResource(rs, ep.resourceType) else "";
      if group == "" && resource == "" then None
      else Some(ep.(group := if group != "" then group else ep.group,
                    resourceType := if resource != "" then resource else ep.resourceType))
  }

  function RewriteAPIEndpoint(rs: Rules, q: Queries, ep: Endpoint): Option<Endpoint> {
    var names := if ep.isRoot || ep.isCore || ep.isUnknown then None
                 else if ep.isCRD then RewriteCrdEndpoint(rs, q, ep)
                 else RewriteCrEndpoint(rs, ep);
    var out := match names case Some(e) => e case None => ep;
    var query := q.labelSelector(out.rawQuery);
    if names.Some? || query != out.rawQuery then Some(out.(rawQuery := query)) else None
  }

  function TypeIndex(items: seq<string>): nat {
    if Namespaced(items) then 5 else 3
  }

  /** A path to CRDs; with a fifth segment it names one of them. */
  predicate IsCrdPath(items: seq<string>) {
    |items| >= 4 && items[1] == CRD_GROUP && items[3] == CRD_RESOURCE
  }

  /** The path names a ruled CRD, or a ruled group and, if any, a ruled resource of it. */
  predicate RuledPath(rs: Rules, items: seq<string>) {
    if IsCrdPath(items) then
      |items| >= 5 && var c := Cut(items[4], '.'); c.found && IsRuled(rs.groups, c.after, c.before)
    else
      |items| >= 2 && items[1] in rs.groups && (|items| > TypeIndex(items) ==> IsRuled(rs.groups, items[1], items[TypeIndex(items)]))
  }

  /** The path with its group and resource type renamed, all other segments kept. */
  function RenamedSegments(rs: Rules, items: seq<string>): seq<string>
    requires |items| >= 2 && items[1] in rs.groupIndex.idx
  {
    var t := TypeIndex(items);
    var items1 := items[1 := rs.groupIndex.idx[items[1]]];
    if |items| > t then items1[t := rs.resourceTypePrefix + items[t]] else items1
  }

  /** Where a ruled path leads: the CRD's name, or the group and resource type, and no other segment. */
  function RenamedPath(rs: Rules, items: seq<string>): seq<string>
    requires RuledPath(rs, items) && rs.groupIndex.idx.Keys == rs.groups.Keys
  {
    if IsCrdPath(items) then
      var c := Cut(items[4], '.');
      items[4 := rs.resourceTypePrefix + c.before + "." + rs.groupIndex.idx[c.after]]
    else RenamedSegments(rs, items)
  }

  /** The renamed path is still read the same way. */
  predicate StaysReadable(rs: Rules, items: seq<string>)
    requires |items| >= 2 && items[1] in rs.groupIndex.idx
  {
    var renamed := RenamedSegments(rs, items);
    && !(|items| >= 4 && renamed[1] == CRD_GROUP && renamed[3] == CRD_RESOURCE)
    && (|items| >= 4 && !Namespaced(items) ==> renamed[3] != NAMESPACES)
  }

  lemma RenamedSegmentsClean(rs: Rules, items: seq<string>)
    requires RenamesApart(rs) && CoherentResources(rs)
    requires |items| >= 2 && items[1] in rs.groups && Printable(items)
    requires forall part | part in items :: '/' !in part
    ensures forall part | part in RenamedSegments(rs, items) :: part != "" && '/' !in part
    ensures StaysReadable(rs, items) ==> Printable(RenamedSegments(rs, items))
    ensures |RenamedSegments(rs, items)| == |items| && RenamedSegments(rs, items)[0] == items[0]
  {
    var out := RenamedSegments(rs, items);
    forall i | 0 <= i < |out| ensures out[i] != "" && '/' !in out[i] {
      assert items[i] in items;
    }
  }

  /** The rewritten endpoint is what parsing the renamed segments gives. */
  lemma RewrittenIsParsed(rs: Rules, items: seq<string>)
    requires RenamesApart(rs) && |items| >= 2 && items[1] in rs.groups && Printable(items)
    requires StaysReadable(rs, items) && !ParsedApis(items).isCRD && '/' !in items[1]
    requires RewriteCrEndpoint(rs, ParsedApis(items)).Some?
    ensures RewriteCrEndpoint(rs, ParsedApis(items)) == Some(ParsedApis(RenamedSegments(rs, items)))
  {
    var ep, renamed := ParsedApis(items), RenamedSegments(rs, items);
    assert items[1] in items && items[0] in items;
    assert RenameApiVersion(rs.groupIndex, items[1]) == rs.groupIndex.Rename(items[1]) == rs.groupIndex.idx[items[1]];
    if |items| > TypeIndex(items) { assert items[TypeIndex(items)] in items; }
    assert Namespaced(renamed) == Namespaced(items);
    assert |items| > 8 ==> renamed[8..] == items[8..];
  }

  /** Rewriting a custom-resource endpoint changes only the group and resource type segments. */
  lemma CrThenReparse(rs: Rules, path: string, query: string, query': string)
    requires RenamesApart(rs) && CoherentResources(rs)
    requires Trim(path, '/') != ""
    requires var items := Split(Trim(path, '/'), '/');
             items[0] == APIS_PREFIX && Printable(items) && !IsCrdPath(items) && RuledPath(rs, items) && StaysReadable(rs, items)
    ensures var items := Split(Trim(path, '/'), '/');
            var out := RewriteCrEndpoint(rs, Parse(path, query));
            && out == Some(ParsedApis(RenamedSegments(rs, items)).(rawPath := path, rawQuery := query))
            && PathOf(out.value) == "/" + Join(RenamedSegments(rs, items), "/")
            && Parse(PathOf(out.value), query') == out.value.(rawPath := PathOf(out.value), rawQuery := query')
  {
    var items := Split(Trim(path, '/'), '/');
    var renamed := RenamedSegments(rs, items);
    assert items[1] in items;
    RenamedSegmentsClean(rs, items);
    RuledEndpoint(rs, items);
    RewrittenIsParsed(rs, items);
    var out := RewriteCrEndpoint(rs, Parse(path, query)).value;
    assert out == ParsedApis(renamed).(rawPath := path, rawQuery := query);
    ReparsePrinted(renamed, out, query');
  }

  /** Exactly the ruled paths of custom resources are rewritten. */
  lemma RuledEndpoint(rs: Rules, items: seq<string>)
    requires RenamesApart(rs) && CoherentResources(rs) && items != [] && "" !in items && (forall part | part in items :: '/' !in part)
    requires !IsCrdPath(items)
    ensures RewriteCrEndpoint(rs, ParsedApis(items)).Some? <==> RuledPath(rs, items)
  {
    if |items| >= 2 {
      assert items[1] in items && GroupOf(items[1]) == items[1];
      if |items| > TypeIndex(items) { assert items[TypeIndex(items)] in items; }
    }
  }

  lemma ReparsePrinted(items: seq<string>, ep: Endpoint, query: string)
    requires items != [] && items[0] == APIS_PREFIX && Printable(items)
    requires forall part | part in items :: part != "" && '/' !in part
    requires ep == ParsedApis(items).(rawPath := ep.rawPath, rawQuery := ep.rawQuery)
    ensures PathOf(ep) == "/" + Join(items, "/")
    ensures Parse(PathOf(ep), query) == ep.(rawPath := PathOf(ep), rawQuery := query)
  {
    PathIsPrinted(ep);
    assert Printed(ep) == Printed(ParsedApis(items));
    PrintedSegments(items);
    SegmentsOfPrinted(items);
    JoinEnds(items, '/');
  }

  /** A CRD path without a name; a lone dot reads as an empty resource of an empty group, which is taken for the same. */
  predicate NamesNoCrd(items: seq<string>)
    requires IsCrdPath(items)
  {
    |items| == 4 || items[4] == "."
  }

  /** Exactly the ruled CRDs have their paths rewritten. */
  lemma RuledCrdEndpoint(rs: Rules, q: Queries, items: seq<string>, ep: Endpoint)
    requires "" !in rs.groups && IsCrdPath(items) && !NamesNoCrd(items) && (forall part | part in items :: part != "" && '/' !in part)
    requires ep.crdResourceType == Cut(items[4], '.').before && ep.crdGroup == Cut(items[4], '.').after
    ensures RewriteCrdEndpoint(rs, q, ep).Some? <==> RuledPath(rs, items)
  {
    var c := Cut(items[4], '.');
    assert items[4] in items;
    assert '/' !in c.after && '/' !in c.before;
    assert GroupOf(c.after) == c.after && Cut(c.before, '/').before == c.before;
  }

  /** The same for the endpoint of a single CRD, where the name segment changes. */
  lemma CrdThenReparse(rs: Rules, q: Queries, path: string, query: string, query': string)
    requires RenamesApart(rs) && CoherentResources(rs)
    requires Trim(path, '/') != ""
    requires var items := Split(Trim(path, '/'), '/');
             items[0] == APIS_PREFIX && Printable(items) && IsCrdPath(items) && RuledPath(rs, items)
    ensures var items := Split(Trim(path, '/'), '/');
            var ep, out := Parse(path, query), RewriteCrdEndpoint(rs, q, Parse(path, query));
            && out.Some?
            && out.value == ep.(name := RenamedPath(rs, items)[4], crdResourceType := out.value.crdResourceType, crdGroup := out.value.crdGroup)
            && PathOf(out.value) == "/" + Join(RenamedPath(rs, items), "/")
            && Parse(PathOf(out.value), query') == out.value.(rawPath := PathOf(out.value), rawQuery := query')
  {
    var items := Split(Trim(path, '/'), '/');
    var ep := Parse(path, query);
    assert items[4] in items;
    var c := Cut(items[4], '.');
    assert '/' !in c.after && '/' !in c.before && GroupOf(c.after) == c.after && Cut(c.before, '/').before == c.before;
    CrdIsNamed(rs, q, ep, c.before, c.after);
    var out := RewriteCrdEndpoint(rs, q, ep).value;
    RenamedCrdName(rs, items[4], c.before, c.after);
    CrdReparse(items, ep, out, query');
  }

  lemma CrdIsNamed(rs: Rules, q: Queries, ep: Endpoint, plural: string, group: string)
    requires RenamesApart(rs) && ep.crdResourceType == plural && ep.crdGroup == group && plural != "" && IsRuled(rs.groups, group, plural)
    requires GroupOf(group) == group && Cut(plural, '/').before == plural
    ensures RewriteCrdEndpoint(rs, q, ep)
            == Some(ep.(crdGroup := rs.groupIndex.idx[group], crdResourceType := rs.resourceTypePrefix + plural,
                        name := rs.resourceTypePrefix + plural + "." + rs.groupIndex.idx[group]))
  {
    assert RenameApiVersion(rs.groupIndex, group) == rs.groupIndex.idx[group];
  }

  lemma CrdReparse(items: seq<string>, ep: Endpoint, out: Endpoint, query: string)
    requires |items| >= 5 && items[0] == APIS_PREFIX && Printable(items) && forall part | part in items :: part != "" && '/' !in part
    requires ep == ParsedApis(items).(rawPath := ep.rawPath, rawQuery := ep.rawQuery) && ep.isCRD
    requires out == ep.(name := out.name, crdResourceType := out.crdResourceType, crdGroup := out.crdGroup)
    requires out.name != "" && '/' !in out.name && Cut(out.name, '.') == CutResult(out.crdResourceType, out.crdGroup, true)
    ensures PathOf(out) == "/" + Join(items[4 := out.name], "/")
    ensures Parse(PathOf(out), query) == out.(rawPath := PathOf(out), rawQuery := query)
  {
    CrdSegment(items, out.name, out.crdResourceType, out.crdGroup);
    ReparsePrinted(items[4 := out.name], out, query);
  }

  lemma RenamedCrdName(rs: Rules, name: string, resource: string, group: string)
    requires RenamesApart(rs) && CoherentResources(rs) && '/' !in name && Cut(name, '.') == CutResult(resource, group, true)
    requires ResourceRules(rs, group, resource).Some?
    ensures var group', resource' := RenameApiVersion(rs.groupIndex, group), RenameResource(rs, resource);
            && Cut(resource' + "." + group', '.') == CutResult(resource', group', true)
            && '/' !in resource' + "." + group'
  {
    assert GroupOf(group) == group && group in rs.groups;
    CutOfJoin(RenameResource(rs, resource), '.', RenameApiVersion(rs.groupIndex, group));
  }

  lemma CrdSegment(items: seq<string>, name: string, resource: string, group: string)
    requires |items| >= 5 && Printable(items) && ParsedApis(items).isCRD && name != ""
    requires Cut(name, '.') == CutResult(resource, group, true)
    ensures ParsedApis(items[4 := name]) == ParsedApis(items).(name := name, crdResourceType := resource, crdGroup := group)
    ensures Printable(items[4 := name])
  {
    assert items[3] != NAMESPACES by { assert |CRD_RESOURCE| == 25 && |NAMESPACES| == 10; }
  }

  /**
    A ruled path, of a custom resource or a CRD, is rewritten to exactly the renamed path, with the
    query's label selector rewritten and nothing else. Parsed again it is the rewritten endpoint: same version,
    namespace, subresource and remainder, and the same name unless it is a CRD's.
   */
  lemma RewriteThenReparse(rs: Rules, q: Queries, path: string, query: string)
    requires RenamesApart(rs) && CoherentResources(rs) && Trim(path, '/') != ""
    requires var items := Split(Trim(path, '/'), '/');
             items[0] == APIS_PREFIX && Printable(items) && RuledPath(rs, items) && (!IsCrdPath(items) ==> StaysReadable(rs, items))
    ensures var items := Split(Trim(path, '/'), '/');
            var ep, out := Parse(path, query), RewriteAPIEndpoint(rs, q, Parse(path, query));
            && out.Some?
            && PathOf(out.value) == "/" + Join(RenamedPath(rs, items), "/") && out.value.rawQuery == q.labelSelector(query)
            && Parse(PathOf(out.value), out.value.rawQuery) == out.value.(rawPath := PathOf(out.value))
            && out.value.version == ep.version && out.value.namespace == ep.namespace && out.value.subresource == ep.subresource
            && out.value.remainder == ep.remainder && (!IsCrdPath(items) ==> out.value.name == ep.name)
  {
    var items := Split(Trim(path, '/'), '/');
    var ep, query' := Parse(path, query), q.labelSelector(query);
    if IsCrdPath(items) {
      CrdThenReparse(rs, q, path, query, query');
      QueryDoesNotPrint(RewriteCrdEndpoint(rs, q, ep).value, query');
    } else {
      CrThenReparse(rs, path, query, query');
      QueryDoesNotPrint(RewriteCrEndpoint(rs, ep).value, query');
      OtherSegmentsStay(rs, items);
    }
  }

  /** The path of one CRD, PLURAL.GROUP: prefixed plural, renamed group, all other segments kept. */
  lemma CrdPathRenamed(rs: Rules, q: Queries, path: string, query: string, plural: string, group: string)
    requires RenamesApart(rs) && CoherentResources(rs) && IsRuled(rs.groups, group, plural) && Trim(path, '/') != ""
    requires var items := Split(Trim(path, '/'), '/');
             |items| >= 5 && items[0] == APIS_PREFIX && Printable(items) && IsCrdPath(items) && items[4] == plural + "." + group
    ensures var out := RewriteAPIEndpoint(rs, q, Parse(path, query));
            && out.Some? && out.value.rawQuery == q.labelSelector(query)
            && PathOf(out.value)
               == "/" + Join(Split(Trim(path, '/'), '/')[4 := rs.resourceTypePrefix + plural + "." + rs.groupIndex.idx[group]], "/")
  {
    CutOfJoin(plural, '.', group);
    RewriteThenReparse(rs, q, path, query);
  }

  lemma OtherSegmentsStay(rs: Rules, items: seq<string>)
    requires RuledPath(rs, items) && !IsCrdPath(items) && rs.groupIndex.idx.Keys == rs.groups.Keys && StaysReadable(rs, items)
    ensures var ep, out := ParsedApis(items), ParsedApis(RenamedSegments(rs, items));
            && out.version == ep.version && out.namespace == ep.namespace && out.name == ep.name
            && out.subresource == ep.subresource && out.remainder == ep.remainder
  {
    var renamed := RenamedSegments(rs, items);
    assert Namespaced(renamed) == Namespaced(items);
    assert |items| > 8 ==> renamed[8..] == items[8..];
  }

  /** Paths without a rule keep all their segments; only their query may be rewritten. */
  lemma UnruledPathStays(rs: Rules, q: Queries, path: string, query: string)
    requires RenamesApart(rs) && CoherentResources(rs) && "" !in rs.groups && Trim(path, '/') != ""
    requires var items := Split(Trim(path, '/'), '/');
             items[0] == APIS_PREFIX && "" !in items && !RuledPath(rs, items) && (IsCrdPath(items) ==> !NamesNoCrd(items))
    ensures RewriteAPIEndpoint(rs, q, Parse(path, query))
            == if q.labelSelector(query) == query then None else Some(Parse(path, query).(rawQuery := q.labelSelector(query)))
  {
    var items := Split(Trim(path, '/'), '/');
    if IsCrdPath(items) {
      RuledCrdEndpoint(rs, q, items, Parse(path, query));
    } else {
      RuledEndpoint(rs, items);
    }
  }

  /** The list of CRDs: the path stays, and a field selector that the query rewriter knows is rewritten before the label selector. */
  lemma CrdListPathStays(rs: Rules, q: Queries, path: string, query: string)
    requires Trim(path, '/') != ""
    requires var items := Split(Trim(path, '/'), '/'); items[0] == APIS_PREFIX && IsCrdPath(items) && NamesNoCrd(items)
    ensures var ep, out := Parse(path, query), RewriteAPIEndpoint(rs, q, Parse(path, query));
            match q.crdFieldSelector(query)
            case Some(selected) => out == Some(ep.(rawQuery := q.labelSelector(selected)))
            case None => out == if q.labelSelector(query) == query then None else Some(ep.(rawQuery := q.labelSelector(query)))
  {
  }

  /** A path of slashes alone, or of nothing, is the root; no other is. */
  lemma RootExactly(path: string, query: string)
    ensures Parse(path, query).isRoot <==> AllAre(path, '/')
  {
    var before, after := TrimExactly(path, '/');
    if Trim(path, '/') != "" { assert path[|before|] == Trim(path, '/')[0]; }
    if Trim(path, '/') == "" { assert path == before + after; }
  }

  /** Root, core and unknown paths keep their path too. */
  lemma OtherPathsStay(rs: Rules, q: Queries, path: string, query: string)
    requires Trim(path, '/') == "" || Split(Trim(path, '/'), '/')[0] != APIS_PREFIX
    ensures RewriteAPIEndpoint(rs, q, Parse(path, query))
            == if q.labelSelector(query) == query then None else Some(Parse(path, query).(rawQuery := q.labelSelector(query)))
    ensures PathOf(Parse(path, query)) == path
  {
  }

  lemma QueryDoesNotPrint(ep: Endpoint, query: string)
    ensures PathOf(ep.(rawQuery := query)) == PathOf(ep)
  {
  }
}
