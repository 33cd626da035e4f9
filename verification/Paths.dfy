/** Splitting a URL path into segments and joining segments again. */
module Paths {
  import opened Text
  import opened Arrays

  function Split(s: string, sep: char): (r: seq<string>)
    ensures |r| >= 1
    ensures forall part | part in r :: sep !in part
    decreases |s|
  {
    var c := Cut(s, sep);
    if !c.found then [s] else [c.before] + Split(c.after, sep)
  }

  lemma {:induction false} JoinOfSplit(s: string, sep: char)
    ensures Join(Split(s, sep), [sep]) == s
    decreases |s|
  {
    var c := Cut(s, sep);
    if c.found {
      JoinOfSplit(c.after, sep);
      var rest := Split(c.after, sep);
      assert ([c.before] + rest)[1..] == rest;
    }
  }

  lemma {:induction false} PartsOfJoin(parts: seq<string>, sep: char)
    requires parts != [] && forall part | part in parts :: sep !in part
    ensures Split(Join(parts, [sep]), sep) == parts
  {
    if |parts| > 1 {
      assert parts[0] in parts;
      PartsOfJoin(parts[1..], sep);
      CutOfJoin(parts[0], sep, Join(parts[1..], [sep]));
    } else {
      assert parts == [parts[0]] && parts[0] in parts;
    }
  }

  function TrimLeft(s: string, c: char): string {
    if s != "" && s[0] == c then TrimLeft(s[1..], c) else s
  }

  function TrimRight(s: string, c: char): string {
    if s != "" && s[|s| - 1] == c then TrimRight(s[..|s| - 1], c) else s
  }

  function Trim(s: string, c: char): string {
    TrimRight(TrimLeft(s, c), c)
  }

  lemma {:induction false} JoinEnds(parts: seq<string>, sep: char)
    requires parts != [] && forall part | part in parts :: part != "" && sep !in part
    ensures var s := Join(parts, [sep]); s != "" && s[0] != sep && s[|s| - 1] != sep
  {
    assert parts[0] in parts;
    if |parts| > 1 {
      forall part | part in parts[1..] ensures part in parts {}
      JoinEnds(parts[1..], sep);
    }
  }

  /** A path printed from segments is read back as those segments. */
  lemma SegmentsOfPrinted(parts: seq<string>)
    requires parts != [] && forall part | part in parts :: part != "" && '/' !in part
    ensures Trim("/" + Join(parts, "/"), '/') == Join(parts, "/")
    ensures Split(Trim("/" + Join(parts, "/"), '/'), '/') == parts
  {
    var s := Join(parts, "/");
    JoinEnds(parts, '/');
    PartsOfJoin(parts, '/');
    assert ("/" + s)[1..] == s;
    assert TrimLeft("/" + s, '/') == TrimLeft(s, '/') == s;
  }

  lemma {:induction false} TrimEnds(s: string, c: char)
    ensures TrimRight(s, c) != "" ==> TrimRight(s, c)[|TrimRight(s, c)| - 1] != c
    ensures TrimRight(s, c) <= s
    decreases |s|
  {
    if s != "" && s[|s| - 1] == c {
      TrimEnds(s[..|s| - 1], c);
    }
  }

  predicate AllAre(s: string, c: char) {
    forall i | 0 <= i < |s| :: s[i] == c
  }

  /** Only separators, and all of them, are taken off the two ends. */
  lemma TrimExactly(s: string, c: char) returns (before: string, after: string)
    ensures s == before + Trim(s, c) + after && AllAre(before, c) && AllAre(after, c)
    ensures Trim(s, c) == "" || (Trim(s, c)[0] != c && Trim(s, c)[|Trim(s, c)| - 1] != c)
  {
    before := TrimLeftExactly(s, c);
    after := TrimRightExactly(TrimLeft(s, c), c);
    assert before + (Trim(s, c) + after) == before + Trim(s, c) + after;
    if Trim(s, c) != "" { assert Trim(s, c)[0] == TrimLeft(s, c)[0]; }
  }

  lemma {:induction false} TrimLeftExactly(s: string, c: char) returns (before: string)
    ensures s == before + TrimLeft(s, c) && AllAre(before, c)
    ensures TrimLeft(s, c) != "" ==> TrimLeft(s, c)[0] != c
    decreases |s|
  {
    before := "";
    if s != "" && s[0] == c {
      before := TrimLeftExactly(s[1..], c);
      before := [c] + before;
      assert s == [c] + s[1..];
    }
  }

  lemma {:induction false} TrimRightExactly(s: string, c: char) returns (after: string)
    ensures s == TrimRight(s, c) + after && AllAre(after, c)
    ensures TrimRight(s, c) != "" ==> TrimRight(s, c)[|TrimRight(s, c)| - 1] != c
    decreases |s|
  {
    after := "";
    if s != "" && s[|s| - 1] == c {
      after := TrimRightExactly(s[..|s| - 1], c);
      after := after + [c];
      assert s == s[..|s| - 1] + [c];
    }
  }

  function NonEmpty(parts: seq<string>): seq<string> {
    if parts == [] then []
    else (if parts[0] == "" then [] else [parts[0]]) + NonEmpty(parts[1..])
  }

  lemma {:induction false} NonEmptyConcat(a: seq<string>, b: seq<string>)
    ensures NonEmpty(a + b) == NonEmpty(a) + NonEmpty(b)
  {
    if a == [] {
      assert a + b == b;
    } else {
      assert (a + b)[1..] == a[1..] + b;
      NonEmptyConcat(a[1..], b);
    }
  }

  lemma {:induction false} NonEmptyOfFull(parts: seq<string>)
    requires "" !in parts
    ensures NonEmpty(parts) == parts
  {
    if parts != [] {
      assert parts[0] in parts;
      NonEmptyOfFull(parts[1..]);
      assert parts == [parts[0]] + parts[1..];
    }
  }

  lemma {:induction false} NonEmptyFacts(parts: seq<string>)
    ensures "" !in NonEmpty(parts) && |NonEmpty(parts)| <= |parts|
    ensures forall part | part in NonEmpty(parts) :: part in parts
  {
    if parts != [] { NonEmptyFacts(parts[1..]); }
  }

  lemma {:induction false} NonEmptyOfBlanks(parts: seq<string>)
    requires forall part | part in parts :: part == ""
    ensures NonEmpty(parts) == []
  {
    if parts != [] {
      assert parts[0] in parts;
      forall part | part in parts[1..] ensures part == "" { assert part in parts; }
      NonEmptyOfBlanks(parts[1..]);
    }
  }
}
