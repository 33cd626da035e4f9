/** The few operations of Go's `strings` package that the rewriter is built from. */
module Text {
  datatype Option<+T> = None | Some(value: T)

  datatype CutResult = CutResult(before: string, after: string, found: bool)

  /** strings.Cut with a one-character separator: splits around its first occurrence. */
  function Cut(s: string, sep: char): (r: CutResult)
    ensures r.found <==> sep in s
    ensures r.found ==> s == r.before + [sep] + r.after
    ensures !r.found ==> r.before == s && r.after == ""
    ensures sep !in r.before
  {
    if s == "" then CutResult("", "", false)
    else if s[0] == sep then CutResult("", s[1..], true)
    else
      var r := Cut(s[1..], sep);
      CutResult([s[0]] + r.before, r.after, r.found)
  }

  /** Cut undoes joining, whatever follows the separator. */
  lemma {:induction false} CutOfJoin(before: string, sep: char, after: string)
    requires sep !in before
    ensures Cut(before + [sep] + after, sep) == CutResult(before, after, true)
  {
    var s := before + [sep] + after;
    if before != "" {
      assert s[1..] == before[1..] + [sep] + after;
      CutOfJoin(before[1..], sep, after);
    }
  }

  predicate HasPrefix(s: string, prefix: string) {
    prefix <= s
  }

  function TrimPrefix(s: string, prefix: string): (r: string)
    ensures HasPrefix(s, prefix) ==> s == prefix + r
    ensures !HasPrefix(s, prefix) ==> r == s
  {
    if HasPrefix(s, prefix) then s[|prefix|..] else s
  }

  predicate HasSuffix(s: string, suffix: string) {
    |suffix| <= |s| && s[|s| - |suffix|..] == suffix
  }

  function TrimSuffix(s: string, suffix: string): (r: string)
    ensures HasSuffix(s, suffix) ==> s == r + suffix
    ensures !HasSuffix(s, suffix) ==> r == s
  {
    if HasSuffix(s, suffix) then s[..|s| - |suffix|] else s
  }

  /** Trimming undoes prefixing: the one way a renamed kind, resource or short name is restored. */
  lemma TrimOfPrefixed(prefix: string, s: string)
    ensures HasPrefix(prefix + s, prefix) && TrimPrefix(prefix + s, prefix) == s
  {
  }
}
