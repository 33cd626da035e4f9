/** JSON Pointer tokens (sections 3 and 4 of RFC 6901), coded by two ordered replace-all passes each way. */
module JsonPointer {

  /** strings.Replace(s, pattern, replacement, -1): leftmost, non-overlapping. */
  function ReplaceAll(s: string, pattern: string, replacement: string): string
    requires pattern != ""
  {
    if |s| < |pattern| then s
    else if s[..|pattern|] == pattern then replacement + ReplaceAll(s[|pattern|..], pattern, replacement)
    else [s[0]] + ReplaceAll(s[1..], pattern, replacement)
  }

  /** Slashes first, so that "~01" does not turn into a slash. */
  function Decode(token: string): string {
    ReplaceAll(ReplaceAll(token, "~1", "/"), "~0", "~")
  }

  /** Tildes first, so that the tilde of "~1" is not doubled. */
  function Encode(name: string): string {
    ReplaceAll(ReplaceAll(name, "~", "~0"), "/", "~1")
  }

  // ---------------------------------------------------------------- one character at a time

  function EscapeTildes(s: string): string {
    if s == "" then ""
    else (if s[0] == '~' then "~0" else [s[0]]) + EscapeTildes(s[1..])
  }

  function Escape(s: string): string {
    if s == "" then ""
    else (if s[0] == '~' then "~0" else if s[0] == '/' then "~1" else [s[0]]) + Escape(s[1..])
  }

  /** The token grammar of section 3: no slash, and a tilde only before 0 or 1. */
  predicate WellFormedToken(t: string) {
    t == "" ||
    if t[0] == '~' then |t| >= 2 && (t[1] == '0' || t[1] == '1') && WellFormedToken(t[2..])
    else t[0] != '/' && WellFormedToken(t[1..])
  }

  lemma EscapedTilde(rest: string)
    ensures ReplaceAll("~0" + rest, "/", "~1") == "~0" + ReplaceAll(rest, "/", "~1")
  {
    var t := "~0" + rest;
    assert t[..1] == "~" && t[1..][..1] == "0" && t[1..][1..] == rest;
    assert ReplaceAll(t[1..], "/", "~1") == ['0'] + ReplaceAll(rest, "/", "~1");
  }

  lemma {:induction false} EncodePasses(s: string)
    ensures ReplaceAll(s, "~", "~0") == EscapeTildes(s)
    ensures ReplaceAll(EscapeTildes(s), "/", "~1") == Escape(s)
  {
    if s != "" {
      EncodePasses(s[1..]);
      var rest := EscapeTildes(s[1..]);
      if s[0] == '~' {
        EscapedTilde(rest);
        assert s[..1] == "~";
      } else {
        var t := [s[0]] + rest;
        assert t[..1] == [s[0]] && t[1..] == rest && s[..1] == [s[0]];
      }
    }
  }

  lemma {:induction false} DecodePasses(s: string)
    ensures ReplaceAll(Escape(s), "~1", "/") == EscapeTildes(s)
    ensures ReplaceAll(EscapeTildes(s), "~0", "~") == s
  {
    if s != "" {
      DecodePasses(s[1..]);
      UnescapeSlash(s);
      UnescapeTilde(s);
    }
  }

  lemma SlashPassesTilde(rest: string)
    ensures ReplaceAll("~0" + rest, "~1", "/") == "~0" + ReplaceAll(rest, "~1", "/")
  {
    var t := "~0" + rest;
    assert t[..2] == "~0" && t[1..] == "0" + rest;
    StepOver('0', rest, "~1", "/");
    assert ReplaceAll(t, "~1", "/") == "~" + ReplaceAll(t[1..], "~1", "/");
  }

  lemma UnescapeSlash(s: string)
    requires s != "" && ReplaceAll(Escape(s[1..]), "~1", "/") == EscapeTildes(s[1..])
    ensures ReplaceAll(Escape(s), "~1", "/") == EscapeTildes(s)
  {
    var rest := Escape(s[1..]);
    if s[0] == '~' {
      SlashPassesTilde(rest);
    } else if s[0] == '/' {
      var t := "~1" + rest;
      assert t[..2] == "~1" && t[2..] == rest;
    } else {
      StepOver(s[0], rest, "~1", "/");
    }
  }

  lemma UnescapeTilde(s: string)
    requires s != "" && ReplaceAll(EscapeTildes(s[1..]), "~0", "~") == s[1..]
    ensures ReplaceAll(EscapeTildes(s), "~0", "~") == s
  {
    var rest := EscapeTildes(s[1..]);
    if s[0] == '~' {
      var t := "~0" + rest;
      assert t[..2] == "~0" && t[2..] == rest;
    } else {
      StepOver(s[0], rest, "~0", "~");
    }
  }

  lemma StepOver(c: char, rest: string, pattern: string, replacement: string)
    requires |pattern| == 2 && c != pattern[0]
    ensures ReplaceAll([c] + rest, pattern, replacement) == [c] + ReplaceAll(rest, pattern, replacement)
  {
    var t := [c] + rest;
    assert t[1..] == rest;
    if |t| >= 2 {
      assert t[..2][0] == c;
    } else {
      assert rest == "";
    }
  }

  // ---------------------------------------------------------------- the codec

  /** Every label or annotation name survives being put into a path and read back. */
  lemma DecodeUndoesEncode(s: string)
    ensures Decode(Encode(s)) == s
    ensures WellFormedToken(Encode(s))
  {
    EncodePasses(s);
    DecodePasses(s);
    EscapeIsWellFormed(s);
  }

  lemma {:induction false} EscapeIsWellFormed(s: string)
    ensures WellFormedToken(Escape(s))
  {
    if s != "" {
      EscapeIsWellFormed(s[1..]);
      var rest := Escape(s[1..]);
      assert ("~0" + rest)[2..] == rest && ("~1" + rest)[2..] == rest && ([s[0]] + rest)[1..] == rest;
    }
  }

  /** Encoding undoes decoding exactly on the tokens of the grammar. */
  lemma EncodeUndoesDecode(t: string)
    ensures Encode(Decode(t)) == t <==> WellFormedToken(t)
  {
    if WellFormedToken(t) {
      var s := WellFormedIsEscape(t);
      EncodePasses(s);
      DecodePasses(s);
    } else {
      DecodeUndoesEncode(Decode(t));
    }
  }

  lemma {:induction false} WellFormedIsEscape(t: string) returns (s: string)
    requires WellFormedToken(t)
    ensures t == Escape(s)
  {
    if t == "" {
      s := "";
    } else if t[0] == '~' {
      var rest := WellFormedIsEscape(t[2..]);
      s := [if t[1] == '0' then '~' else '/'] + rest;
      assert s[1..] == rest && t == t[..2] + t[2..];
    } else {
      var rest := WellFormedIsEscape(t[1..]);
      s := [t[0]] + rest;
      assert s[1..] == rest;
    }
  }
}
