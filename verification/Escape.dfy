/** HTML escaping, written twice in the repository: five nested SQL replacements and one pass in
    Rust. They are the same function, and it can be undone. */
module Escape {
  import opened Prelude
  import opened Text

  /** The escaped characters, in the order of the nested replacements, innermost first. */
  const SPECIALS := ['&', '<', '>', '"', '\'']
  const ENTITIES := ["&amp;", "&lt;", "&gt;", "&quot;", "&#39;"]

  function EscapeChar(c: char): string {
    match c
    case '&' => "&amp;"
    case '<' => "&lt;"
    case '>' => "&gt;"
    case '"' => "&quot;"
    case '\'' => "&#39;"
    case _ => [c]
  }

  function EscapeAll(s: string): string {
    if s == "" then "" else EscapeChar(s[0]) + EscapeAll(s[1..])
  }

  lemma {:induction false} EscapeAllConcat(a: string, b: string)
    ensures EscapeAll(a + b) == EscapeAll(a) + EscapeAll(b)
  {
    if a == "" {
      assert a + b == b;
    } else {
      assert (a + b)[1..] == a[1..] + b;
      EscapeAllConcat(a[1..], b);
    }
  }

  lemma EscapeSnoc(a: string, c: char)
    ensures EscapeAll(a + [c]) == EscapeAll(a) + EscapeChar(c)
  {
    EscapeAllConcat(a, [c]);
    assert [c][1..] == "" && EscapeAll([c]) == EscapeChar(c) + "";
  }

  /** The Rust version, for the developer error page. */
  method EscapeHtml(s: string) returns (out: string)
    ensures out == EscapeAll(s)
  {
    out := "";
    for i := 0 to |s|
      invariant out == EscapeAll(s[..i])
    {
      assert s[..i + 1] == s[..i] + [s[i]];
      EscapeSnoc(s[..i], s[i]);
      match s[i]
      case '&' => out := out + "&amp;";
      case '<' => out := out + "&lt;";
      case '>' => out := out + "&gt;";
      case '"' => out := out + "&quot;";
      case '\'' => out := out + "&#39;";
      case _ => out := out + [s[i]];
    }
    assert s[..|s|] == s;
  }

  /** The SQL version, for handlers. */
  function SqlHtmlEscape(s: string): string {
    Replace(Replace(Replace(Replace(Replace(s, "&", "&amp;"), "<", "&lt;"), ">", "&gt;"), "\"", "&quot;"), "'", "&#39;")
  }

  // ---- The two are one function ----

  /** Escapes only the first `n` special characters. */
  function EscapeFirst(c: char, n: nat): string
    requires n <= 5
  {
    if c in SPECIALS[..n] then EscapeChar(c) else [c]
  }

  function EscapeAllFirst(s: string, n: nat): string
    requires n <= 5
  {
    if s == "" then "" else EscapeFirst(s[0], n) + EscapeAllFirst(s[1..], n)
  }

  lemma {:induction false} ReplaceCharConcat(a: string, b: string, c: char, to: string)
    ensures Replace(a + b, [c], to) == Replace(a, [c], to) + Replace(b, [c], to)
  {
    if a == "" {
      assert a + b == b;
    } else {
      var x, t := a[0], a[1..];
      assert (a + b)[1..] == t + b && (a + b)[..1] == [x] && a[..1] == [x];
      ReplaceCharConcat(t, b, c, to);
      var ra, rb := Replace(t, [c], to), Replace(b, [c], to);
      assert to + (ra + rb) == to + ra + rb;
      assert [x] + (ra + rb) == [x] + ra + rb;
    }
  }

  lemma {:induction false} ReplaceAbsent(a: string, c: char, to: string)
    requires c !in a
    ensures Replace(a, [c], to) == a
  {
    if a != "" {
      assert a[..1] == [a[0]];
      ReplaceAbsent(a[1..], c, to);
    }
  }

  /** The entities introduced by the earlier replacements are left alone by the next one. */
  lemma NextReplacement(c: char, n: nat)
    requires n < 5
    ensures Replace(EscapeFirst(c, n), [SPECIALS[n]], ENTITIES[n]) == EscapeFirst(c, n + 1)
  {
    var from, to := SPECIALS[n], ENTITIES[n];
    assert SPECIALS[..n + 1] == SPECIALS[..n] + [from];
    if c == from {
      assert c !in SPECIALS[..n];
      assert [c][..1] == [c] && [c][1..] == "";
      assert Replace([c], [from], to) == to + "";
      assert EscapeChar(c) == to;
    } else {
      assert c in SPECIALS[..n] ==> from !in EscapeChar(c);
      ReplaceAbsent(EscapeFirst(c, n), from, to);
    }
  }

  lemma {:induction false} NextReplacementAll(s: string, n: nat)
    requires n < 5
    ensures Replace(EscapeAllFirst(s, n), [SPECIALS[n]], ENTITIES[n]) == EscapeAllFirst(s, n + 1)
  {
    if s != "" {
      NextReplacement(s[0], n);
      NextReplacementAll(s[1..], n);
      ReplaceCharConcat(EscapeFirst(s[0], n), EscapeAllFirst(s[1..], n), SPECIALS[n], ENTITIES[n]);
    }
  }

  lemma {:induction false} NoneEscaped(s: string)
    ensures EscapeAllFirst(s, 0) == s
  {
    if s != "" { NoneEscaped(s[1..]); }
  }

  lemma {:induction false} AllEscaped(s: string)
    ensures EscapeAllFirst(s, 5) == EscapeAll(s)
  {
    if s != "" {
      assert SPECIALS[..5] == SPECIALS;
      AllEscaped(s[1..]);
    }
  }

  lemma SqlEscapeIsRustEscape(s: string)
    ensures SqlHtmlEscape(s) == EscapeAll(s)
  {
    NoneEscaped(s);
    NextReplacementAll(s, 0);
    NextReplacementAll(s, 1);
    NextReplacementAll(s, 2);
    NextReplacementAll(s, 3);
    NextReplacementAll(s, 4);
    AllEscaped(s);
  }

  // ---- Escaping can be undone ----

  function Unescape(t: string): string
    decreases |t|
  {
    if t == "" then ""
    else if StartsWith(t, "&amp;") then "&" + Unescape(t[5..])
    else if StartsWith(t, "&lt;") then "<" + Unescape(t[4..])
    else if StartsWith(t, "&gt;") then ">" + Unescape(t[4..])
    else if StartsWith(t, "&quot;") then "\"" + Unescape(t[6..])
    else if StartsWith(t, "&#39;") then "'" + Unescape(t[5..])
    else [t[0]] + Unescape(t[1..])
  }

  lemma UnescapeEntity(c: char, rest: string)
    ensures Unescape(EscapeChar(c) + rest) == [c] + Unescape(rest)
  {
    var e := EscapeChar(c);
    var t := e + rest;
    assert t[..|e|] == e && t[|e|..] == rest;
    if c in SPECIALS {
      assert t[1] == e[1];
      assert |t| >= 4 && t[..4][1] == t[1];
      assert |t| >= 5 ==> t[..5][1] == t[1];
      assert |t| >= 6 ==> t[..6][1] == t[1];
    } else {
      assert t[0] == c;
      assert forall n :: 0 < n <= |t| ==> t[..n][0] == c;
    }
  }

  lemma {:induction false} UnescapeInverts(s: string)
    ensures Unescape(EscapeAll(s)) == s
  {
    if s != "" {
      UnescapeEntity(s[0], EscapeAll(s[1..]));
      UnescapeInverts(s[1..]);
      assert [s[0]] + s[1..] == s;
    }
  }

  lemma EscapeIsInjective(s: string, t: string)
    requires SqlHtmlEscape(s) == SqlHtmlEscape(t)
    ensures s == t
  {
    SqlEscapeIsRustEscape(s);
    SqlEscapeIsRustEscape(t);
    UnescapeInverts(s);
    UnescapeInverts(t);
  }

  // ---- The result is safe to embed ----

  predicate BeginsEntity(t: string, i: int) {
    exists e :: e in ENTITIES && OccursAt(t, e, i)
  }

  /** No markup character is left, and every ampersand begins one of the five entities. */
  predicate IsSafe(t: string) {
    forall i :: 0 <= i < |t| ==>
      t[i] != '<' && t[i] != '>' && t[i] != '"' && t[i] != '\'' && (t[i] == '&' ==> BeginsEntity(t, i))
  }

  lemma EscapedCharIsSafe(c: char)
    ensures IsSafe(EscapeChar(c))
  {
    var e := EscapeChar(c);
    if c in SPECIALS {
      assert e in ENTITIES by { assert ENTITIES[0] == "&amp;" && ENTITIES[1] == "&lt;" && ENTITIES[2] == "&gt;"
                                     && ENTITIES[3] == "&quot;" && ENTITIES[4] == "&#39;"; }
      assert e[0..|e|] == e && OccursAt(e, e, 0) && BeginsEntity(e, 0);
      assert forall i :: 0 < i < |e| ==> e[i] != '&';
    }
  }

  lemma SafeConcat(a: string, b: string)
    requires IsSafe(a) && IsSafe(b)
    ensures IsSafe(a + b)
  {
    var t := a + b;
    forall i | 0 <= i < |t| && t[i] == '&' ensures BeginsEntity(t, i) {
      if i < |a| { EntityInFront(a, b, i); } else { EntityBehind(a, b, i - |a|); }
    }
  }

  lemma EntityInFront(a: string, b: string, i: nat)
    requires BeginsEntity(a, i)
    ensures BeginsEntity(a + b, i)
  {
    var e :| e in ENTITIES && OccursAt(a, e, i);
    assert (a + b)[i..i + |e|] == a[i..i + |e|];
    assert OccursAt(a + b, e, i);
  }

  lemma EntityBehind(a: string, b: string, i: nat)
    requires BeginsEntity(b, i)
    ensures BeginsEntity(a + b, |a| + i)
  {
    var e :| e in ENTITIES && OccursAt(b, e, i);
    assert (a + b)[|a| + i..|a| + i + |e|] == b[i..i + |e|];
    assert OccursAt(a + b, e, |a| + i);
  }

  lemma {:induction false} EscapedIsSafe(s: string)
    ensures IsSafe(EscapeAll(s))
  {
    if s != "" {
      EscapedCharIsSafe(s[0]);
      EscapedIsSafe(s[1..]);
      SafeConcat(EscapeChar(s[0]), EscapeAll(s[1..]));
    }
  }

  // ---- Escaping twice ----

  lemma {:induction false} EscapeGrows(s: string)
    ensures |EscapeAll(s)| >= |s|
    ensures (exists c :: c in SPECIALS && c in s) ==> |EscapeAll(s)| > |s|
    ensures !(exists c :: c in SPECIALS && c in s) ==> EscapeAll(s) == s
  {
    if s != "" {
      EscapeGrows(s[1..]);
      assert s == [s[0]] + s[1..];
      assert s[0] !in SPECIALS ==> EscapeChar(s[0]) == [s[0]];
      assert forall c :: c in s <==> c == s[0] || c in s[1..];
    }
  }

  /** Not idempotent, by design: escaping again changes the text iff there was something to
      escape. */
  lemma EscapingTwiceIsHarmlessIffNothingToEscape(s: string)
    ensures EscapeAll(EscapeAll(s)) == EscapeAll(s) <==> forall c :: c in s ==> c !in SPECIALS
  {
    EscapeGrows(s);
    if EscapeAll(EscapeAll(s)) == EscapeAll(s) {
      UnescapeInverts(s);
      UnescapeInverts(EscapeAll(s));
    }
  }
}
