/** `finalize_statement` of the offline checker: which buffers are statements, and which statements
    bypass the SQL parser. */
module SqlClassify {
  import opened Prelude
  import opened Text

  /** `isTrusted` statements bypass the SQL parser. */
  datatype SqlStatement = SqlStatement(text: string, isTrusted: bool)

  // ---- Classification ----

  /** What the stripping loop finds at the front of its probe: no comment, one that never ends,
      or one whose last character is the `n`th. */
  datatype Opening = NoComment | Endless | EndsAfter(n: nat)

  /** The search for the end of a block comment starts at its own opening, as in the source. */
  function OpeningOf(q: string): (o: Opening)
    ensures o.EndsAfter? ==> 1 < o.n <= |q|
    ensures !o.NoComment? ==> q != "" && !IsWhitespace(q[0])
  {
    if StartsWith(q, "--") then
      match Find(q, "\n")
      case Some(nl) => EndsAfter(nl + 1)
      case None => Endless
    else if StartsWith(q, "/*") then
      match Find(q, "*/")
      case Some(end) => EndsAfter(end + 2)
      case None => Endless
    else NoComment
  }

  /** Drops leading whitespace and comments; "" when a comment never ends. */
  function StripLead(p: string): (r: string)
    ensures IsStripped(r)
    decreases |p|, 1
  {
    StripComment(TrimStart(p))
  }

  function StripComment(q: string): (r: string)
    requires q == "" || !IsWhitespace(q[0])
    ensures IsStripped(r)
    decreases |q|, 0
  {
    match OpeningOf(q)
    case NoComment => q
    case Endless => ""
    case EndsAfter(n) => StripLead(q[n..])
  }

  predicate IsStripped(r: string) {
    r == "" || (!IsWhitespace(r[0]) && OpeningOf(r) == NoComment)
  }

  /** `str::split_whitespace`. */
  function Tokens(s: string): seq<string> { TokensFrom(s, 0) }

  function TokensFrom(s: string, i: nat): seq<string>
    requires i <= |s|
    decreases |s| - i
  {
    var a := SpaceEnd(s, i);
    if a == |s| then []
    else
      var e := WordEnd(s, a + 1);
      [s[a..e]] + TokensFrom(s, e)
  }

  function SpaceEnd(s: string, i: nat): (e: nat)
    requires i <= |s|
    ensures i <= e <= |s|
    decreases |s| - i
  {
    if i == |s| || !IsWhitespace(s[i]) then i else SpaceEnd(s, i + 1)
  }

  function WordEnd(s: string, i: nat): (e: nat)
    requires i <= |s|
    ensures i <= e <= |s|
    decreases |s| - i
  {
    if i == |s| || IsWhitespace(s[i]) then i else WordEnd(s, i + 1)
  }

  predicate IsTrusted(probe: string) { TrustedWords(Tokens(ToAsciiLowercase(probe))) }

  predicate TrustedWords(tokens: seq<string>) {
    (|tokens| >= 2 && tokens[0] == "comment" && tokens[1] == "on")
    || (|tokens| >= 2 && tokens[0] == "create" && tokens[1] == "extension")
    || (|tokens| >= 2 && tokens[0] == "create" && tokens[1] == "index")
    || (|tokens| >= 3 && tokens[0] == "create" && tokens[1] == "unique" && tokens[2] == "index")
  }

  /** What is left of a buffer once surrounding whitespace and leading comments are gone. */
  function Probe(text: string): string {
    StripLead(Trim(text))
  }

  function Classify(text: string): Option<SqlStatement> {
    var probe := Probe(text);
    if probe == "" then None else Some(SqlStatement(text, IsTrusted(probe)))
  }

  lemma TrimStartTwice(p: string)
    ensures TrimStart(TrimStart(p)) == TrimStart(p)
  {
  }

  lemma StripLeadIgnoresLeadingSpace(p: string)
    ensures StripLead(TrimStart(p)) == StripLead(p)
  {
    TrimStartTwice(p);
  }

  /** After trimming, text that opens with no comment is what is looked for. */
  lemma StripAtText(p: string)
    requires OpeningOf(TrimStart(p)).NoComment?
    ensures StripLead(p) == TrimStart(p) == TrimStart(TrimStart(p))
  {
    TrimStartTwice(p);
  }

  lemma StripAtEndless(p: string)
    requires OpeningOf(TrimStart(p)).Endless?
    ensures StripLead(p) == "" == StripLead("") && p != ""
  {
    NothingStripsToNothing();
  }

  lemma StripAtOpening(p: string)
    requires OpeningOf(TrimStart(p)).EndsAfter?
    ensures StripLead(p) == StripLead(TrimStart(p)[OpeningOf(TrimStart(p)).n..])
  {
  }

  lemma NothingStripsToNothing()
    ensures StripLead("") == ""
  {
    assert TrimStart("") == "";
  }

  /** One turn of the probe loop, and whether there is to be another. */
  method ProbeTurn(before: string) returns (probe: string, again: bool)
    ensures again ==> StripLead(probe) == StripLead(before) && |probe| < |before|
    ensures !again ==> TrimStart(probe) == StripLead(before)
  {
    probe := TrimStart(before);
    match OpeningOf(probe)
    case EndsAfter(n) =>
      StripAtOpening(before);
      return probe[n..], true;
    case Endless =>
      StripAtEndless(before);
      return "", true;
    case NoComment =>
      StripAtText(before);
      return probe, false;
  }

  /** The probe loop of `finalize_statement`. */
  method StripLeadingComments(trimmed: string) returns (probe: string)
    ensures probe == StripLead(trimmed)
  {
    probe := trimmed;
    var again := true;
    while again
      invariant again ==> StripLead(probe) == StripLead(trimmed)
      invariant !again ==> TrimStart(probe) == StripLead(trimmed)
      decreases again, |probe|
    {
      probe, again := ProbeTurn(probe);
    }
    probe := TrimStart(probe);
  }

  method FinalizeStatement(text: string) returns (r: Option<SqlStatement>)
    ensures r == Classify(text)
    ensures r.Some? <==> Probe(text) != ""
    ensures r.Some? ==> r.value.text == text && (r.value.isTrusted <==> ReadsTrusted(ToAsciiLowercase(Probe(text))))
  {
    if Probe(text) != "" { TrustedIff(Probe(text)); }
    var trimmed := Trim(text);
    var probe := StripLeadingComments(trimmed);
    NothingStripsToNothing();
    if trimmed == "" || probe == "" {
      return None;
    }
    return Some(SqlStatement(text, IsTrusted(probe)));
  }

  // ---- What is trusted ----

  /** A run of whitespace between two words. */
  predicate IsGap(s: string) { s != "" && forall i :: 0 <= i < |s| ==> IsWhitespace(s[i]) }

  /** The text begins with these words: a gap between one and the next, and behind the last
      whitespace or the end. */
  ghost predicate BeginsWithWords(q: string, words: seq<string>)
    decreases |words|
  {
    if words == [] then q == "" || IsWhitespace(q[0])
    else if |words| == 1 then exists rest :: q == words[0] + rest && BeginsWithWords(rest, [])
    else exists gap, rest :: q == words[0] + gap + rest && IsGap(gap) && BeginsWithWords(rest, words[1..])
  }

  /** The statements that bypass the parser, in lower case. */
  ghost predicate ReadsTrusted(q: string) {
    BeginsWithWords(q, ["comment", "on"]) || BeginsWithWords(q, ["create", "extension"])
    || BeginsWithWords(q, ["create", "index"]) || BeginsWithWords(q, ["create", "unique", "index"])
  }

  predicate IsWord(w: string) { w != "" && forall k :: 0 <= k < |w| ==> !IsWhitespace(w[k]) }

  predicate AreWords(words: seq<string>) {
    forall i :: 0 <= i < |words| ==> IsWord(words[i])
  }

  lemma {:induction false} SpaceEndIs(s: string, i: nat, e: nat)
    requires i <= e <= |s| && (forall k :: i <= k < e ==> IsWhitespace(s[k])) && (e < |s| ==> !IsWhitespace(s[e]))
    ensures SpaceEnd(s, i) == e
    decreases e - i
  {
    if i < e { SpaceEndIs(s, i + 1, e); }
  }

  lemma {:induction false} WordEndIs(s: string, i: nat, e: nat)
    requires i <= e <= |s| && (forall k :: i <= k < e ==> !IsWhitespace(s[k])) && (e < |s| ==> IsWhitespace(s[e]))
    ensures WordEnd(s, i) == e
    decreases e - i
  {
    if i < e { WordEndIs(s, i + 1, e); }
  }

  /** The first token after position `i` is the word from `a` to `e`. */
  lemma TokenAt(s: string, i: nat, a: nat, e: nat)
    requires i <= a < e <= |s| && (forall k :: i <= k < a ==> IsWhitespace(s[k]))
    requires (forall k :: a <= k < e ==> !IsWhitespace(s[k])) && (e < |s| ==> IsWhitespace(s[e]))
    ensures TokensFrom(s, i) == [s[a..e]] + TokensFrom(s, e)
  {
    SpaceEndIs(s, i, a);
    WordEndIs(s, a + 1, e);
  }

  lemma {:induction false} SpaceEndMeaning(s: string, i: nat)
    requires i <= |s|
    ensures var e := SpaceEnd(s, i);
            (forall k :: i <= k < e ==> IsWhitespace(s[k])) && (e < |s| ==> !IsWhitespace(s[e]))
    decreases |s| - i
  {
    if i < |s| && IsWhitespace(s[i]) { SpaceEndMeaning(s, i + 1); }
  }

  lemma {:induction false} WordEndMeaning(s: string, i: nat)
    requires i <= |s|
    ensures var e := WordEnd(s, i);
            (forall k :: i <= k < e ==> !IsWhitespace(s[k])) && (e < |s| ==> IsWhitespace(s[e]))
    decreases |s| - i
  {
    if i < |s| && !IsWhitespace(s[i]) { WordEndMeaning(s, i + 1); }
  }

  lemma FirstWordBegins(q: string, words: seq<string>)
    requires words != [] && AreWords(words) && BeginsWithWords(q, words)
    ensures q != "" && !IsWhitespace(q[0]) && words[0] <= q
  {
    if |words| == 1 {
      var rest :| q == words[0] + rest && BeginsWithWords(rest, []);
    } else {
      var gap, rest :| q == words[0] + gap + rest && IsGap(gap) && BeginsWithWords(rest, words[1..]);
    }
    assert q[0] == words[0][0];
  }

  lemma OneWord(q: string, w: string, rest: string)
    requires q == w + rest && BeginsWithWords(rest, [])
    ensures BeginsWithWords(q, [w])
  {
  }

  lemma MoreWords(q: string, words: seq<string>, gap: string, rest: string)
    requires |words| > 1 && q == words[0] + gap + rest && IsGap(gap) && BeginsWithWords(rest, words[1..])
    ensures BeginsWithWords(q, words)
  {
  }

  /** The first token, and where the others are read from. */
  lemma FirstToken(s: string, i: nat, words: seq<string>) returns (a: nat, e: nat)
    requires i <= |s| && words != [] && words <= TokensFrom(s, i)
    ensures i <= a == SpaceEnd(s, i) < e <= |s| && (e < |s| ==> IsWhitespace(s[e]))
    ensures words[0] == s[a..e] && words[1..] <= TokensFrom(s, e)
  {
    a := SpaceEnd(s, i);
    e := WordEnd(s, a + 1);
    WordEndMeaning(s, a + 1);
    var tokens := TokensFrom(s, e);
    assert TokensFrom(s, i) == [s[a..e]] + tokens;
    assert words == ([s[a..e]] + tokens)[..|words|];
  }

  lemma {:induction false} TokensAreWords(s: string, i: nat, a: nat, words: seq<string>)
    requires i <= |s| && a == SpaceEnd(s, i) && words != [] && words <= TokensFrom(s, i)
    ensures BeginsWithWords(s[a..], words)
    decreases |words|
  {
    var _, e := FirstToken(s, i, words);
    if |words| == 1 {
      LastWordBegins(s, a, e, words);
    } else {
      var b := GapAfter(s, e, words[1..]);
      TokensAreWords(s, e, b, words[1..]);
      WordThenGap(s, a, e, b, words);
    }
  }

  lemma LastWordBegins(s: string, a: nat, e: nat, words: seq<string>)
    requires a < e <= |s| && (e < |s| ==> IsWhitespace(s[e])) && |words| == 1 && words[0] == s[a..e]
    ensures BeginsWithWords(s[a..], words)
  {
    assert words == [words[0]];
    assert s[a..] == words[0] + s[e..];
    OneWord(s[a..], words[0], s[e..]);
  }

  lemma GapAfter(s: string, e: nat, words: seq<string>) returns (b: nat)
    requires e <= |s| && (e < |s| ==> IsWhitespace(s[e])) && words != [] && words <= TokensFrom(s, e)
    ensures e < b == SpaceEnd(s, e) <= |s| && IsGap(s[e..b])
  {
    var end;
    b, end := FirstToken(s, e, words);
    SpaceEndMeaning(s, e);
  }

  lemma WordThenGap(s: string, a: nat, e: nat, b: nat, words: seq<string>)
    requires a < e < b <= |s| && |words| > 1 && words[0] == s[a..e] && IsGap(s[e..b])
    requires BeginsWithWords(s[b..], words[1..])
    ensures BeginsWithWords(s[a..], words)
  {
    assert s[a..] == words[0] + s[e..b] + s[b..];
    MoreWords(s[a..], words, s[e..b], s[b..]);
  }

  lemma {:induction false} WordsAreTokens(s: string, i: nat, a: nat, words: seq<string>)
    requires i <= |s| && a == SpaceEnd(s, i) && words != [] && AreWords(words) && BeginsWithWords(s[a..], words)
    ensures words <= TokensFrom(s, i)
    decreases |words|
  {
    var e := WordThere(s, i, a, words);
    if |words| == 1 {
      assert words == [words[0]];
    } else {
      var b := NextWordThere(s, a, e, words);
      WordsAreTokens(s, e, b, words[1..]);
      assert words == [words[0]] + words[1..];
    }
  }

  lemma NextWordThere(s: string, a: nat, e: nat, words: seq<string>) returns (b: nat)
    requires a <= e <= |s| && |words| > 1 && e == a + |words[0]| && AreWords(words) && BeginsWithWords(s[a..], words)
    ensures b == SpaceEnd(s, e) && BeginsWithWords(s[b..], words[1..])
  {
    b := SpaceEnd(s, e);
    var gap, rest :| s[a..] == words[0] + gap + rest && IsGap(gap) && BeginsWithWords(rest, words[1..]);
    assert s[e..] == s[a..][|words[0]|..] == gap + rest;
    GapEnds(s, e, gap, rest, words[1..]);
  }

  /** The first word is the first token. */
  lemma WordThere(s: string, i: nat, a: nat, words: seq<string>) returns (e: nat)
    requires i <= |s| && a == SpaceEnd(s, i) && words != [] && AreWords(words) && BeginsWithWords(s[a..], words)
    ensures e == a + |words[0]| <= |s| && TokensFrom(s, i) == [words[0]] + TokensFrom(s, e)
  {
    var q, w := s[a..], words[0];
    e := a + |w|;
    FirstWordBegins(q, words);
    WordEndsThere(q, words);
    SpaceEndMeaning(s, i);
    assert s[a..e] == q[..|w|] == w;
    assert forall k :: a <= k < e ==> s[k] == w[k - a];
    assert e < |s| ==> s[e] == q[|w|];
    TokenAt(s, i, a, e);
  }

  lemma WordEndsThere(q: string, words: seq<string>)
    requires words != [] && BeginsWithWords(q, words)
    ensures |words[0]| <= |q| && (|words[0]| < |q| ==> IsWhitespace(q[|words[0]|]))
  {
    if |words| == 1 {
      var rest :| q == words[0] + rest && BeginsWithWords(rest, []);
    } else {
      var gap, rest :| q == words[0] + gap + rest && IsGap(gap) && BeginsWithWords(rest, words[1..]);
      assert q[|words[0]|] == gap[0];
    }
  }

  lemma GapEnds(s: string, e: nat, gap: string, rest: string, words: seq<string>)
    requires e <= |s| && s[e..] == gap + rest && IsGap(gap)
    requires words != [] && AreWords(words) && BeginsWithWords(rest, words)
    ensures e < |s| && IsWhitespace(s[e]) && s[SpaceEnd(s, e)..] == rest
  {
    FirstWordBegins(rest, words);
    var b := e + |gap|;
    assert forall k :: e <= k < b ==> s[k] == s[e..][k - e] == gap[k - e];
    assert s[b] == s[e..][|gap|] == rest[0];
    SpaceEndIs(s, e, b);
    assert s[b..] == s[e..][|gap|..] == rest;
  }

  lemma WordsIff(q: string, words: seq<string>)
    requires q != "" && !IsWhitespace(q[0]) && words != [] && AreWords(words)
    ensures words <= Tokens(q) <==> BeginsWithWords(q, words)
  {
    assert SpaceEnd(q, 0) == 0 && q[0..] == q;
    if words <= Tokens(q) { TokensAreWords(q, 0, 0, words); }
    if BeginsWithWords(q, words) { WordsAreTokens(q, 0, 0, words); }
  }

  lemma KeywordsAreWords()
    ensures IsWord("comment") && IsWord("on") && IsWord("create") && IsWord("extension") && IsWord("index")
            && IsWord("unique")
  {
  }

  lemma TwoWordsIff(q: string, a: string, b: string)
    requires q != "" && !IsWhitespace(q[0]) && IsWord(a) && IsWord(b)
    ensures BeginsWithWords(q, [a, b]) <==> |Tokens(q)| >= 2 && Tokens(q)[0] == a && Tokens(q)[1] == b
  {
    WordsIff(q, [a, b]);
    if |Tokens(q)| >= 2 { assert Tokens(q)[..2] == [Tokens(q)[0], Tokens(q)[1]]; }
  }

  lemma ThreeWordsIff(q: string, a: string, b: string, c: string)
    requires q != "" && !IsWhitespace(q[0]) && IsWord(a) && IsWord(b) && IsWord(c)
    ensures BeginsWithWords(q, [a, b, c])
            <==> |Tokens(q)| >= 3 && Tokens(q)[0] == a && Tokens(q)[1] == b && Tokens(q)[2] == c
  {
    WordsIff(q, [a, b, c]);
    if |Tokens(q)| >= 3 { assert Tokens(q)[..3] == [Tokens(q)[0], Tokens(q)[1], Tokens(q)[2]]; }
  }

  /** What is left of a statement is trusted iff, its case ignored, it begins with the words of one
      of the four kinds. */
  lemma TrustedIff(probe: string)
    requires probe != "" && !IsWhitespace(probe[0])
    ensures IsTrusted(probe) <==> ReadsTrusted(ToAsciiLowercase(probe))
  {
    var q := ToAsciiLowercase(probe);
    KeywordsAreWords();
    TwoWordsIff(q, "comment", "on");
    TwoWordsIff(q, "create", "extension");
    TwoWordsIff(q, "create", "index");
    ThreeWordsIff(q, "create", "unique", "index");
  }
}
