/** What the splitter promises: splitting a statement again changes nothing, and leading
    whitespace and comments do not change how a statement is classified. */
module SqlProperties {
  import opened Prelude
  import opened Text
  import opened SqlLexer
  import opened SqlClassify
  import opened SqlSplitter
  import SqlResplit

  // ---- Splitting is a fixpoint ----

  /** What the splitter yields. */
  function Statements(content: string): seq<SqlStatement> { Kept(Buffers(content, 0, Plain(TopLevel), "")) }

  /** The buffer a statement was classified from. */
  lemma StatementOrigin(content: string, k: nat) returns (i: nat)
    requires k < |Statements(content)|
    ensures var buffers := Buffers(content, 0, Plain(TopLevel), "");
            i < |buffers| && Classify(buffers[i]) == Some(Statements(content)[k])
            && buffers[i] == Statements(content)[k].text
  {
    var at := FilterMapOrigins(Classify, Buffers(content, 0, Plain(TopLevel), ""));
    i := at[k];
  }

  /** Whatever the file, a statement of it, split on its own, is that one statement with the same
      trust iff its text loses nothing on its own. */
  lemma StatementIsFixpointIffFits(content: string, k: nat)
    requires k < |Statements(content)|
    ensures var s := Statements(content)[k]; Statements(s.text) == [s] <==> Fits(s.text)
  {
    var s := Statements(content)[k];
    var i := StatementOrigin(content, k);
    SqlResplit.BufferIsOneIffFits(content, i);
    if Fits(s.text) {
      FilterMapAppend(Classify, [], s.text);
      assert [] + [s.text] == [s.text];
    }
    if Statements(s.text) == [s] {
      var j := StatementOrigin(s.text, 0);
      ConcatHolds(Buffers(s.text, 0, Plain(TopLevel), ""), j);
      BuffersHoldInput(s.text, 0, Plain(TopLevel), "");
    }
  }

  lemma {:induction false} ConcatHolds(parts: seq<string>, i: nat)
    requires i < |parts|
    ensures |Concat(parts)| >= |parts[i]|
  {
    if i > 0 { ConcatHolds(parts[1..], i - 1); }
  }

  /** Every statement of a file that loses no text, split on its own, is that one statement with
      the same trust. */
  lemma SplittingIsFixpoint(content: string, k: nat)
    requires Fits(content) && k < |Statements(content)|
    ensures var s := Statements(content)[k]; Statements(s.text) == [s]
  {
    var i := StatementOrigin(content, k);
    BuffersArePieces(content);
    SqlResplit.PieceFits(content, 0, i);
    StatementIsFixpointIffFits(content, k);
  }

  /** A statement of a file that loses text may lose more when split again: of "$é$bc" the
      splitter keeps "$é$c", and of that not all. */
  lemma WideTagIsNoFixpoint(b: char, c: char)
    ensures var s := SqlStatement("$\U{E9}$" + [c], IsTrusted(Probe("$\U{E9}$" + [c])));
            Statements("$\U{E9}$" + [b, c]) == [s] && !Fits(s.text) && Statements(s.text) != [s]
  {
    var t, p := "$\U{E9}$" + [b, c], "$\U{E9}$" + [c];
    BodyAfterWideTag(t, p);
    WideTagLosesNext(p);
    DollarIsKept(p);
    FilterMapAppend(Classify, [], p);
    assert [] + [p] == [p];
    StatementIsFixpointIffFits(t, 0);
  }

  lemma DollarIsKept(p: string)
    requires p != "" && p[0] == '$'
    ensures Classify(p) == Some(SqlStatement(p, IsTrusted(Probe(p))))
  {
    NothingToStrip(p);
    TrimBothWays(p);
    TrimEndKeeps(p, 0);
    ClassifyByProbe(p, TrimEnd(p));
  }

  lemma BodyAfterWideTag(t: string, p: string)
    requires |t| == 5 && t[..3] == "$\U{E9}$" && p == t[..3] + [t[4]]
    ensures Buffers(t, 0, Plain(TopLevel), "") == [p]
  {
    var mv := WideTagMove(t);
    BuffersUnfold(t, 0, Plain(TopLevel), "");
    assert "" + mv.text == t[..3];
    BuffersUnfold(t, 4, mv.mode, t[..3]);
  }

  lemma WideTagLosesNext(p: string)
    requires |p| == 4 && p[..3] == "$\U{E9}$"
    ensures !Fits(p)
  {
    var mv := WideTagMove(p);
    StepLosesNothingIffFits(p, 0, Plain(TopLevel));
  }

  // ---- Leading comments do not matter ----

  /** `p` is whitespace and comments that the stripping loop can walk through completely. */
  predicate StripsClean(p: string)
    decreases |p|
  {
    if p == "" then true
    else if IsWhitespace(p[0]) then StripsClean(p[1..])
    else
      var o := OpeningOf(p);
      o.EndsAfter? && StripsClean(p[o.n..])
  }

  lemma StripSpace(p: string)
    requires p != "" && IsWhitespace(p[0])
    ensures StripLead(p) == StripLead(p[1..])
  {
  }

  lemma StripAtComment(p: string)
    requires p != "" && !IsWhitespace(p[0])
    ensures StripLead(p) == StripComment(p)
  {
    assert TrimStart(p) == p;
  }

  lemma OpeningInLonger(p: string, s: string)
    requires OpeningOf(p).EndsAfter?
    ensures OpeningOf(p + s) == OpeningOf(p)
  {
    assert (p + s)[..2] == p[..2];
    FindInLonger(p, s, if StartsWith(p, "--") then "\n" else "*/");
  }

  lemma {:induction false} CleanPrefixIsStripped(p: string, s: string)
    requires StripsClean(p)
    ensures StripLead(p + s) == StripLead(s)
    decreases |p|
  {
    if p == "" {
      assert p + s == s;
    } else if IsWhitespace(p[0]) {
      assert (p + s)[1..] == p[1..] + s;
      StripSpace(p + s);
      CleanPrefixIsStripped(p[1..], s);
    } else {
      CleanPrefixIsStripped(p[OpeningOf(p).n..], s);
      CommentIsStripped(p, s);
    }
  }

  lemma CommentIsStripped(p: string, s: string)
    requires p != "" && !IsWhitespace(p[0]) && OpeningOf(p).EndsAfter?
    ensures StripLead(p + s) == StripLead(p[OpeningOf(p).n..] + s)
  {
    OpeningInLonger(p, s);
    StripThroughComment(p + s);
    DropOfConcat(p, s, OpeningOf(p).n);
  }

  lemma DropOfConcat(p: string, s: string, n: nat)
    requires n <= |p|
    ensures (p + s)[n..] == p[n..] + s
  {
  }

  lemma StripThroughComment(x: string)
    requires x != "" && !IsWhitespace(x[0]) && OpeningOf(x).EndsAfter?
    ensures StripLead(x) == StripLead(x[OpeningOf(x).n..])
  {
    StripAtComment(x);
  }

  lemma {:induction false} TrimEndOfSuffix(x: string, n: nat)
    requires n <= |TrimEnd(x)|
    ensures TrimEnd(x[n..]) == TrimEnd(x)[n..]
  {
    var y := x[n..];
    if |TrimEnd(x)| < |x| {
      TrimEndOfSuffix(x[..|x| - 1], n);
      assert y[..|y| - 1] == x[..|x| - 1][n..];
    } else if y != "" {
      assert y[|y| - 1] == x[|x| - 1];
    }
  }

  lemma {:induction false} AllSpaceTrimsAway(x: string)
    requires forall i :: 0 <= i < |x| ==> IsWhitespace(x[i])
    ensures StripLead(x) == "" && TrimEnd(x) == ""
  {
    if x == "" {
      NothingStripsToNothing();
    } else {
      AllSpaceTrimsAway(x[1..]);
      StripSpace(x);
    }
  }

  /** A terminator that is not whitespace survives trimming. */
  lemma FindInTrimmed(x: string, pat: string)
    requires pat != "" && !IsWhitespace(pat[|pat| - 1])
    ensures Find(TrimEnd(x), pat) == Find(x, pat)
  {
    var t := TrimEnd(x);
    SameOccurrences(x, t, |t|, pat);
    if Find(x, pat).Some? {
      var i := Find(x, pat).value;
      OccurrenceEnd(x, pat, i);
      FindIs(t, pat, i);
    }
  }

  /** Trimming the end of a text that opens with a comment leaves the comment as it was, or cuts
      into it; in the latter case nothing but whitespace followed it. */
  lemma OpeningOfTrimmed(x: string)
    requires x != "" && !IsWhitespace(x[0])
    ensures var o, p := OpeningOf(x), OpeningOf(TrimEnd(x));
            if o.EndsAfter? && o.n > |TrimEnd(x)| then p == Endless else p == o
  {
    TrimmedStart(x, "--");
    TrimmedStart(x, "/*");
    if StartsWith(x, "--") { NewlineInTrimmed(x); } else if StartsWith(x, "/*") { FindInTrimmed(x, "*/"); }
  }

  lemma TrimmedStart(x: string, mark: string)
    requires x != "" && !IsWhitespace(x[0]) && |mark| == 2 && !IsWhitespace(mark[1])
    ensures StartsWith(TrimEnd(x), mark) <==> StartsWith(x, mark)
  {
    var t := TrimEnd(x);
    assert t != "";
    if |t| < 2 <= |x| { assert x[..2][1] == x[1] && IsWhitespace(x[1]); }
    else { assert |x| >= 2 ==> x[..2] == t[..2]; }
  }

  lemma NewlineInTrimmed(x: string)
    ensures var f := Find(x, "\n");
            Find(TrimEnd(x), "\n") == if f.Some? && f.value < |TrimEnd(x)| then f else None
  {
    var t, f := TrimEnd(x), Find(x, "\n");
    SameOccurrences(x, t, |t|, "\n");
    if f.Some? && f.value < |t| { FindIs(t, "\n", f.value); }
  }

  /** Trailing whitespace never decides anything: it may be trimmed before or after. */
  lemma {:induction false} TrimEndCommutes(x: string)
    ensures StripLead(TrimEnd(x)) == TrimEnd(StripLead(x))
    decreases |x|
  {
    var t := TrimEnd(x);
    if t == "" {
      AllSpaceTrimsAway(x);
      NothingStripsToNothing();
    } else if IsWhitespace(x[0]) {
      StripSpace(x);
      StripSpace(t);
      TrimEndOfSuffix(x, 1);
      TrimEndCommutes(x[1..]);
    } else {
      StripAtComment(x);
      StripAtComment(t);
      OpeningOfTrimmed(x);
      var o := OpeningOf(x);
      if o.EndsAfter? {
        if o.n > |t| {
          AllSpaceTrimsAway(x[o.n..]);
        } else {
          TrimEndOfSuffix(x, o.n);
          TrimEndCommutes(x[o.n..]);
        }
      }
    }
  }

  lemma TrimBothWays(x: string)
    ensures StripLead(Trim(x)) == TrimEnd(StripLead(x))
  {
    TrimEndCommutes(TrimStart(x));
    StripLeadIgnoresLeadingSpace(x);
  }

  /** The probe is read off the end of a text that neither closes a comment nor is trimmed. */
  predicate IsPlainTail(s: string) {
    s != "" && IsAsciiAlphabetic(s[0]) && IsAsciiAlphabetic(s[|s| - 1]) && '\n' !in s && '/' !in s
  }

  lemma OpeningBeforeTail(p: string, s: string)
    requires p != "" && !IsWhitespace(p[0]) && !OpeningOf(p).EndsAfter? && IsPlainTail(s)
    ensures OpeningOf(p + s) == OpeningOf(p)
  {
    var x := p + s;
    if |p| == 1 { assert x[..2][1] == s[0]; } else { assert x[..2] == p[..2]; }
    if OpeningOf(p) == Endless { NoTerminatorInTail(p, s, if StartsWith(p, "--") then "\n" else "*/"); }
  }

  lemma NoTerminatorInTail(p: string, s: string, pat: string)
    requires Find(p, pat) == None && IsPlainTail(s) && (pat == "\n" || pat == "*/")
    ensures Find(p + s, pat) == None
  {
    var x := p + s;
    assert x[..|p|] == p == p[..|p|];
    SameOccurrences(x, p, |p|, pat);
    forall k | 0 <= k ensures !OccursAt(x, pat, k) { NotAcrossTail(p, s, pat, k); }
  }

  lemma NotAcrossTail(p: string, s: string, pat: string, k: nat)
    requires IsPlainTail(s) && (pat == "\n" || pat == "*/")
    ensures k + |pat| > |p| ==> !OccursAt(p + s, pat, k)
  {
    var e := k + |pat| - 1;
    if |p| <= e < |p + s| {
      assert (p + s)[e] == s[e - |p|];
      NoOccurrenceEnd(p + s, pat, k);
    }
  }

  /** What the loop leaves of a prefix before any tail: the tail is swallowed, or stays behind `q`. */
  ghost predicate Leaves(p: string, q: Option<string>) {
    forall s :: IsPlainTail(s) ==> StripLead(p + s) == if q.Some? then q.value + s else ""
  }

  lemma {:induction false} UncleanPrefixLeaves(p: string) returns (q: Option<string>)
    requires !StripsClean(p)
    ensures Leaves(p, q) && (q.Some? ==> q.value != "" && !IsWhitespace(q.value[0]))
    decreases |p|
  {
    if IsWhitespace(p[0]) {
      q := UncleanPrefixLeaves(p[1..]);
      SpaceLeaves(p, q);
    } else if OpeningOf(p).EndsAfter? {
      q := UncleanPrefixLeaves(p[OpeningOf(p).n..]);
      CommentLeaves(p, q);
    } else {
      q := if OpeningOf(p) == Endless then None else Some(p);
      EndLeaves(p);
    }
  }

  lemma SpaceLeaves(p: string, q: Option<string>)
    requires p != "" && IsWhitespace(p[0]) && Leaves(p[1..], q)
    ensures Leaves(p, q)
  {
    forall s | IsPlainTail(s) ensures StripLead(p + s) == StripLead(p[1..] + s) { SpaceIsStripped(p, s); }
  }

  lemma SpaceIsStripped(p: string, s: string)
    requires p != "" && IsWhitespace(p[0])
    ensures StripLead(p + s) == StripLead(p[1..] + s)
  {
    assert (p + s)[1..] == p[1..] + s;
    StripSpace(p + s);
  }

  lemma CommentLeaves(p: string, q: Option<string>)
    requires p != "" && !IsWhitespace(p[0]) && OpeningOf(p).EndsAfter? && Leaves(p[OpeningOf(p).n..], q)
    ensures Leaves(p, q)
  {
    forall s | IsPlainTail(s)
      ensures StripLead(p + s) == StripLead(p[OpeningOf(p).n..] + s)
    {
      CommentIsStripped(p, s);
    }
  }

  lemma EndLeaves(p: string)
    requires p != "" && !IsWhitespace(p[0]) && !OpeningOf(p).EndsAfter?
    ensures Leaves(p, if OpeningOf(p) == Endless then None else Some(p))
  {
    forall s | IsPlainTail(s) ensures StripLead(p + s) == if OpeningOf(p) == Endless then "" else p + s {
      StripAtComment(p + s);
      OpeningBeforeTail(p, s);
    }
  }

  /** The probe of the prefix before a tail. */
  lemma ProbeOfLeft(p: string, q: Option<string>, s: string)
    requires Leaves(p, q) && IsPlainTail(s)
    ensures Probe(p + s) == if q.Some? then q.value + s else ""
  {
    TrimBothWays(p + s);
    if q.Some? { TailIsNotTrimmed(q.value, s); }
  }

  lemma TailIsNotTrimmed(q: string, s: string)
    requires IsPlainTail(s)
    ensures TrimEnd(q + s) == q + s
  {
    assert (q + s)[|q + s| - 1] == s[|s| - 1];
  }

  /** Text that begins neither with space nor with a comment mark is left alone. */
  lemma NothingToStrip(s: string)
    requires s != "" && !IsWhitespace(s[0]) && s[0] != '-' && s[0] != '/'
    ensures StripLead(s) == s
  {
    StripAtComment(s);
    NoOpening(s);
    StripWithoutOpening(s);
  }

  lemma NoOpening(s: string)
    requires s != "" && s[0] != '-' && s[0] != '/'
    ensures OpeningOf(s) == NoComment
  {
    assert |s| >= 2 ==> s[..2][0] == s[0];
  }

  lemma StripWithoutOpening(q: string)
    requires (q == "" || !IsWhitespace(q[0])) && OpeningOf(q) == NoComment
    ensures StripComment(q) == q
  {
  }

  lemma ProbeOfTail(s: string)
    requires IsPlainTail(s)
    ensures Probe(s) == s
  {
    TrimBothWays(s);
    NothingToStrip(s);
    TailIsNotTrimmed("", s);
    assert "" + s == s;
  }

  // ---- Two tails tell an unclean prefix ----

  /** The shape of "comment on a". */
  predicate IsTrustedTail(s: string) {
    |s| == 12 && s[..7] == "comment" && s[7] == ' ' && s[8..10] == "on" && s[10] == ' ' && s[11..] == "a"
  }

  lemma TrustedTail()
    ensures IsTrustedTail("comment on a") && IsPlainTail("comment on a") && IsPlainTail("a")
  {
  }

  lemma TrustedTailChars(s: string)
    requires IsTrustedTail(s)
    ensures forall k :: 0 <= k < 12 ==> (IsWhitespace(s[k]) <==> k == 7 || k == 10) && !('A' <= s[k] <= 'Z')
  {
    assert forall k :: 0 <= k < 7 ==> s[k] == s[..7][k];
    assert s[8] == s[8..10][0] && s[9] == s[8..10][1] && s[11] == s[11..][0];
  }

  /** The words of `x` from position `i` on when either tail follows: the same at first, then one
      that ends in "a" or in "comment". */
  lemma {:induction false} TokensAroundTails(x: string, tail: string, i: nat) returns (common: seq<string>, w: string)
    requires i <= |x| && IsTrustedTail(tail)
    ensures TokensFrom(x + "a", i) == common + [w + "a"]
    ensures TokensFrom(x + tail, i) == common + [w + "comment", "on", "a"]
    ensures i < |x| && !IsWhitespace(x[i]) ==> common != [] || w != ""
    decreases |x| - i
  {
    var a := SpaceEnd(x, i);
    SpaceEndMeaning(x, i);
    var e := if a < |x| then WordEnd(x, a + 1) else a;
    if a < |x| { WordEndMeaning(x, a + 1); }
    if e == |x| {
      common, w := [], x[a..];
      LastWord(x, tail, i, a);
    } else {
      var c;
      c, w := TokensAroundTails(x, tail, e);
      FirstWord(x, "a", i, a, e, c, [w + "a"]);
      FirstWord(x, tail, i, a, e, c, [w + "comment", "on", "a"]);
      common := [x[a..e]] + c;
    }
  }

  /** Nothing but one word, possibly empty, is left of `x`. */
  lemma LastWord(x: string, tail: string, i: nat, a: nat)
    requires i <= a <= |x| && (forall k :: i <= k < a ==> IsWhitespace(x[k]))
    requires (forall k :: a <= k < |x| ==> !IsWhitespace(x[k])) && IsTrustedTail(tail)
    ensures TokensFrom(x + "a", i) == [] + [x[a..] + "a"]
    ensures TokensFrom(x + tail, i) == [] + [x[a..] + "comment", "on", "a"]
    ensures i < |x| && !IsWhitespace(x[i]) ==> x[a..] != ""
  {
    WordThenA(x, i, a);
    WordThenTrusted(x, tail, i, a);
  }

  /** A word that ends within `x` is a token whatever follows `x`. */
  lemma FirstWord(x: string, s: string, i: nat, a: nat, e: nat, common: seq<string>, rest: seq<string>)
    requires i <= a < e < |x| && (forall k :: i <= k < a ==> IsWhitespace(x[k]))
    requires (forall k :: a <= k < e ==> !IsWhitespace(x[k])) && IsWhitespace(x[e])
    requires TokensFrom(x + s, e) == common + rest
    ensures TokensFrom(x + s, i) == [x[a..e]] + common + rest
  {
    TokenAt(x + s, i, a, e);
    assert (x + s)[a..e] == x[a..e];
    assert [x[a..e]] + (common + rest) == [x[a..e]] + common + rest;
  }

  lemma WordThenA(x: string, i: nat, a: nat)
    requires i <= a <= |x| && (forall k :: i <= k < a ==> IsWhitespace(x[k]))
    requires forall k :: a <= k < |x| ==> !IsWhitespace(x[k])
    ensures TokensFrom(x + "a", i) == [] + [x[a..] + "a"]
  {
    var y := x + "a";
    TokenAt(y, i, a, |y|);
    assert y[a..|y|] == x[a..] + "a";
  }

  lemma WordThenTrusted(x: string, tail: string, i: nat, a: nat)
    requires i <= a <= |x| && (forall k :: i <= k < a ==> IsWhitespace(x[k]))
    requires (forall k :: a <= k < |x| ==> !IsWhitespace(x[k])) && IsTrustedTail(tail)
    ensures TokensFrom(x + tail, i) == [] + [x[a..] + "comment", "on", "a"]
  {
    var y, n := x + tail, |x|;
    TrustedTailChars(tail);
    assert forall k :: n <= k < |y| ==> y[k] == tail[k - n];
    assert forall k :: 0 <= k < n ==> y[k] == x[k];
    ThreeTokens(y, i, a, n + 7);
    SlicesOfTail(x, tail, a);
  }

  lemma ThreeTokens(y: string, i: nat, a: nat, j: nat)
    requires |y| == j + 5 && i <= a < j && (forall k :: i <= k < a ==> IsWhitespace(y[k]))
    requires forall k :: a <= k < |y| ==> (IsWhitespace(y[k]) <==> k == j || k == j + 3)
    ensures TokensFrom(y, i) == [] + [y[a..j], y[j + 1..j + 3], y[j + 4..j + 5]]
  {
    TokenAt(y, i, a, j);
    TrailingTokens(y, j);
  }

  lemma SlicesOfTail(x: string, tail: string, a: nat)
    requires a <= |x| && |tail| == 12
    ensures var y, n := x + tail, |x|;
            y[a..n + 7] == x[a..] + tail[..7] && y[n + 8..n + 10] == tail[8..10] && y[n + 11..n + 12] == tail[11..]
  {
  }

  /** Two more words, the second a single character at the end. */
  lemma TrailingTokens(y: string, j: nat)
    requires |y| == j + 5 && IsWhitespace(y[j]) && !IsWhitespace(y[j + 1]) && !IsWhitespace(y[j + 2])
    requires IsWhitespace(y[j + 3]) && !IsWhitespace(y[j + 4])
    ensures TokensFrom(y, j) == [y[j + 1..j + 3], y[j + 4..j + 5]]
  {
    TokenAt(y, j, j + 1, j + 3);
    TokenAt(y, j + 3, j + 4, j + 5);
  }

  lemma LengthsOfKeywords()
    ensures |"comment"| == 7 && |"create"| == 6 && |"on"| == 2 && |"index"| == 5 && |"unique"| == 6
    ensures |"extension"| == 9 && "extension"[8] == 'n' && "comment"[6] == 't'
  {
  }

  /** Trust does not come from the tail: whatever the words in front, "comment on a" behind them
      is trusted only if "a" behind them is. */
  lemma TrustIsInFront(common: seq<string>, w: string)
    requires common != [] || w != ""
    ensures TrustedWords(common + [w + "comment", "on", "a"]) ==> TrustedWords(common + [w + "a"])
  {
    var c := w + "comment";
    LengthsOfKeywords();
    assert c[|c| - 1] == 't';
    assert c == "comment" ==> w == "";
    var long, short := common + [c, "on", "a"], common + [w + "a"];
    if |common| >= 2 { assert long[0] == short[0] && long[1] == short[1]; }
    if |common| >= 3 { assert long[2] == short[2]; }
  }

  lemma LowercaseConcat(a: string, b: string)
    ensures ToAsciiLowercase(a + b) == ToAsciiLowercase(a) + ToAsciiLowercase(b)
  {
  }

  lemma LowercaseKeeps(s: string)
    requires forall i :: 0 <= i < |s| ==> !('A' <= s[i] <= 'Z')
    ensures ToAsciiLowercase(s) == s
  {
  }

  lemma LowercaseBeforeTail(q: string, s: string)
    requires forall i :: 0 <= i < |s| ==> !('A' <= s[i] <= 'Z')
    ensures ToAsciiLowercase(q + s) == ToAsciiLowercase(q) + s
  {
    LowercaseConcat(q, s);
    LowercaseKeeps(s);
  }

  /** Text that stays in front of both tails makes one of them classified wrongly. */
  lemma FrontTextMisleads(q: string, tail: string)
    requires q != "" && !IsWhitespace(q[0]) && IsTrustedTail(tail)
    ensures IsTrusted(q + "a") || !IsTrusted(q + tail)
  {
    TrustedTailChars(tail);
    LowercaseBeforeTail(q, "a");
    LowercaseBeforeTail(q, tail);
    var common, w := TokensAroundTails(ToAsciiLowercase(q), tail, 0);
    TrustIsInFront(common, w);
  }

  lemma TailsAreClassified(tail: string)
    requires IsTrustedTail(tail) && IsPlainTail(tail)
    ensures Classify("a") == Some(SqlStatement("a", false)) && Classify(tail) == Some(SqlStatement(tail, true))
  {
    ProbeOfTail("a");
    ProbeOfTail(tail);
    TailsAreTrustedRightly(tail);
    ClassifyByProbe("a", "a");
    ClassifyByProbe(tail, tail);
  }

  lemma ClassifyByProbe(text: string, probe: string)
    requires Probe(text) == probe && probe != ""
    ensures Classify(text) == Some(SqlStatement(text, IsTrusted(probe)))
  {
  }

  lemma SameProbesAlike(a: string, b: string)
    requires Probe(a) == Probe(b)
    ensures Alike(Classify(a), Classify(b))
  {
  }

  lemma TailsAreTrustedRightly(tail: string)
    requires IsTrustedTail(tail)
    ensures !IsTrusted("a") && IsTrusted(tail)
  {
    TrustedTailChars(tail);
    LowercaseKeeps("a");
    LowercaseKeeps(tail);
    WordThenA("", 0, 0);
    WordThenTrusted("", tail, 0, 0);
    assert "" + "a" == "a" && "" + tail == tail && "" + "comment" == "comment";
  }

  /** Present alike, and trusted alike. */
  predicate Alike(a: Option<SqlStatement>, b: Option<SqlStatement>) {
    a.Some? == b.Some? && (a.Some? ==> a.value.isTrusted == b.value.isTrusted)
  }

  /** Exactly which prefixes leave the classification of every statement alone: those the loop
      can walk through. Any other prefix hides a statement, or changes its trust. */
  lemma PrefixIsTransparentIffClean(p: string)
    ensures StripsClean(p) <==> forall s :: Alike(Classify(p + s), Classify(s))
  {
    if StripsClean(p) { CleanPrefixIsTransparent(p); } else { var s := UncleanPrefixMisleads(p); }
  }

  lemma CleanPrefixIsTransparent(p: string)
    requires StripsClean(p)
    ensures forall s :: Alike(Classify(p + s), Classify(s))
  {
    forall s ensures Alike(Classify(p + s), Classify(s)) {
      CleanPrefixKeepsProbe(p, s);
      SameProbesAlike(p + s, s);
    }
  }

  lemma CleanPrefixKeepsProbe(p: string, s: string)
    requires StripsClean(p)
    ensures Probe(p + s) == Probe(s)
  {
    TrimBothWays(p + s);
    TrimBothWays(s);
    CleanPrefixIsStripped(p, s);
  }

  lemma UncleanPrefixMisleads(p: string) returns (s: string)
    requires !StripsClean(p)
    ensures !Alike(Classify(p + s), Classify(s))
  {
    var tail := "comment on a";
    TrustedTail();
    TailsAreClassified(tail);
    var q := UncleanPrefixLeaves(p);
    ProbeOfLeft(p, q, "a");
    ProbeOfLeft(p, q, tail);
    if q.Some? { FrontTextMisleads(q.value, tail); }
    s := if Alike(Classify(p + "a"), Classify("a")) then tail else "a";
  }

  /** Leading whitespace and comments as a writer of SQL sees them. */
  datatype Lead = Space(c: char) | Line(body: string) | Block(body: string)

  function Render(lead: Lead): string {
    match lead
    case Space(c) => [c]
    case Line(body) => "--" + body + "\n"
    case Block(body) => "/*" + body + "*/"
  }

  function RenderAll(leads: seq<Lead>): string {
    if leads == [] then "" else Render(leads[0]) + RenderAll(leads[1..])
  }

  /** Complete: a line comment is one line, a block comment ends where its first terminator is. */
  predicate IsComplete(lead: Lead) {
    match lead
    case Space(c) => IsWhitespace(c)
    case Line(body) => '\n' !in body
    case Block(body) => Find(body + "*/", "*/") == Some(|body|)
  }

  /** The source looks for the terminator from the opening on, so a comment that starts with a
      slash seems to end at once. */
  predicate OpensOnSlash(lead: Lead) {
    lead.Block? && StartsWith(lead.body, "/")
  }

  lemma LeadIsClean(lead: Lead, rest: string)
    requires IsComplete(lead) && !OpensOnSlash(lead) && StripsClean(rest)
    ensures StripsClean(Render(lead) + rest)
  {
    var x := Render(lead) + rest;
    match lead
    case Space(c) =>
      assert x[1..] == rest;
    case Line(body) =>
      var nl := 2 + |body|;
      assert x[..2] == "--" && x[nl..nl + 1] == "\n" && x[nl + 1..] == rest;
      forall k | 0 <= k < nl ensures !OccursAt(x, "\n", k) {
        assert x[k] == (if k < 2 then '-' else body[k - 2]);
        NoOccurrenceEnd(x, "\n", k);
      }
      FindIs(x, "\n", nl);
    case Block(body) =>
      BlockOpening(body, rest);
      assert x[4 + |body|..] == rest;
  }

  lemma BlockOpening(body: string, rest: string)
    requires IsComplete(Block(body)) && !StartsWith(body, "/")
    ensures OpeningOf(Render(Block(body)) + rest) == EndsAfter(4 + |body|)
  {
    var x := Render(Block(body)) + rest;
    var end := 2 + |body|;
    assert x[..2] == "/*" && x[end..end + 2] == "*/";
    forall k | 0 <= k < end ensures !OccursAt(x, "*/", k) {
      if k >= 2 { NoTerminatorInside(body, rest, k - 2); } else { NoTerminatorAtOpening(body, rest, k); }
    }
    FindIs(x, "*/", end);
  }

  lemma NoTerminatorInside(body: string, rest: string, i: nat)
    requires IsComplete(Block(body)) && i < |body|
    ensures !OccursAt(Render(Block(body)) + rest, "*/", i + 2)
  {
    var x, closed := Render(Block(body)) + rest, body + "*/";
    assert x == "/*" + closed + rest;
    assert x[i + 2..i + 4] == closed[i..i + 2];
    assert !OccursAt(closed, "*/", i);
  }

  lemma NoTerminatorAtOpening(body: string, rest: string, k: nat)
    requires k < 2 && !StartsWith(body, "/")
    ensures !OccursAt(Render(Block(body)) + rest, "*/", k)
  {
    var x := Render(Block(body)) + rest;
    assert body != "" ==> x[2] == body[0] && body[..1] == [body[0]];
    NoOccurrenceEnd(x, "*/", k);
  }

  lemma {:induction false} LeadsAreClean(leads: seq<Lead>)
    requires forall i :: 0 <= i < |leads| ==> IsComplete(leads[i]) && !OpensOnSlash(leads[i])
    ensures StripsClean(RenderAll(leads))
  {
    if leads != [] {
      LeadsAreClean(leads[1..]);
      LeadIsClean(leads[0], RenderAll(leads[1..]));
    }
  }

  /** A run of whitespace and complete comments, none opening on a slash, neither hides a
      statement nor changes its trust. */
  lemma LeadKeepsClassification(leads: seq<Lead>, text: string)
    requires forall i :: 0 <= i < |leads| ==> IsComplete(leads[i]) && !OpensOnSlash(leads[i])
    ensures Alike(Classify(RenderAll(leads) + text), Classify(text))
  {
    LeadsAreClean(leads);
    PrefixIsTransparentIffClean(RenderAll(leads));
  }

  predicate IsTrustedStatement(text: string) { Classify(text).Some? && Classify(text).value.isTrusted }

  /** The statement is kept for the parser to look at. */
  predicate IsParsedStatement(text: string) { Classify(text).Some? && !Classify(text).value.isTrusted }

  /** A complete block comment that opens on a slash is not transparent: behind it no statement is
      trusted. */
  lemma SlashCommentLosesTrust(s: string)
    ensures IsParsedStatement(Render(Block("/c")) + s)
  {
    SlashCommentEndsEarly();
    MisledByOpening(Render(Block("/c")), s);
  }

  /** So a comment of any object, trusted otherwise, is not behind one. */
  lemma CommentOnLosesTrust(t: string)
    ensures var s := "comment on " + t; IsTrustedStatement(s) && IsParsedStatement(Render(Block("/c")) + s)
  {
    CommentOnText(t);
    CommentOnIsTrusted("comment on " + t, "comment", "on", t);
    SlashCommentLosesTrust("comment on " + t);
  }

  lemma CommentOnText(t: string)
    ensures "comment" + " " + "on" + " " + t == "comment on " + t
  {
  }

  lemma CommentOnIsTrusted(s: string, a: string, w: string, t: string)
    requires s == a + " " + w + " " + t && a == "comment" && w == "on"
    ensures IsTrustedStatement(s)
  {
    KeywordsAreWords();
    KeywordsAreLower();
    var tokens := TwoWordStatement(s, a, w, t);
  }

  lemma KeywordsAreLower()
    ensures ToAsciiLowercase("comment") == "comment" && ToAsciiLowercase("on") == "on"
    ensures ToAsciiLowercase("create") == "create"
  {
  }

  /** A word that is none of these. */
  predicate IsOther(w: string) { IsWord(w) && ToAsciiLowercase(w) !in ["extension", "index", "unique"] }

  /** What is created is trusted only if it is an extension or an index: a table, a function or
      anything else is left to the parser, comments in front of it or not. */
  lemma CreateOfOthersIsParsed(leads: seq<Lead>, w: string, t: string)
    requires forall i :: 0 <= i < |leads| ==> IsComplete(leads[i]) && !OpensOnSlash(leads[i])
    requires IsOther(w)
    ensures IsParsedStatement(RenderAll(leads) + ("create" + " " + w + " " + t))
  {
    var s := "create" + " " + w + " " + t;
    CreateIsParsed(s, "create", w, t);
    LeadKeepsClassification(leads, s);
  }

  lemma CreateIsParsed(s: string, a: string, w: string, t: string)
    requires s == a + " " + w + " " + t && a == "create"
    requires IsOther(w)
    ensures IsParsedStatement(s)
  {
    KeywordsAreWords();
    KeywordsAreLower();
    var tokens := TwoWordStatement(s, a, w, t);
    assert tokens[0][1] == 'r' && "comment"[1] == 'o';
  }

  /** A statement of two words and more is classified by its words. */
  lemma TwoWordStatement(s: string, a: string, w: string, t: string) returns (tokens: seq<string>)
    requires s == a + " " + w + " " + t && IsWord(a) && IsWord(w) && a[0] != '-' && a[0] != '/'
    ensures |tokens| >= 2 && tokens[0] == ToAsciiLowercase(a) && tokens[1] == ToAsciiLowercase(w)
    ensures Classify(s) == Some(SqlStatement(s, TrustedWords(tokens)))
  {
    var n := |a| + 1 + |w|;
    PartsAt(s, a, w, t, n);
    PlainProbe(s);
    TrimEndKeeps(s, n - 1);
    tokens := TrimmedTokens(TrimEnd(s), s, a, w, n);
    ClassifyByProbe(s, TrimEnd(s));
  }

  lemma PlainProbe(s: string)
    requires s != "" && !IsWhitespace(s[0]) && s[0] != '-' && s[0] != '/'
    ensures Probe(s) == TrimEnd(s) != ""
  {
    NothingToStrip(s);
    TrimBothWays(s);
    TrimEndKeeps(s, 0);
  }

  lemma TrimmedTokens(r: string, s: string, a: string, w: string, n: nat) returns (tokens: seq<string>)
    requires r <= s && IsWord(a) && IsWord(w) && n == |a| + 1 + |w| <= |r|
    requires s[..|a|] == a && s[|a|] == ' ' && s[|a| + 1..n] == w && (|s| > n ==> s[n] == ' ')
    ensures |tokens| >= 2 && tokens[0] == ToAsciiLowercase(a) && tokens[1] == ToAsciiLowercase(w)
    ensures IsTrusted(r) == TrustedWords(tokens)
  {
    SlicesOfPrefix(r, s, |a|, n);
    TwoTokens(r, a, w, n);
    tokens := Tokens(ToAsciiLowercase(r));
  }

  lemma PartsAt(s: string, a: string, w: string, t: string, n: nat)
    requires s == a + " " + w + " " + t && IsWord(a) && IsWord(w) && n == |a| + 1 + |w|
    ensures |s| > n && s[..|a|] == a && s[|a|] == ' ' && s[|a| + 1..n] == w && s[n] == ' '
    ensures s[0] == a[0] && !IsWhitespace(s[0]) && !IsWhitespace(s[n - 1])
  {
    assert s[n - 1] == w[|w| - 1];
  }

  lemma SlicesOfPrefix(r: string, s: string, i: nat, n: nat)
    requires r <= s && i < n <= |r|
    ensures r[..i] == s[..i] && r[i] == s[i] && r[i + 1..n] == s[i + 1..n] && (|r| > n ==> r[n] == s[n])
  {
  }

  lemma TwoTokens(r: string, a: string, w: string, n: nat)
    requires IsWord(a) && IsWord(w) && n == |a| + 1 + |w| <= |r|
    requires r[..|a|] == a && r[|a|] == ' ' && r[|a| + 1..n] == w && (|r| > n ==> r[n] == ' ')
    ensures var tokens := Tokens(ToAsciiLowercase(r));
            |tokens| >= 2 && tokens[0] == ToAsciiLowercase(a) && tokens[1] == ToAsciiLowercase(w)
  {
    var z := ToAsciiLowercase(r);
    LowerWordAt(r, z, 0, |a|, a);
    LowerWordAt(r, z, |a| + 1, n, w);
    TokensOfTwo(z, |a|, n);
  }

  lemma TokensOfTwo(z: string, i: nat, n: nat)
    requires 0 < i && i + 1 < n <= |z| && z[i] == ' ' && (n < |z| ==> z[n] == ' ')
    requires (forall k :: 0 <= k < i ==> !IsWhitespace(z[k])) && forall k :: i + 1 <= k < n ==> !IsWhitespace(z[k])
    ensures |Tokens(z)| >= 2 && Tokens(z)[0] == z[0..i] && Tokens(z)[1] == z[i + 1..n]
  {
    TokenAt(z, 0, 0, i);
    TokenAt(z, i, i + 1, n);
    FirstOfTwo(Tokens(z), z[0..i], TokensFrom(z, i), z[i + 1..n], TokensFrom(z, n));
  }

  lemma FirstOfTwo(tokens: seq<string>, x: string, rest: seq<string>, y: string, rest': seq<string>)
    requires tokens == [x] + rest && rest == [y] + rest'
    ensures |tokens| >= 2 && tokens[0] == x && tokens[1] == y
  {
  }

  /** The lower case of a word in a text is a word in the text's lower case. */
  lemma LowerWordAt(r: string, z: string, i: nat, j: nat, w: string)
    requires z == ToAsciiLowercase(r) && i <= j <= |r| && r[i..j] == w && IsWord(w)
    ensures z[i..j] == ToAsciiLowercase(w) && i < j && forall k :: i <= k < j ==> !IsWhitespace(z[k])
  {
    forall k | i <= k < j ensures !IsWhitespace(z[k]) { assert r[k] == w[k - i]; }
  }

  /** For one, a table or a function, whatever follows. */
  lemma CreateTableIsParsed(leads: seq<Lead>, t: string)
    requires forall i :: 0 <= i < |leads| ==> IsComplete(leads[i]) && !OpensOnSlash(leads[i])
    ensures IsParsedStatement(RenderAll(leads) + ("create table " + t))
    ensures IsParsedStatement(RenderAll(leads) + ("create function " + t))
  {
    OthersAreWords();
    CreateTexts(t);
    CreateOfOthersIsParsed(leads, "table", t);
    CreateOfOthersIsParsed(leads, "function", t);
  }

  lemma CreateTexts(t: string)
    ensures "create" + " " + "table" + " " + t == "create table " + t
    ensures "create" + " " + "function" + " " + t == "create function " + t
  {
  }

  lemma OthersAreWords()
    ensures IsOther("table") && IsOther("function")
  {
    TableIsOther("table");
    FunctionIsOther("function");
  }

  lemma TableIsOther(w: string)
    requires w == "table"
    ensures IsOther(w)
  {
    FirstLetterDiffers(w, 't');
  }

  lemma FunctionIsOther(w: string)
    requires w == "function"
    ensures IsOther(w)
  {
    FirstLetterDiffers(w, 'f');
  }

  lemma FirstLetterDiffers(w: string, c: char)
    requires w != "" && ToAsciiLower(w[0]) == c && c != 'e' && c != 'i' && c != 'u'
    ensures ToAsciiLowercase(w) !in ["extension", "index", "unique"]
  {
    assert ToAsciiLowercase(w)[0] == c && "extension"[0] == 'e' && "index"[0] == 'i' && "unique"[0] == 'u';
  }

  lemma MisledByOpening(x: string, s: string)
    requires x != "" && !IsWhitespace(x[0]) && OpeningOf(x) == EndsAfter(3) && x[3..] == "c*/"
    ensures IsParsedStatement(x + s)
  {
    CommentIsStripped(x, s);
    TerminatorText(x[3..], s);
    MisledByTerminator(x + s, x[3..] + s);
  }

  lemma TerminatorText(rest: string, s: string)
    requires rest == "c*/"
    ensures var y := rest + s; |y| >= 3 && y[0] == 'c' && y[1] == '*' && y[2] == '/'
  {
  }

  lemma MisledByTerminator(text: string, y: string)
    requires StripLead(text) == StripLead(y) && |y| >= 3 && y[0] == 'c' && y[1] == '*' && y[2] == '/'
    ensures IsParsedStatement(text)
  {
    StrayTerminatorIsUntrusted(y);
    TrimBothWays(text);
    ClassifyByProbe(text, TrimEnd(y));
  }

  /** What is left once the comment is taken to have ended. */
  lemma StrayTerminatorIsUntrusted(y: string)
    requires |y| >= 3 && y[0] == 'c' && y[1] == '*' && y[2] == '/'
    ensures StripLead(y) == y && |TrimEnd(y)| >= 3 && !IsTrusted(TrimEnd(y))
  {
    NothingToStrip(y);
    TrimEndKeeps(y, 2);
    StarredWordIsUntrusted(TrimEnd(y));
  }

  lemma TrimEndKeeps(y: string, k: nat)
    requires k < |y| && !IsWhitespace(y[k])
    ensures k < |TrimEnd(y)|
  {
  }

  lemma StarredWordIsUntrusted(r: string)
    requires |r| >= 2 && r[0] == 'c' && r[1] == '*'
    ensures !IsTrusted(r)
  {
    var z := ToAsciiLowercase(r);
    assert z[0] == 'c' && z[1] == '*';
    var e := WordEnd(z, 2);
    WordEndMeaning(z, 2);
    TokenAt(z, 0, 0, e);
    assert z[0..e][1] == '*' && "comment"[1] == 'o' && "create"[1] == 'r';
  }

  lemma SlashCommentIsComplete()
    ensures IsComplete(Block("/c")) && OpensOnSlash(Block("/c"))
  {
    var body := "/c*/";
    assert body == "/c" + "*/" && |"/c"| == 2;
    NoOccurrenceEnd(body, "*/", 0);
    NoOccurrenceEnd(body, "*/", 1);
    FindIs(body, "*/", 2);
  }

  lemma SlashCommentEndsEarly()
    ensures var x := Render(Block("/c")); x != "" && x[0] == '/' && OpeningOf(x) == EndsAfter(3) && x[3..] == "c*/"
  {
    var x := "/*/c*/";
    assert x == Render(Block("/c"));
    assert x[1..3] == "*/" && x[..2] == "/*";
    NoOccurrenceEnd(x, "*/", 0);
    FindIs(x, "*/", 1);
  }
}
