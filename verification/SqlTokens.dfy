/** What the splitter takes for one token, said by printing: a file printed from statements, each a
    run of complete tokens and a semicolon, is cut into exactly these statements, whatever semicolons
    the tokens hold. */
module SqlTokens {
  import opened Prelude
  import opened Text
  import opened SqlLexer

  /** Other characters stand for themselves. A quote inside a string is doubled. */
  datatype Token =
    | Other(c: char)
    | Str(body: string)
    | Name(body: string)
    | Line(body: string)
    | Block(body: string)
    | Dollar(tag: string, body: string)

  function Doubled(body: string): string {
    if body == "" then "" else (if body[0] == '\'' then "''" else [body[0]]) + Doubled(body[1..])
  }

  function Delimiter(tag: string): string { "$" + tag + "$" }

  function Print(tok: Token): (s: string)
    ensures s != ""
  {
    match tok
    case Other(c) => [c]
    case Str(body) => "'" + Doubled(body) + "'"
    case Name(body) => "\"" + body + "\""
    case Line(body) => "--" + body + "\n"
    case Block(body) => "/*" + body + "*/"
    case Dollar(tag, body) => Delimiter(tag) + body + Delimiter(tag)
  }

  /** The two characters do not stand next to each other before position `n`. */
  predicate NoPairBefore(s: string, n: int, a: char, b: char) {
    forall k :: 0 <= k < n && k + 1 < |s| ==> !(s[k] == a && s[k + 1] == b)
  }

  /** The token ends where it is printed to end. Comments are recognised in dollar bodies too. */
  predicate IsComplete(tok: Token) {
    match tok
    case Other(c) => c !in ";'\"$"
    case Str(_) => true
    case Name(body) => '"' !in body
    case Line(body) => '\n' !in body
    case Block(body) => NoPairBefore(body + "*/", |body|, '*', '/')
    case Dollar(tag, body) =>
      var s := body + Delimiter(tag);
      '$' !in tag && NoPairBefore(s, |body|, '-', '-') && NoPairBefore(s, |body|, '/', '*')
      && forall k :: 0 <= k < |body| ==> !OccursAt(s, Delimiter(tag), k)
  }

  /** This character behind the token does not make another token of it. */
  predicate IsClearOf(tok: Token, next: char) {
    match tok
    case Other(c) => !(c == '-' && next == '-') && !(c == '/' && next == '*')
    case Str(_) => next != '\''
    case _ => true
  }

  // ---- One token ----

  /** At the end of the text, or in front of a character that leaves the token alone. */
  predicate EndsAt(tok: Token, t: string, e: nat) { e == |t| || (e < |t| && IsClearOf(tok, t[e])) }

  lemma SecondPart(a: string, b: string, t: string, i: nat)
    requires IsWindow(a + b, t, i)
    ensures IsWindow(a, t, i) && IsWindow(b, t, i + |a|)
  {
    assert forall k :: 0 <= k < |a| ==> a[k] == (a + b)[k];
    assert forall k :: 0 <= k < |b| ==> b[k] == (a + b)[|a| + k];
  }

  lemma {:induction false} StringIsRead(body: string, t: string, i: nat)
    requires IsWindow(Doubled(body) + "'", t, i)
    requires i + |Doubled(body)| + 1 < |t| ==> t[i + |Doubled(body)| + 1] != '\''
    ensures SingleEnd(t, i) == i + |Doubled(body)| + 1
    decreases |body|
  {
    var s := Doubled(body) + "'";
    assert s[0] == t[i];
    if body != "" {
      var first := if body[0] == '\'' then "''" else [body[0]];
      assert s == first + (Doubled(body[1..]) + "'");
      SecondPart(first, Doubled(body[1..]) + "'", t, i);
      assert body[0] == '\'' ==> t[i] == first[0] && t[i + 1] == first[1];
      StringIsRead(body[1..], t, i + |first|);
    }
  }

  lemma {:induction false} NameIsRead(body: string, t: string, i: nat)
    requires IsWindow(body + "\"", t, i) && '"' !in body
    ensures DoubleEnd(t, i) == i + |body| + 1
    decreases |body|
  {
    var s := body + "\"";
    assert s[0] == t[i];
    if body != "" {
      assert s == [body[0]] + (body[1..] + "\"");
      SecondPart([body[0]], body[1..] + "\"", t, i);
      NameIsRead(body[1..], t, i + 1);
    }
  }

  lemma {:induction false} LineIsRead(body: string, t: string, i: nat)
    requires IsWindow(body + "\n", t, i) && '\n' !in body
    ensures LineEnd(t, i) == i + |body| + 1
    decreases |body|
  {
    var s := body + "\n";
    assert s[0] == t[i];
    if body != "" {
      assert s == [body[0]] + (body[1..] + "\n");
      SecondPart([body[0]], body[1..] + "\n", t, i);
      LineIsRead(body[1..], t, i + 1);
    }
  }

  lemma NoPairInRest(c: char, rest: string, n: int, a: char, b: char)
    requires NoPairBefore([c] + rest, n, a, b)
    ensures NoPairBefore(rest, n - 1, a, b)
  {
    forall k | 0 <= k < n - 1 && k + 1 < |rest| ensures !(rest[k] == a && rest[k + 1] == b) {
      assert ([c] + rest)[k + 1] == rest[k] && ([c] + rest)[k + 2] == rest[k + 1];
    }
  }

  lemma {:induction false} BlockIsRead(body: string, t: string, i: nat)
    requires IsWindow(body + "*/", t, i) && NoPairBefore(body + "*/", |body|, '*', '/')
    ensures BlockEnd(t, i) == i + |body| + 2
    decreases |body|
  {
    var s := body + "*/";
    assert s[0] == t[i] && s[1] == t[i + 1];
    if body != "" {
      var rest := body[1..] + "*/";
      assert s == [body[0]] + rest;
      SecondPart([body[0]], rest, t, i);
      NoPairInRest(body[0], rest, |body|, '*', '/');
      BlockIsRead(body[1..], t, i + 1);
    }
  }

  lemma DelimiterIsRead(tag: string, t: string, i: nat)
    requires IsWindow(Delimiter(tag), t, i) && '$' !in tag
    ensures DelimiterEnd(t, i) == i + |tag| + 2 && TagOf(t, i, i + |tag| + 2) == tag && CommentEnd(t, i) == i
  {
    var d := Delimiter(tag);
    assert d[0] == '$' && d[|tag| + 1] == '$' && forall k :: 0 <= k < |tag| ==> d[k + 1] == tag[k];
    assert t[i] == d[0];
    forall k | i + 1 <= k < i + 1 + |tag| ensures t[k] == tag[k - i - 1] { assert t[k] == d[k - i]; }
    DollarFromMeaning(t, i + 1);
  }

  /** A delimiter that closes the body is the printed one. */
  lemma CloserOccurs(t: string, i: nat, tag: string)
    requires i <= |t| && ClosesAt(t, i, tag)
    ensures IsWindow(Delimiter(tag), t, i)
  {
    var e := DelimiterEnd(t, i);
    DollarFromMeaning(t, i + 1);
    assert |tag| == e - i - 2;
    forall k | 0 <= k < |tag| ensures tag[k] == t[i + 1 + k] { assert t[i + 1..e - 1][k] == t[i + 1 + k]; }
  }

  lemma CloserInWindow(w: string, tag: string, t: string, i: nat, k: nat)
    requires IsWindow(w, t, i) && k + |tag| + 2 <= |w| && ClosesAt(t, i + k, tag)
    ensures OccursAt(w, Delimiter(tag), k)
  {
    var d := Delimiter(tag);
    CloserOccurs(t, i + k, tag);
    forall l | 0 <= l < |d| ensures w[k..k + |d|][l] == d[l] { assert w[k + l] == t[i + (k + l)] == t[(i + k) + l]; }
  }

  /** Within the body nothing is a comment and nothing closes it. */
  lemma BodyGoesOn(w: string, n: nat, tag: string, t: string, i: nat, k: nat)
    requires k < n && |w| == n + |tag| + 2 && IsWindow(w, t, i)
    requires NoPairBefore(w, n, '-', '-') && NoPairBefore(w, n, '/', '*') && !OccursAt(w, Delimiter(tag), k)
    ensures BodyEnd(t, i + k, tag) == BodyEnd(t, i + k + 1, tag)
  {
    assert w[k] == t[i + k] && w[k + 1] == t[i + k + 1];
    assert CommentEnd(t, i + k) == i + k;
    if ClosesAt(t, i + k, tag) { CloserInWindow(w, tag, t, i, k); }
    BodyEndByNext(t, i + k, tag);
  }

  lemma {:induction false} BodyIsRead(w: string, n: nat, tag: string, t: string, i: nat, k: nat)
    requires k <= n && |w| == n + |tag| + 2 && IsWindow(w, t, i) && w[n..] == Delimiter(tag) && '$' !in tag
    requires NoPairBefore(w, n, '-', '-') && NoPairBefore(w, n, '/', '*')
    requires forall l :: 0 <= l < n ==> !OccursAt(w, Delimiter(tag), l)
    ensures BodyEnd(t, i + k, tag) == i + |w|
    decreases n - k
  {
    if k < n {
      BodyGoesOn(w, n, tag, t, i, k);
      BodyIsRead(w, n, tag, t, i, k + 1);
    } else {
      assert w == w[..n] + w[n..];
      SecondPart(w[..n], w[n..], t, i);
      DelimiterIsRead(tag, t, i + n);
      BodyEndByNext(t, i + n, tag);
    }
  }

  lemma StringTokenIsRead(p: string, body: string, t: string, i: nat)
    requires p == "'" + (Doubled(body) + "'") && IsWindow(p, t, i)
    requires i + |p| < |t| ==> t[i + |p|] != '\''
    ensures TokenEnd(t, i) == i + |p|
  {
    assert p[0] == t[i];
    SecondPart("'", Doubled(body) + "'", t, i);
    StringIsRead(body, t, i + 1);
  }

  lemma NameTokenIsRead(p: string, body: string, t: string, i: nat)
    requires p == "\"" + (body + "\"") && IsWindow(p, t, i) && '"' !in body
    ensures TokenEnd(t, i) == i + |p|
  {
    assert p[0] == t[i];
    SecondPart("\"", body + "\"", t, i);
    NameIsRead(body, t, i + 1);
  }

  lemma LineTokenIsRead(p: string, body: string, t: string, i: nat)
    requires p == "--" + (body + "\n") && IsWindow(p, t, i) && '\n' !in body
    ensures TokenEnd(t, i) == i + |p|
  {
    assert p[0] == t[i] && p[1] == t[i + 1];
    SecondPart("--", body + "\n", t, i);
    LineIsRead(body, t, i + 2);
  }

  lemma BlockTokenIsRead(p: string, body: string, t: string, i: nat)
    requires p == "/*" + (body + "*/") && IsWindow(p, t, i) && NoPairBefore(body + "*/", |body|, '*', '/')
    ensures TokenEnd(t, i) == i + |p|
  {
    assert p[0] == t[i] && p[1] == t[i + 1];
    SecondPart("/*", body + "*/", t, i);
    BlockIsRead(body, t, i + 2);
  }

  lemma DollarTokenIsRead(p: string, body: string, tag: string, t: string, i: nat)
    requires p == Delimiter(tag) + (body + Delimiter(tag)) && IsWindow(p, t, i) && IsComplete(Dollar(tag, body))
    ensures TokenEnd(t, i) == i + |p|
  {
    var e := i + |tag| + 2;
    SecondPart(Delimiter(tag), body + Delimiter(tag), t, i);
    DelimiterIsRead(tag, t, i);
    DollarBodyIsRead(body, tag, t, e);
    TokenAtDelimiter(t, i, e, tag);
  }

  lemma TokenAtDelimiter(t: string, i: nat, e: nat, tag: string)
    requires i + 2 <= e <= |t| && CommentEnd(t, i) == i && DelimiterEnd(t, i) == e && TagOf(t, i, e) == tag
    ensures TokenEnd(t, i) == BodyEnd(t, e, tag)
  {
  }

  lemma DollarBodyIsRead(body: string, tag: string, t: string, i: nat)
    requires IsComplete(Dollar(tag, body)) && IsWindow(body + Delimiter(tag), t, i)
    ensures BodyEnd(t, i, tag) == i + |body| + |tag| + 2
  {
    var w := body + Delimiter(tag);
    assert w[|body|..] == Delimiter(tag);
    BodyIsRead(w, |body|, tag, t, i, 0);
  }

  /** A complete token is read as one token. */
  lemma TokenIsRead(tok: Token, t: string, i: nat, e: nat)
    requires IsWindow(Print(tok), t, i) && e == i + |Print(tok)| && IsComplete(tok) && EndsAt(tok, t, e)
    ensures TokenEnd(t, i) == e
  {
    var p := Print(tok);
    match tok
    case Other(c) => OtherIsRead(c, t, i);
    case Str(body) =>
      assert p == "'" + (Doubled(body) + "'");
      StringTokenIsRead(p, body, t, i);
    case Name(body) =>
      assert p == "\"" + (body + "\"");
      NameTokenIsRead(p, body, t, i);
    case Line(body) =>
      assert p == "--" + (body + "\n");
      LineTokenIsRead(p, body, t, i);
    case Block(body) =>
      assert p == "/*" + (body + "*/");
      BlockTokenIsRead(p, body, t, i);
    case Dollar(tag, body) =>
      assert p == Delimiter(tag) + (body + Delimiter(tag));
      DollarTokenIsRead(p, body, tag, t, i);
  }

  lemma OtherIsRead(c: char, t: string, i: nat)
    requires IsWindow([c], t, i) && IsComplete(Other(c)) && EndsAt(Other(c), t, i + 1)
    ensures TokenEnd(t, i) == i + 1
  {
    assert t[i] == [c][0];
  }

  lemma NoSemicolonInFront(tok: Token, t: string, i: nat)
    requires IsWindow(Print(tok), t, i) && IsComplete(tok)
    ensures i < |t| && t[i] != ';'
  {
    assert Print(tok)[0] == t[i];
  }

  // ---- Statements ----

  function PrintAll(toks: seq<Token>): string {
    if toks == [] then "" else Print(toks[0]) + PrintAll(toks[1..])
  }

  /** Complete tokens, each clear of the one behind it. */
  predicate AreComplete(toks: seq<Token>) {
    forall k :: 0 <= k < |toks| ==>
      IsComplete(toks[k]) && (k + 1 < |toks| ==> IsClearOf(toks[k], Print(toks[k + 1])[0]))
  }

  /** Statements and their semicolons, then what is left without one. */
  function PrintFile(stmts: seq<seq<Token>>, tail: seq<Token>): string {
    if stmts == [] then PrintAll(tail) else PrintAll(stmts[0]) + ";" + PrintFile(stmts[1..], tail)
  }

  function Texts(stmts: seq<seq<Token>>, tail: seq<Token>): seq<string> {
    if stmts == [] then (if tail == [] then [] else [PrintAll(tail)])
    else [PrintAll(stmts[0]) + ";"] + Texts(stmts[1..], tail)
  }

  /** Tokens are read one after the other up to what follows them: a semicolon, or the end. */
  lemma {:induction false} TokensAreRead(toks: seq<Token>, t: string, i: nat, e: nat)
    requires AreComplete(toks) && IsWindow(PrintAll(toks), t, i) && e == i + |PrintAll(toks)|
    requires e < |t| ==> t[e] == ';'
    ensures StatementEnd(t, i) == StatementEnd(t, e)
    decreases |toks|
  {
    if toks != [] {
      var j := FirstTokenIsRead(toks, toks[1..], t, i, e);
      TokensAreRead(toks[1..], t, j, e);
    }
  }

  lemma FirstTokenIsRead(toks: seq<Token>, rest: seq<Token>, t: string, i: nat, e: nat) returns (j: nat)
    requires toks != [] && rest == toks[1..] && AreComplete(toks)
    requires IsWindow(PrintAll(toks), t, i) && e == i + |PrintAll(toks)| && (e < |t| ==> t[e] == ';')
    ensures AreComplete(rest) && IsWindow(PrintAll(rest), t, j) && e == j + |PrintAll(rest)|
    ensures StatementEnd(t, i) == StatementEnd(t, j)
  {
    var tok := toks[0];
    j := i + |Print(tok)|;
    FirstIsPrinted(toks, tok, rest);
    SecondPart(Print(tok), PrintAll(rest), t, i);
    FirstIsClear(toks, rest, t, j, e);
    TokenGoesOn(tok, t, i, j);
  }

  lemma FirstIsPrinted(toks: seq<Token>, tok: Token, rest: seq<Token>)
    requires toks != [] && tok == toks[0] && rest == toks[1..]
    ensures PrintAll(toks) == Print(tok) + PrintAll(rest)
  {
  }

  lemma TokenGoesOn(tok: Token, t: string, i: nat, j: nat)
    requires IsWindow(Print(tok), t, i) && j == i + |Print(tok)| && IsComplete(tok) && EndsAt(tok, t, j)
    ensures StatementEnd(t, i) == StatementEnd(t, j)
  {
    NoSemicolonInFront(tok, t, i);
    TokenIsRead(tok, t, i, j);
    StatementGoesOn(t, i);
  }

  lemma StatementGoesOn(t: string, i: nat)
    requires i < |t| && t[i] != ';'
    ensures StatementEnd(t, i) == StatementEnd(t, TokenEnd(t, i))
  {
  }

  lemma FirstIsClear(toks: seq<Token>, rest: seq<Token>, t: string, j: nat, e: nat)
    requires toks != [] && rest == toks[1..] && AreComplete(toks)
    requires IsWindow(PrintAll(rest), t, j) && e == j + |PrintAll(rest)| && (e < |t| ==> t[e] == ';')
    ensures IsComplete(toks[0]) && EndsAt(toks[0], t, j) && AreComplete(rest)
  {
    assert forall k :: 0 <= k < |rest| ==> rest[k] == toks[k + 1];
    if rest != [] { assert t[j] == PrintAll(rest)[0] == Print(rest[0])[0]; }
  }

  lemma StatementIsRead(toks: seq<Token>, t: string, i: nat, e: nat)
    requires AreComplete(toks) && IsWindow(PrintAll(toks) + ";", t, i) && e == i + |PrintAll(toks)| + 1
    ensures StatementEnd(t, i) == e && t[i..e] == PrintAll(toks) + ";"
  {
    SecondPart(PrintAll(toks), ";", t, i);
    assert t[e - 1] == ";"[0];
    TokensAreRead(toks, t, i, e - 1);
  }

  /** A printed file is cut into the printed statements. */
  lemma {:induction false} PiecesArePrinted(stmts: seq<seq<Token>>, tail: seq<Token>, t: string, i: nat)
    requires (forall k :: 0 <= k < |stmts| ==> AreComplete(stmts[k])) && AreComplete(tail)
    requires IsWindow(PrintFile(stmts, tail), t, i) && i + |PrintFile(stmts, tail)| == |t|
    ensures Pieces(t, i) == Texts(stmts, tail)
    decreases |stmts|
  {
    if stmts == [] {
      TailIsRead(tail, t, i);
    } else {
      var text, rest := PrintAll(stmts[0]) + ";", PrintFile(stmts[1..], tail);
      var e := i + |text|;
      SecondPart(text, rest, t, i);
      StatementIsRead(stmts[0], t, i, e);
      PiecesArePrinted(stmts[1..], tail, t, e);
    }
  }

  lemma TailIsRead(tail: seq<Token>, t: string, i: nat)
    requires AreComplete(tail) && IsWindow(PrintAll(tail), t, i) && i + |PrintAll(tail)| == |t|
    ensures Pieces(t, i) == if tail == [] then [] else [PrintAll(tail)]
  {
    TokensAreRead(tail, t, i, |t|);
    assert t[i..] == PrintAll(tail);
    if tail != [] { LastPiece(t, i); }
  }

  lemma LastPiece(t: string, i: nat)
    requires i < |t| && StatementEnd(t, i) == |t|
    ensures Pieces(t, i) == [t[i..]]
  {
    assert Pieces(t, |t|) == [] && t[i..|t|] == t[i..];
  }

  /** The flag-driven splitter too cuts a printed file that loses no text, any ASCII file for one,
      into the printed statements. */
  lemma PrintedFileIsSplit(stmts: seq<seq<Token>>, tail: seq<Token>)
    requires (forall k :: 0 <= k < |stmts| ==> AreComplete(stmts[k])) && AreComplete(tail)
    ensures Pieces(PrintFile(stmts, tail), 0) == Texts(stmts, tail)
    ensures Fits(PrintFile(stmts, tail)) ==>
              Buffers(PrintFile(stmts, tail), 0, Plain(TopLevel), "") == Texts(stmts, tail)
  {
    var t := PrintFile(stmts, tail);
    PiecesArePrinted(stmts, tail, t, 0);
    if Fits(t) { BuffersArePieces(t); }
  }
}
