/** The statement splitter of `pg-web check`, as two definitions of where statements end.

    `Buffers` runs a machine with one current mode, a character (or two, or a whole dollar
    delimiter) at a time: it is what the flag-driven loop computes, on every string.
    `Pieces` is a conventional lexer that jumps over one whole token at a time.
    The machine may lose characters, and `LosslessIffDelimitersFit` says exactly when; where it
    loses none, as on all ASCII text, the two agree.

    All functions work on positions in one text, as the source's iterator does. */
module SqlLexer {
  import opened Prelude
  import opened Text

  /** Whether the scan is at top level or inside a dollar-quoted body with the given tag. */
  datatype Region = TopLevel | Quoted(tag: string)

  /** Comments are recognised inside dollar-quoted bodies too, so they remember the region. */
  datatype Mode =
    | Plain(region: Region)
    | LineComment(region: Region)
    | BlockComment(region: Region)
    | SingleQuote
    | DoubleQuote

  /** One move of the scanner: the next position, text pushed, and whether a statement ends. */
  datatype Move = Move(next: nat, text: string, mode: Mode, cut: bool)

  function Min(a: nat, b: nat): nat { if a < b then a else b }

  /** The current character and the one after it. */
  predicate Pair(t: string, i: nat, a: char, b: char) { i + 1 < |t| && t[i] == a && t[i + 1] == b }

  /** The first dollar sign from position `i` on, or the end. */
  function DollarFrom(t: string, i: nat): (j: nat)
    requires i <= |t|
    ensures i <= j <= |t|
    decreases |t| - i
  {
    if i == |t| || t[i] == '$' then i else DollarFrom(t, i + 1)
  }

  lemma {:induction false} DollarFromMeaning(t: string, i: nat)
    requires i <= |t|
    ensures forall k :: i <= k < DollarFrom(t, i) ==> t[k] != '$'
    ensures DollarFrom(t, i) < |t| ==> t[DollarFrom(t, i)] == '$'
    decreases |t| - i
  {
    if i < |t| && t[i] != '$' { DollarFromMeaning(t, i + 1); }
  }

  /** Where the dollar delimiter `$tag$` at position `i` ends; `i` itself when there is none.
      Anything at all may stand between the two dollar signs. */
  function DelimiterEnd(t: string, i: nat): (e: nat)
    requires i <= |t|
    ensures e == i || i + 2 <= e <= |t|
  {
    if i == |t| || t[i] != '$' then i
    else
      var j := DollarFrom(t, i + 1);
      if j < |t| then j + 1 else i
  }

  /** The tag between the two dollar signs of a delimiter. */
  function TagOf(t: string, i: nat, e: nat): string
    requires i + 2 <= e <= |t|
  {
    t[i + 1..e - 1]
  }

  /** The delimiter at `i` closes a body opened with this tag. */
  predicate ClosesAt(t: string, i: nat, tag: string)
    requires i <= |t|
  {
    DelimiterEnd(t, i) > i && TagOf(t, i, DelimiterEnd(t, i)) == tag
  }

  /** A delimiter is pushed whole, then as many *characters* are skipped as it has *bytes*. */
  function TakeDelimiter(t: string, i: nat, e: nat, mode: Mode): Move
    requires i + 2 <= e <= |t|
  {
    Move(Min(|t|, i + ByteLen(t[i..e])), t[i..e], mode, false)
  }

  function Step(t: string, i: nat, m: Mode): (mv: Move)
    requires i < |t|
    ensures i < i + |mv.text| <= mv.next <= |t|
    ensures mv.cut ==> m == Plain(TopLevel) && mv == Move(i + 1, ";", m, true)
  {
    var c := t[i];
    match m
    case LineComment(r) => Move(i + 1, [c], if c == '\n' then Plain(r) else m, false)
    case BlockComment(r) =>
      if Pair(t, i, '*', '/') then Move(i + 2, "*/", Plain(r), false) else Move(i + 1, [c], m, false)
    case SingleQuote =>
      if Pair(t, i, '\'', '\'') then Move(i + 2, "''", m, false)
      else Move(i + 1, [c], if c == '\'' then Plain(TopLevel) else m, false)
    case DoubleQuote => Move(i + 1, [c], if c == '"' then Plain(TopLevel) else m, false)
    case Plain(r) =>
      var e := DelimiterEnd(t, i);
      if Pair(t, i, '-', '-') then Move(i + 2, "--", LineComment(r), false)
      else if Pair(t, i, '/', '*') then Move(i + 2, "/*", BlockComment(r), false)
      else if r.Quoted? then
        if ClosesAt(t, i, r.tag) then TakeDelimiter(t, i, e, Plain(TopLevel))
        else Move(i + 1, [c], m, false)
      else if e > i then TakeDelimiter(t, i, e, Plain(Quoted(TagOf(t, i, e))))
      else if c == '\'' then Move(i + 1, [c], SingleQuote, false)
      else if c == '"' then Move(i + 1, [c], DoubleQuote, false)
      else Move(i + 1, [c], m, c == ';')
  }

  lemma StepPushesWhatItReads(t: string, i: nat, m: Mode)
    requires i < |t|
    ensures Step(t, i, m).text == t[i..i + |Step(t, i, m).text|]
  {
  }

  /** Every buffer the scan hands to the classifier, in order: the ones flushed at a cut, then
      the tail unless it is empty. */
  function Buffers(t: string, i: nat, m: Mode, current: string): seq<string>
    requires i <= |t|
    decreases |t| - i
  {
    if i == |t| then (if current == "" then [] else [current])
    else
      var mv := Step(t, i, m);
      var pushed := current + mv.text;
      if mv.cut then [pushed] + Buffers(t, mv.next, mv.mode, "") else Buffers(t, mv.next, mv.mode, pushed)
  }

  lemma BuffersUnfold(t: string, i: nat, m: Mode, current: string)
    requires i < |t|
    ensures var mv := Step(t, i, m);
            Buffers(t, i, m, current)
            == (if mv.cut then [current + mv.text] + Buffers(t, mv.next, mv.mode, "")
                else Buffers(t, mv.next, mv.mode, current + mv.text))
  {
  }

  function Concat(parts: seq<string>): string {
    if |parts| == 0 then "" else parts[0] + Concat(parts[1..])
  }

  // ---- When no character is skipped unread ----

  /** The delimiter the machine is about to take, if any, is ASCII or ends the input. */
  predicate DelimiterFits(t: string, i: nat, m: Mode)
    requires i < |t|
  {
    var d := |Step(t, i, m).text|;
    t[i] == '$' && d > 1 ==> IsAscii(t[i..i + d]) || i + d == |t|
  }

  predicate DelimitersFit(t: string, i: nat, m: Mode)
    requires i <= |t|
    decreases |t| - i
  {
    i == |t| || (DelimiterFits(t, i, m) && var mv := Step(t, i, m); DelimitersFit(t, mv.next, mv.mode))
  }

  /** A whole file, read from its start. */
  predicate Fits(t: string) { DelimitersFit(t, 0, Plain(TopLevel)) }

  /** The move reads exactly what it pushes. */
  predicate TakesItsText(t: string, i: nat, m: Mode)
    requires i < |t|
  {
    Step(t, i, m).next == i + |Step(t, i, m).text|
  }

  lemma StepLosesNothingIffFits(t: string, i: nat, m: Mode)
    requires i < |t|
    ensures TakesItsText(t, i, m) <==> DelimiterFits(t, i, m)
  {
    var mv := Step(t, i, m);
    if t[i] == '$' && |mv.text| > 1 { TakeLosesNothingIffFits(t, i, DelimiterEnd(t, i), mv.mode); }
  }

  lemma TakeLosesNothingIffFits(t: string, i: nat, e: nat, mode: Mode)
    requires i + 2 <= e <= |t|
    ensures TakeDelimiter(t, i, e, mode).next == e <==> IsAscii(t[i..e]) || e == |t|
  {
    if !IsAscii(t[i..e]) { WideCharacterCostsMore(t[i..e]); }
  }

  lemma FittingMove(t: string, i: nat, m: Mode) returns (mv: Move)
    requires i < |t| && DelimitersFit(t, i, m)
    ensures mv == Step(t, i, m) && TakesItsText(t, i, m) && mv.text == t[i..mv.next]
    ensures DelimitersFit(t, mv.next, mv.mode)
  {
    mv := Step(t, i, m);
    StepPushesWhatItReads(t, i, m);
    StepLosesNothingIffFits(t, i, m);
  }

  // ---- The token lexer ----

  function LineEnd(t: string, i: nat): (e: nat)
    requires i <= |t|
    ensures i <= e <= |t|
    decreases |t| - i
  {
    if i == |t| then i else if t[i] == '\n' then i + 1 else LineEnd(t, i + 1)
  }

  function BlockEnd(t: string, i: nat): (e: nat)
    requires i <= |t|
    ensures i <= e <= |t|
    decreases |t| - i
  {
    if i == |t| then i else if Pair(t, i, '*', '/') then i + 2 else BlockEnd(t, i + 1)
  }

  function SingleEnd(t: string, i: nat): (e: nat)
    requires i <= |t|
    ensures i <= e <= |t|
    decreases |t| - i
  {
    if i == |t| then i
    else if Pair(t, i, '\'', '\'') then SingleEnd(t, i + 2)
    else if t[i] == '\'' then i + 1
    else SingleEnd(t, i + 1)
  }

  function DoubleEnd(t: string, i: nat): (e: nat)
    requires i <= |t|
    ensures i <= e <= |t|
    decreases |t| - i
  {
    if i == |t| then i else if t[i] == '"' then i + 1 else DoubleEnd(t, i + 1)
  }

  /** Where the comment at `i` ends; `i` itself when there is none. */
  function CommentEnd(t: string, i: nat): (e: nat)
    requires i <= |t|
    ensures e == i || i + 2 <= e <= |t|
  {
    if Pair(t, i, '-', '-') then LineEnd(t, i + 2)
    else if Pair(t, i, '/', '*') then BlockEnd(t, i + 2)
    else i
  }

  /** The end of a dollar-quoted body, closing delimiter included. */
  function BodyEnd(t: string, i: nat, tag: string): (e: nat)
    requires i <= |t|
    ensures i <= e <= |t|
    decreases |t| - i
  {
    if i == |t| then i
    else
      var c := CommentEnd(t, i);
      if c > i then BodyEnd(t, c, tag)
      else if ClosesAt(t, i, tag) then DelimiterEnd(t, i)
      else BodyEnd(t, i + 1, tag)
  }

  /** The end of the top-level token at `i`. */
  function TokenEnd(t: string, i: nat): (e: nat)
    requires i < |t|
    ensures i < e <= |t|
  {
    var c := CommentEnd(t, i);
    var e := DelimiterEnd(t, i);
    if c > i then c
    else if e > i then BodyEnd(t, e, TagOf(t, i, e))
    else if t[i] == '\'' then SingleEnd(t, i + 1)
    else if t[i] == '"' then DoubleEnd(t, i + 1)
    else i + 1
  }

  /** The end of the statement at `i`: past the first semicolon that is a token of its own, or
      the end of the text. */
  function StatementEnd(t: string, i: nat): (e: nat)
    requires i <= |t|
    ensures i <= e <= |t|
    ensures i < |t| ==> i < e
    decreases |t| - i
  {
    if i == |t| then i else if t[i] == ';' then i + 1 else StatementEnd(t, TokenEnd(t, i))
  }

  function Pieces(t: string, i: nat): seq<string>
    requires i <= |t|
    decreases |t| - i
  {
    if i == |t| then []
    else
      var e := StatementEnd(t, i);
      [t[i..e]] + Pieces(t, e)
  }

  // ---- The machine is the token lexer where nothing is skipped ----

  /** Where the token ends that the machine is in the middle of. */
  function TokenRest(t: string, i: nat, m: Mode): (e: nat)
    requires i <= |t|
    ensures i <= e <= |t|
  {
    match m
    case SingleQuote => SingleEnd(t, i)
    case DoubleQuote => DoubleEnd(t, i)
    case Plain(r) => BackIn(t, i, r)
    case LineComment(r) => BackIn(t, LineEnd(t, i), r)
    case BlockComment(r) => BackIn(t, BlockEnd(t, i), r)
  }

  function BackIn(t: string, i: nat, r: Region): (e: nat)
    requires i <= |t|
    ensures i <= e <= |t|
  {
    if r.Quoted? then BodyEnd(t, i, r.tag) else i
  }

  /** The end of the current statement: through the current token, then on. */
  function CurrentEnd(t: string, i: nat, m: Mode): (e: nat)
    requires i <= |t|
    ensures i <= e <= |t|
  {
    StatementEnd(t, TokenRest(t, i, m))
  }

  function Emit(buffer: string, rest: seq<string>): seq<string> {
    if buffer == "" then rest else [buffer] + rest
  }

  // A move that starts no token leaves the token's end where it is.

  lemma TopLevelMove(t: string, i: nat)
    requires i < |t| && TakesItsText(t, i, Plain(TopLevel))
    ensures var mv := Step(t, i, Plain(TopLevel));
            if mv.cut then t[i] == ';' else t[i] != ';' && TokenEnd(t, i) == TokenRest(t, mv.next, mv.mode)
  {
  }

  lemma MoveWithinToken(t: string, i: nat, m: Mode)
    requires i < |t| && TakesItsText(t, i, m) && m != Plain(TopLevel)
    ensures var mv := Step(t, i, m); !mv.cut && TokenRest(t, i, m) == TokenRest(t, mv.next, mv.mode)
  {
  }

  lemma EndMoves(t: string, i: nat, m: Mode)
    requires i < |t| && TakesItsText(t, i, m)
    ensures var mv := Step(t, i, m);
            CurrentEnd(t, i, m) == if mv.cut then i + 1 else CurrentEnd(t, mv.next, mv.mode)
  {
    if m == Plain(TopLevel) { TopLevelMove(t, i); } else { MoveWithinToken(t, i, m); }
  }

  /** The first buffer completes the current statement; the others are the pieces of the rest. */
  predicate Agrees(t: string, i: nat, m: Mode, current: string)
    requires i <= |t|
  {
    var e := CurrentEnd(t, i, m);
    Buffers(t, i, m, current) == Emit(current + t[i..e], Pieces(t, e))
  }

  /** From any mode the machine finishes the token it is in, and then cuts where the token lexer
      does. */
  lemma {:induction false} MachineIsTokenLexer(t: string, i: nat, m: Mode, current: string)
    requires i <= |t| && DelimitersFit(t, i, m)
    ensures Agrees(t, i, m, current)
    decreases |t| - i
  {
    if i == |t| {
      assert current + t[i..i] == current;
    } else {
      var mv := FittingMove(t, i, m);
      if mv.cut {
        MachineIsTokenLexer(t, i + 1, m, "");
        AgreesAtCut(t, i, current);
      } else {
        MachineIsTokenLexer(t, mv.next, mv.mode, current + mv.text);
        AgreesBeforeMove(t, i, m, current, mv);
      }
    }
  }

  lemma AgreesAtCut(t: string, i: nat, current: string)
    requires i < |t| && Step(t, i, Plain(TopLevel)) == Move(i + 1, ";", Plain(TopLevel), true)
    requires Agrees(t, i + 1, Plain(TopLevel), "")
    ensures Agrees(t, i, Plain(TopLevel), current)
  {
    BuffersUnfold(t, i, Plain(TopLevel), current);
    EndMoves(t, i, Plain(TopLevel));
    StepPushesWhatItReads(t, i, Plain(TopLevel));
    AgreedPieces(t, i + 1);
  }

  lemma AgreesBeforeMove(t: string, i: nat, m: Mode, current: string, mv: Move)
    requires i < |t| && mv == Step(t, i, m) && TakesItsText(t, i, m) && mv.text == t[i..mv.next] && !mv.cut
    requires Agrees(t, mv.next, mv.mode, current + mv.text)
    ensures Agrees(t, i, m, current)
  {
    BuffersUnfold(t, i, m, current);
    EndMoves(t, i, m);
    AppendNext(current, t, i, mv.next, CurrentEnd(t, mv.next, mv.mode));
  }

  lemma AppendNext(current: string, t: string, i: nat, j: nat, e: nat)
    requires i <= j <= e <= |t|
    ensures current + t[i..j] + t[j..e] == current + t[i..e]
  {
    assert t[i..j] + t[j..e] == t[i..e];
  }

  /** From the start of a statement, the pieces are what the two definitions agree on. */
  lemma AgreedPieces(t: string, i: nat)
    requires i <= |t|
    ensures Agrees(t, i, Plain(TopLevel), "") ==> Buffers(t, i, Plain(TopLevel), "") == Pieces(t, i)
  {
    var e := StatementEnd(t, i);
    assert "" + t[i..e] == t[i..e];
  }

  /** From the start of a file, the machine's buffers are the token lexer's pieces. */
  lemma BuffersArePieces(t: string)
    requires Fits(t)
    ensures Buffers(t, 0, Plain(TopLevel), "") == Pieces(t, 0)
  {
    MachineIsTokenLexer(t, 0, Plain(TopLevel), "");
    AgreedPieces(t, 0);
  }

  // ---- Losslessness ----

  lemma ConcatCons(a: string, rest: seq<string>)
    ensures Concat([a] + rest) == a + Concat(rest)
  {
    assert ([a] + rest)[1..] == rest;
  }

  /** The buffers never hold more than was read; they hold all of it iff every delimiter taken
      is ASCII or ends the input. */
  lemma {:induction false} BuffersHoldInput(t: string, i: nat, m: Mode, current: string)
    requires i <= |t|
    ensures |Concat(Buffers(t, i, m, current))| <= |current| + |t| - i
    ensures DelimitersFit(t, i, m) ==> Concat(Buffers(t, i, m, current)) == current + t[i..]
    ensures !DelimitersFit(t, i, m) ==> |Concat(Buffers(t, i, m, current))| < |current| + |t| - i
    decreases |t| - i
  {
    if i == |t| {
      if current != "" { ConcatCons(current, []); }
    } else {
      var mv := Step(t, i, m);
      var pushed := current + mv.text;
      StepPushesWhatItReads(t, i, m);
      StepLosesNothingIffFits(t, i, m);
      BuffersUnfold(t, i, m, current);
      if mv.cut {
        BuffersHoldInput(t, mv.next, mv.mode, "");
        ConcatCons(pushed, Buffers(t, mv.next, mv.mode, ""));
      } else {
        BuffersHoldInput(t, mv.next, mv.mode, pushed);
      }
      if TakesItsText(t, i, m) { ReadOn(current, t, i, mv.next); }
    }
  }

  lemma ReadOn(current: string, t: string, i: nat, j: nat)
    requires i <= j <= |t|
    ensures current + t[i..j] + t[j..] == current + t[i..] && current + t[i..j] + ("" + t[j..]) == current + t[i..]
  {
    assert t[i..j] + t[j..] == t[i..] && "" + t[j..] == t[j..];
  }

  lemma LosslessIffDelimitersFit(content: string)
    ensures Concat(Buffers(content, 0, Plain(TopLevel), "")) == content <==> Fits(content)
  {
    BuffersHoldInput(content, 0, Plain(TopLevel), "");
    assert "" + content[0..] == content;
  }

  lemma {:induction false} AsciiDelimitersFit(t: string, i: nat, m: Mode)
    requires i <= |t| && IsAscii(t)
    ensures DelimitersFit(t, i, m)
    decreases |t| - i
  {
    if i < |t| {
      var mv := Step(t, i, m);
      AsciiDelimitersFit(t, mv.next, mv.mode);
    }
  }

  /** On ASCII files nothing is lost. */
  lemma AsciiIsLossless(content: string)
    requires IsAscii(content)
    ensures Fits(content) && Concat(Buffers(content, 0, Plain(TopLevel), "")) == content
  {
    AsciiDelimitersFit(content, 0, Plain(TopLevel));
    LosslessIffDelimitersFit(content);
  }

  /** Of this tag three characters are pushed and four are skipped. */
  lemma WideTagMove(t: string) returns (mv: Move)
    requires |t| > 3 && t[..3] == "$\U{E9}$"
    ensures mv == Step(t, 0, Plain(TopLevel)) == Move(4, t[..3], Plain(Quoted("\U{E9}")), false)
  {
    assert t[0] == t[..3][0] == '$' && t[1] == t[..3][1] && t[2] == t[..3][2] == '$';
    assert DollarFrom(t, 2) == 2 && DollarFrom(t, 1) == 2;
    assert DelimiterEnd(t, 0) == 3 && t[0..3] == t[..3];
    var tag := t[..3];
    assert tag[1..][1..] == "$" && tag[1..][1..][1..] == "";
    assert ByteLen(tag[1..][1..]) == 1 && ByteLen(tag[1..]) == 3 && ByteLen(tag) == 4;
    assert TagOf(t, 0, 3) == "\U{E9}";
    mv := Step(t, 0, Plain(TopLevel));
  }

  /** A tag outside ASCII swallows what follows it: here the semicolon vanishes. */
  lemma WideTagLosesText()
    ensures Buffers("$\U{E9}$;", 0, Plain(TopLevel), "") == ["$\U{E9}$"]
  {
    var t := "$\U{E9}$;";
    assert t[..3] == "$\U{E9}$";
    var mv := WideTagMove(t);
    BuffersUnfold(t, 0, Plain(TopLevel), "");
    assert "" + mv.text == "$\U{E9}$";
  }

  // ---- A statement scans the same alone as in its file ----

  /** `p` is what `t` has from position `a` on. */
  predicate IsWindow(p: string, t: string, a: nat) {
    a + |p| <= |t| && forall i :: 0 <= i < |p| ==> p[i] == t[a + i]
  }

  lemma {:induction false} LineEndWindow(p: string, t: string, a: nat, i: nat)
    requires IsWindow(p, t, a) && i <= |p| && LineEnd(t, a + i) <= a + |p|
    ensures a + LineEnd(p, i) == LineEnd(t, a + i)
    decreases |p| - i
  {
    if i < |p| && p[i] != '\n' { LineEndWindow(p, t, a, i + 1); }
  }

  lemma {:induction false} BlockEndWindow(p: string, t: string, a: nat, i: nat)
    requires IsWindow(p, t, a) && i <= |p| && BlockEnd(t, a + i) <= a + |p|
    ensures a + BlockEnd(p, i) == BlockEnd(t, a + i)
    decreases |p| - i
  {
    if i < |p| && !Pair(t, a + i, '*', '/') { BlockEndWindow(p, t, a, i + 1); }
  }

  lemma {:induction false} SingleEndWindow(p: string, t: string, a: nat, i: nat)
    requires IsWindow(p, t, a) && i <= |p| && SingleEnd(t, a + i) <= a + |p|
    ensures a + SingleEnd(p, i) == SingleEnd(t, a + i)
    decreases |p| - i
  {
    if i < |p| {
      if Pair(t, a + i, '\'', '\'') { SingleEndWindow(p, t, a, i + 2); }
      else if t[a + i] != '\'' { SingleEndWindow(p, t, a, i + 1); }
    }
  }

  lemma {:induction false} DoubleEndWindow(p: string, t: string, a: nat, i: nat)
    requires IsWindow(p, t, a) && i <= |p| && DoubleEnd(t, a + i) <= a + |p|
    ensures a + DoubleEnd(p, i) == DoubleEnd(t, a + i)
    decreases |p| - i
  {
    if i < |p| && p[i] != '"' { DoubleEndWindow(p, t, a, i + 1); }
  }

  lemma CommentEndWindow(p: string, t: string, a: nat, i: nat)
    requires IsWindow(p, t, a) && i <= |p| && CommentEnd(t, a + i) <= a + |p|
    ensures a + CommentEnd(p, i) == CommentEnd(t, a + i)
  {
    if Pair(t, a + i, '-', '-') { LineEndWindow(p, t, a, i + 2); }
    else if Pair(t, a + i, '/', '*') { BlockEndWindow(p, t, a, i + 2); }
  }

  lemma {:induction false} DollarFromWindow(p: string, t: string, a: nat, i: nat)
    requires IsWindow(p, t, a) && i <= |p|
    ensures a + DollarFrom(p, i) == Min(DollarFrom(t, a + i), a + |p|)
    decreases |p| - i
  {
    if i < |p| && p[i] != '$' { DollarFromWindow(p, t, a, i + 1); }
  }

  /** The look-ahead for a second dollar sign may run past the window, but then the sign found
      there is not one the statement consumed. */
  lemma DelimiterEndWindow(p: string, t: string, a: nat, i: nat)
    requires IsWindow(p, t, a) && i <= |p|
    ensures a + DelimiterEnd(p, i) == if DelimiterEnd(t, a + i) <= a + |p| then DelimiterEnd(t, a + i) else a + i
  {
    if i < |p| { DollarFromWindow(p, t, a, i + 1); }
  }

  lemma SliceWindow(p: string, t: string, a: nat, i: nat, j: nat)
    requires IsWindow(p, t, a) && i <= j <= |p|
    ensures p[i..j] == t[a + i..a + j]
  {
  }

  /** A delimiter within the window is the same one in the text, tag included. */
  lemma DelimiterWindow(p: string, t: string, a: nat, i: nat)
    requires IsWindow(p, t, a) && i <= |p| && DelimiterEnd(p, i) > i
    ensures a + DelimiterEnd(p, i) == DelimiterEnd(t, a + i)
    ensures TagOf(p, i, DelimiterEnd(p, i)) == TagOf(t, a + i, DelimiterEnd(t, a + i))
  {
    DelimiterEndWindow(p, t, a, i);
    SliceWindow(p, t, a, i + 1, DelimiterEnd(p, i) - 1);
  }

  /** A delimiter closes a body in the window iff it does in the text and lies within. */
  lemma CloserWindow(p: string, t: string, a: nat, i: nat, tag: string)
    requires IsWindow(p, t, a) && i <= |p|
    ensures ClosesAt(p, i, tag) <==> ClosesAt(t, a + i, tag) && DelimiterEnd(t, a + i) <= a + |p|
    ensures ClosesAt(p, i, tag) ==> a + DelimiterEnd(p, i) == DelimiterEnd(t, a + i)
  {
    DelimiterEndWindow(p, t, a, i);
    if DelimiterEnd(p, i) > i { DelimiterWindow(p, t, a, i); }
  }

  /** Where a body goes on after one step; nothing when a delimiter closes it. */
  function BodyNext(t: string, i: nat, tag: string): (n: Option<nat>)
    requires i < |t|
    ensures n.Some? ==> i < n.value <= |t|
  {
    var c := CommentEnd(t, i);
    if c > i then Some(c) else if ClosesAt(t, i, tag) then None else Some(i + 1)
  }

  lemma BodyEndByNext(t: string, i: nat, tag: string)
    requires i < |t|
    ensures match BodyNext(t, i, tag)
            case None => BodyEnd(t, i, tag) == DelimiterEnd(t, i)
            case Some(n) => n <= BodyEnd(t, i, tag) == BodyEnd(t, n, tag)
  {
  }

  lemma BodyNextWindow(p: string, t: string, a: nat, i: nat, j: nat, tag: string)
    requires IsWindow(p, t, a) && i < |p| && j == a + i
    requires match BodyNext(t, j, tag) case None => DelimiterEnd(t, j) <= a + |p| case Some(n) => n <= a + |p|
    ensures match BodyNext(t, j, tag)
            case None => BodyNext(p, i, tag) == None && a + DelimiterEnd(p, i) == DelimiterEnd(t, j)
            case Some(n) => n >= a && BodyNext(p, i, tag) == Some(n - a)
  {
    CommentEndWindow(p, t, a, i);
    CloserWindow(p, t, a, i, tag);
  }

  lemma {:induction false} BodyEndWindow(p: string, t: string, a: nat, i: nat, j: nat, tag: string)
    requires IsWindow(p, t, a) && i <= |p| && j == a + i && BodyEnd(t, j, tag) <= a + |p|
    ensures a + BodyEnd(p, i, tag) == BodyEnd(t, j, tag)
    decreases |p| - i
  {
    if i < |p| {
      BodyEndByNext(t, j, tag);
      BodyNextWindow(p, t, a, i, j, tag);
      BodyEndByNext(p, i, tag);
      match BodyNext(t, j, tag)
      case None =>
      case Some(n) => BodyEndWindow(p, t, a, n - a, n, tag);
    }
  }

  lemma TokenEndWindow(p: string, t: string, a: nat, i: nat)
    requires IsWindow(p, t, a) && i < |p| && TokenEnd(t, a + i) <= a + |p|
    ensures a + TokenEnd(p, i) == TokenEnd(t, a + i)
  {
    CommentEndWindow(p, t, a, i);
    DelimiterEndWindow(p, t, a, i);
    if CommentEnd(p, i) == i {
      if DelimiterEnd(p, i) > i { TaggedBodyWindow(p, t, a, i); } else { QuotesWindow(p, t, a, i); }
    }
  }

  lemma TaggedBodyWindow(p: string, t: string, a: nat, i: nat)
    requires IsWindow(p, t, a) && i <= |p| && DelimiterEnd(p, i) > i && a + DelimiterEnd(p, i) == DelimiterEnd(t, a + i)
    ensures var e, e' := DelimiterEnd(t, a + i), DelimiterEnd(p, i);
            BodyEnd(t, e, TagOf(t, a + i, e)) <= a + |p| ==>
              a + BodyEnd(p, e', TagOf(p, i, e')) == BodyEnd(t, e, TagOf(t, a + i, e))
  {
    var e, e' := DelimiterEnd(t, a + i), DelimiterEnd(p, i);
    DelimiterWindow(p, t, a, i);
    if BodyEnd(t, e, TagOf(t, a + i, e)) <= a + |p| { BodyEndWindow(p, t, a, e', e, TagOf(t, a + i, e)); }
  }

  lemma QuotesWindow(p: string, t: string, a: nat, i: nat)
    requires IsWindow(p, t, a) && i < |p|
    ensures SingleEnd(t, a + i + 1) <= a + |p| ==> a + SingleEnd(p, i + 1) == SingleEnd(t, a + i + 1)
    ensures DoubleEnd(t, a + i + 1) <= a + |p| ==> a + DoubleEnd(p, i + 1) == DoubleEnd(t, a + i + 1)
  {
    if SingleEnd(t, a + i + 1) <= a + |p| { SingleEndWindow(p, t, a, i + 1); }
    if DoubleEnd(t, a + i + 1) <= a + |p| { DoubleEndWindow(p, t, a, i + 1); }
  }

  lemma {:induction false} StatementEndWindow(p: string, t: string, a: nat, i: nat)
    requires IsWindow(p, t, a) && i <= |p| && StatementEnd(t, a + i) == a + |p|
    ensures StatementEnd(p, i) == |p|
    decreases |p| - i
  {
    if i < |p| && t[a + i] != ';' {
      TokenEndWindow(p, t, a, i);
      StatementEndWindow(p, t, a, TokenEnd(p, i));
    }
  }

  /** Every piece of a file is, taken alone, one whole statement. */
  lemma {:induction false} PieceIsOneStatement(t: string, i: nat, k: nat)
    requires i <= |t| && k < |Pieces(t, i)|
    ensures var p := Pieces(t, i)[k]; Pieces(p, 0) == [p]
    decreases |t| - i
  {
    var e := StatementEnd(t, i);
    if k == 0 {
      var p := t[i..e];
      StatementEndWindow(p, t, i, 0);
      assert p[0..|p|] == p && Pieces(p, |p|) == [];
    } else {
      PieceIsOneStatement(t, e, k - 1);
    }
  }
}
