/** `split_sql_statements` of the offline checker: the flag-driven loop, proved against the lexer of
    `SqlLexer`. */
module SqlSplitter {
  import opened Prelude
  import opened Text
  import opened SqlLexer
  import opened SqlClassify

  /** The statements among the buffers: those that are not just whitespace and comments. */
  function Kept(buffers: seq<string>): (r: seq<SqlStatement>) {
    FilterMap(Classify, buffers)
  }

  // ---- The loop ----

  /** The variables of the splitting loop. */
  class Scanner {
    const content: string
    var next: nat            // the position the iterator yields next
    var current: string
    var inSingle: bool
    var inDouble: bool
    var inBlockComment: bool
    var inLineComment: bool
    var dollarTag: Option<string>

    constructor (content: string)
      ensures this.content == content && next == 0 && current == "" && InMode(Plain(TopLevel))
    {
      this.content := content;
      next, current := 0, "";
      inSingle, inDouble, inBlockComment, inLineComment := false, false, false, false;
      dollarTag := None;
    }

    /** The flags stand for one mode: the quote flags and the dollar tag exclude each other, the
        comment flags exclude each other and the quotes. */
    predicate InMode(m: Mode)
      reads `inSingle, `inDouble, `inBlockComment, `inLineComment, `dollarTag
    {
      inSingle == m.SingleQuote?
      && inDouble == m.DoubleQuote?
      && inBlockComment == m.BlockComment?
      && inLineComment == m.LineComment?
      && dollarTag == (if (m.Plain? || m.LineComment? || m.BlockComment?) && m.region.Quoted?
                       then Some(m.region.tag) else None)
    }

    /** The buffers flushed so far, and the ones this state still produces, are all there are. */
    ghost predicate Scanning(m: Mode, flushed: seq<string>, all: seq<string>)
      reads this
    {
      InMode(m) && next <= |content| && flushed + Buffers(content, next, m, current) == all
    }

    /** One turn of the loop, handing out `current` and clearing it if a statement ended. */
    method Turn(ghost m: Mode, ghost flushed: seq<string>, ghost all: seq<string>)
      returns (buffer: Option<string>, ghost m': Mode, ghost flushed': seq<string>)
      requires next < |content| && Scanning(m, flushed, all)
      modifies this
      ensures Scanning(m', flushed', all) && old(next) < next
      ensures flushed' == (match buffer case None => flushed case Some(b) => flushed + [b])
    {
      BuffersUnfold(content, next, m, current);
      m' := Step(content, next, m).mode;
      flushed' := flushed;
      buffer := None;
      var cut := Advance(m);
      if cut {
        buffer := Some(current);
        flushed' := flushed + [current];
        current := "";
        ghost var rest := Buffers(content, next, m', "");
        assert flushed + ([buffer.value] + rest) == flushed' + rest;
      }
    }

    /** The body of the loop. `cut` says that `current` now ends in a top-level semicolon. */
    method Advance(ghost m: Mode) returns (cut: bool)
      requires next < |content| && InMode(m)
      modifies this
      ensures var mv := Step(content, old(next), m);
              InMode(mv.mode) && cut == mv.cut && next == mv.next && current == old(current) + mv.text
    {
      var i := next;
      var c := content[i];
      next := i + 1;
      cut := false;

      if !inSingle && !inDouble && !inBlockComment && !inLineComment && Pair(content, i, '-', '-') {
        inLineComment := true;
        current := current + "--";
        next := next + 1;
        return;
      }
      if inLineComment {
        current := current + [c];
        if c == '\n' {
          inLineComment := false;
        }
        return;
      }

      if !inSingle && !inDouble && !inBlockComment && Pair(content, i, '/', '*') {
        inBlockComment := true;
        current := current + "/*";
        next := next + 1;
        return;
      }
      if inBlockComment {
        if Pair(content, i, '*', '/') {
          current := current + "*/";
          next := next + 1;
          inBlockComment := false;
        } else {
          current := current + [c];
        }
        return;
      }

      if !inSingle && !inDouble && c == '$' {
        var e := DelimiterEnd(content, i);
        if dollarTag.Some? {
          if ClosesAt(content, i, dollarTag.value) {
            current := current + content[i..e];
            next := Min(|content|, i + ByteLen(content[i..e]));
            dollarTag := None;
            return;
          }
        } else if e > i {
          dollarTag := Some(TagOf(content, i, e));
          current := current + content[i..e];
          next := Min(|content|, i + ByteLen(content[i..e]));
          return;
        }
      }

      if dollarTag.Some? {
        current := current + [c];
        return;
      }

      if c == '\'' && !inDouble {
        current := current + [c];
        if inSingle {
          if Pair(content, i, '\'', '\'') {
            current := current + [c];
            next := next + 1;
          } else {
            inSingle := false;
          }
        } else {
          inSingle := true;
        }
        return;
      }

      if c == '"' && !inSingle {
        inDouble := !inDouble;
        current := current + [c];
        return;
      }

      current := current + [c];
      cut := !inSingle && !inDouble && c == ';';
    }
  }

  method SplitSqlStatements(content: string) returns (stmts: seq<SqlStatement>)
    ensures stmts == Kept(Buffers(content, 0, Plain(TopLevel), ""))
    ensures Fits(content) ==> stmts == Kept(Pieces(content, 0))
  {
    stmts := [];
    var s := new Scanner(content);
    ghost var mode, flushed, all := Plain(TopLevel), [], Buffers(content, 0, Plain(TopLevel), "");
    assert [] + all == all;
    while s.next < |s.content|
      invariant fresh(s) && s.content == content && s.Scanning(mode, flushed, all)
      invariant stmts == Kept(flushed)
      decreases |s.content| - s.next
    {
      var buffer;
      ghost var before := flushed;
      buffer, mode, flushed := s.Turn(mode, flushed, all);
      if buffer.Some? {
        stmts := Flush(before, stmts, buffer.value);
      }
    }
    stmts := FlushTail(flushed, stmts, s.current);
    assert flushed + [] == flushed;
    if Fits(content) { BuffersArePieces(content); }
  }

  /** `finalize_statement`, and `push` when it yields something. */
  method Flush(ghost flushed: seq<string>, stmts: seq<SqlStatement>, buffer: string)
    returns (stmts': seq<SqlStatement>)
    requires stmts == Kept(flushed)
    ensures stmts' == Kept(flushed + [buffer])
  {
    stmts' := stmts;
    var stmt := FinalizeStatement(buffer);
    FilterMapAppend(Classify, flushed, buffer);
    if stmt.Some? {
      stmts' := stmts' + [stmt.value];
    }
  }

  /** Trailing content: files commonly omit the final semicolon. */
  method FlushTail(ghost flushed: seq<string>, stmts: seq<SqlStatement>, current: string)
    returns (stmts': seq<SqlStatement>)
    requires stmts == Kept(flushed)
    ensures stmts' == Kept(if current == "" then flushed else flushed + [current])
  {
    stmts' := stmts;
    if Trim(current) != "" {
      stmts' := Flush(flushed, stmts, current);
    } else if current != "" {
      FilterMapAppend(Classify, flushed, current);
      BlankIsDropped(current);
    }
  }

  lemma BlankIsDropped(text: string)
    requires Trim(text) == ""
    ensures Classify(text) == None
  {
    NothingStripsToNothing();
  }
}
