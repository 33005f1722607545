/** What becomes of a statement that is split again, for statements of any file. In a file that
    loses text, the buffer the machine fills is not a piece of the file; followed over the file and
    over the buffer, the machine still makes the same moves, until the buffer loses text itself. */
module SqlResplit {
  import opened Prelude
  import opened Text
  import opened SqlLexer

  /** What the current buffer still receives. */
  function StillPushed(t: string, i: nat, m: Mode): string
    requires i <= |t|
    decreases |t| - i
  {
    if i == |t| then ""
    else
      var mv := Step(t, i, m);
      if mv.cut then mv.text else mv.text + StillPushed(t, mv.next, mv.mode)
  }

  lemma {:induction false} FirstBuffer(t: string, i: nat, m: Mode, current: string)
    requires i <= |t| && Buffers(t, i, m, current) != []
    ensures Buffers(t, i, m, current)[0] == current + StillPushed(t, i, m)
    decreases |t| - i
  {
    if i < |t| {
      var mv := Step(t, i, m);
      BuffersUnfold(t, i, m, current);
      if !mv.cut {
        FirstBuffer(t, mv.next, mv.mode, current + mv.text);
        PushedNext(t, i, m, mv);
        Regroup(current, mv.text, StillPushed(t, mv.next, mv.mode));
      }
    }
  }

  lemma {:induction false} LaterBuffer(t: string, i: nat, m: Mode, current: string, k: nat) returns (j: nat)
    requires i <= |t| && 0 < k < |Buffers(t, i, m, current)|
    ensures j < |t| && Buffers(t, i, m, current)[k] == StillPushed(t, j, Plain(TopLevel))
    ensures DelimitersFit(t, i, m) ==> DelimitersFit(t, j, Plain(TopLevel))
    decreases |t| - i, 0
  {
    if i < |t| {
      var mv := Step(t, i, m);
      BuffersUnfold(t, i, m, current);
      if !mv.cut {
        j := LaterBuffer(t, mv.next, mv.mode, current + mv.text, k);
      } else {
        j := BufferOf(t, mv.next, k - 1);
      }
    } else {
      j := i;
    }
  }

  /** Every buffer is what the machine pushes from the start of some statement on. */
  lemma {:induction false} BufferOf(t: string, i: nat, k: nat) returns (j: nat)
    requires i <= |t| && k < |Buffers(t, i, Plain(TopLevel), "")|
    ensures j < |t| && Buffers(t, i, Plain(TopLevel), "")[k] == StillPushed(t, j, Plain(TopLevel))
    ensures DelimitersFit(t, i, Plain(TopLevel)) ==> DelimitersFit(t, j, Plain(TopLevel))
    decreases |t| - i, 1
  {
    if k == 0 {
      j := i;
      FirstBuffer(t, i, Plain(TopLevel), "");
      assert "" + StillPushed(t, i, Plain(TopLevel)) == StillPushed(t, i, Plain(TopLevel));
    } else {
      j := LaterBuffer(t, i, Plain(TopLevel), "", k);
    }
  }

  // ---- What the next characters of the buffer are ----

  lemma {:induction false} NoDollarPushed(t: string, i: nat, m: Mode)
    requires i <= |t| && forall k :: i <= k < |t| ==> t[k] != '$'
    ensures '$' !in StillPushed(t, i, m)
    decreases |t| - i
  {
    if i < |t| {
      var mv := Step(t, i, m);
      StepPushesWhatItReads(t, i, m);
      NoDollarPushed(t, mv.next, mv.mode);
    }
  }

  lemma FirstTwo(t: string, i: nat, m: Mode)
    requires i < |t|
    ensures var q, mv := StillPushed(t, i, m), Step(t, i, m);
            mv.text <= q && q[0] == t[i]
            && (mv.cut ==> q == ";")
            && (!mv.cut ==> (|q| > 1 <==> i + 1 < |t|) && (|q| > 1 ==> q[1] == t[i + 1]))
  {
    var mv := Step(t, i, m);
    StepPushesWhatItReads(t, i, m);
    if !mv.cut && |mv.text| == 1 {
      OneCharacterMove(t, i, m);
      if i + 1 < |t| { StepPushesWhatItReads(t, i + 1, mv.mode); }
    }
  }

  lemma OneCharacterMove(t: string, i: nat, m: Mode)
    requires i < |t| && |Step(t, i, m).text| == 1
    ensures Step(t, i, m).next == i + 1
  {
  }

  predicate InBody(m: Mode) { !m.SingleQuote? && !m.DoubleQuote? && m.region.Quoted? }

  lemma BodyMove(t: string, i: nat, m: Mode)
    requires i < |t| && InBody(m) && t[i] != '$'
    ensures var mv := Step(t, i, m);
            !mv.cut && InBody(mv.mode) && i < mv.next <= i + 2 && mv.text == t[i..mv.next]
            && StillPushed(t, i, m) == mv.text + StillPushed(t, mv.next, mv.mode)
  {
    StepPushesWhatItReads(t, i, m);
  }

  /** Inside a body everything up to the next dollar sign is pushed as it is. */
  lemma {:induction false} PushedToDollar(t: string, i: nat, m: Mode, n: nat)
    requires i <= n < |t| && InBody(m) && (forall k :: i <= k < n ==> t[k] != '$')
    ensures t[i..n + 1] <= StillPushed(t, i, m)
    decreases n - i
  {
    if i == n {
      FirstTwo(t, i, m);
    } else {
      BodyMove(t, i, m);
      var mv := Step(t, i, m);
      if mv.next <= n {
        PushedToDollar(t, mv.next, mv.mode, n);
        ReadThenPushed(t, i, mv.next, n + 1, StillPushed(t, mv.next, mv.mode));
      }
    }
  }

  lemma ReadThenPushed(t: string, i: nat, j: nat, e: nat, q: string)
    requires i <= j <= e <= |t| && t[j..e] <= q
    ensures t[i..e] <= t[i..j] + q
  {
    assert t[i..e] == t[i..j] + t[j..e];
  }

  /** `p` has from `i` on what the machine pushes from position `j` of `t` on. */
  predicate Follows(p: string, i: nat, t: string, j: nat, m: Mode) {
    i <= |p| && j <= |t| && p[i..] == StillPushed(t, j, m)
  }

  lemma SamePairs(p: string, i: nat, t: string, j: nat, m: Mode, a: char, b: char)
    requires Follows(p, i, t, j, m) && j < |t| && a != ';'
    ensures Pair(p, i, a, b) <==> Pair(t, j, a, b)
  {
    FirstTwo(t, j, m);
  }

  /** The look-ahead for a delimiter finds the same one. */
  lemma SameDelimiter(p: string, i: nat, t: string, j: nat, r: Region)
    requires Follows(p, i, t, j, Plain(r)) && j < |t|
    requires !Pair(t, j, '-', '-') && !Pair(t, j, '/', '*')
    ensures i < |p| && p[i] == t[j]
    ensures DelimiterEnd(p, i) - i == DelimiterEnd(t, j) - j
    ensures p[i..DelimiterEnd(p, i)] == t[j..DelimiterEnd(t, j)]
  {
    FirstTwo(t, j, Plain(r));
    if t[j] == '$' {
      DollarFromMeaning(t, j + 1);
      if DelimiterEnd(t, j) > j {
        DelimiterIsPushed(t, j, r);
        SameFirstDelimiter(p, i, t, j, DelimiterEnd(t, j) - j);
      } else {
        LoneDollar(t, j, r);
        DollarFromMeaning(p, i + 1);
      }
    }
  }

  lemma LoneDollar(t: string, j: nat, r: Region)
    requires j < |t| && t[j] == '$' && DelimiterEnd(t, j) == j
    ensures var q := StillPushed(t, j, Plain(r)); q[..1] == "$" && '$' !in q[1..]
  {
    OneDollarMove(t, j, r);
    DollarFromMeaning(t, j + 1);
    NoDollarPushed(t, j + 1, Plain(r));
  }

  lemma OneDollarMove(t: string, j: nat, r: Region)
    requires j < |t| && t[j] == '$' && (if r.Quoted? then !ClosesAt(t, j, r.tag) else DelimiterEnd(t, j) == j)
    ensures StillPushed(t, j, Plain(r)) == t[j..j + 1] + StillPushed(t, j + 1, Plain(r))
  {
    DollarMove(t, j, r);
    PushedNext(t, j, Plain(r), Step(t, j, Plain(r)));
    assert t[j..j + 1] == [t[j]];
  }

  lemma DollarMove(t: string, j: nat, r: Region)
    requires j < |t| && t[j] == '$' && (if r.Quoted? then !ClosesAt(t, j, r.tag) else DelimiterEnd(t, j) == j)
    ensures Step(t, j, Plain(r)) == Move(j + 1, [t[j]], Plain(r), false)
  {
  }

  lemma PushedNext(t: string, i: nat, m: Mode, mv: Move)
    requires i < |t| && mv == Step(t, i, m) && !mv.cut
    ensures StillPushed(t, i, m) == mv.text + StillPushed(t, mv.next, mv.mode)
  {
  }

  lemma TakenDelimiter(t: string, j: nat, r: Region)
    requires j < |t| && DelimiterEnd(t, j) > j && (r.Quoted? ==> ClosesAt(t, j, r.tag))
    ensures var mv := Step(t, j, Plain(r)); mv.text == t[j..DelimiterEnd(t, j)] && !mv.cut
  {
  }

  lemma DelimiterIsPushed(t: string, j: nat, r: Region)
    requires j < |t| && DelimiterEnd(t, j) > j
    ensures t[j..DelimiterEnd(t, j)] <= StillPushed(t, j, Plain(r))
  {
    var e := DelimiterEnd(t, j);
    if r.Quoted? && !ClosesAt(t, j, r.tag) {
      OneDollarMove(t, j, r);
      DollarFromMeaning(t, j + 1);
      PushedToDollar(t, j + 1, Plain(r), e - 1);
      ReadThenPushed(t, j, j + 1, e, StillPushed(t, j + 1, Plain(r)));
    } else {
      TakenDelimiter(t, j, r);
      PushedNext(t, j, Plain(r), Step(t, j, Plain(r)));
    }
  }

  lemma SameFirstDelimiter(p: string, i: nat, t: string, j: nat, n: nat)
    requires i <= |p| && j < |t| && n == DelimiterEnd(t, j) - j && n > 0
    requires t[j..j + n] <= p[i..]
    ensures DelimiterEnd(p, i) == i + n && p[i..i + n] == t[j..j + n]
  {
    var w := t[j..j + n];
    assert IsWindow(w, t, j);
    assert forall k :: 0 <= k < n ==> p[i..][k] == w[k];
    assert IsWindow(w, p, i);
    DelimiterEndWindow(w, t, j, 0);
    DelimiterEndWindow(w, p, i, 0);
  }

  // ---- The same moves ----

  lemma SameMove(p: string, i: nat, t: string, j: nat, m: Mode)
    requires Follows(p, i, t, j, m) && j < |t|
    ensures i < |p| && Step(p, i, m).text == Step(t, j, m).text
    ensures Step(p, i, m).mode == Step(t, j, m).mode && Step(p, i, m).cut == Step(t, j, m).cut
  {
    FirstTwo(t, j, m);
    SamePairs(p, i, t, j, m, '*', '/');
    SamePairs(p, i, t, j, m, '\'', '\'');
    if m.Plain? { SamePlainMove(p, i, t, j, m.region); }
  }

  lemma SamePlainMove(p: string, i: nat, t: string, j: nat, r: Region)
    requires Follows(p, i, t, j, Plain(r)) && j < |t| && i < |p| && p[i] == t[j]
    ensures var mv, mw := Step(t, j, Plain(r)), Step(p, i, Plain(r));
            mw.text == mv.text && mw.mode == mv.mode && mw.cut == mv.cut
  {
    SamePairs(p, i, t, j, Plain(r), '-', '-');
    SamePairs(p, i, t, j, Plain(r), '/', '*');
    if !Pair(t, j, '-', '-') && !Pair(t, j, '/', '*') {
      SameDelimiter(p, i, t, j, r);
      if DelimiterEnd(t, j) > j { SameTag(p, i, DelimiterEnd(p, i), t, j, DelimiterEnd(t, j)); }
    }
  }

  lemma SameTag(p: string, i: nat, e: nat, t: string, j: nat, f: nat)
    requires i + 2 <= e <= |p| && j + 2 <= f <= |t| && p[i..e] == t[j..f]
    ensures TagOf(p, i, e) == TagOf(t, j, f)
  {
    assert e - i == |p[i..e]| == f - j;
    forall k | i < k < e ensures p[k] == t[j + k - i] { assert p[i..e][k - i] == t[j..f][k - i]; }
  }

  /** A buffer that loses no text on its own is one buffer on its own. */
  lemma {:induction false} StaysTogether(p: string, i: nat, t: string, j: nat, m: Mode, current: string)
    requires Follows(p, i, t, j, m) && DelimitersFit(p, i, m) && current + p[i..] != ""
    ensures Buffers(p, i, m, current) == [current + p[i..]]
    decreases |p| - i
  {
    if j == |t| {
      assert i == |p| && current + p[i..] == current;
    } else {
      var mv, mw := Step(t, j, m), Step(p, i, m);
      FittingStep(p, i, m, mw);
      FollowsOn(p, i, t, j, m, mv, mw);
      BuffersUnfold(p, i, m, current);
      Regroup(current, mw.text, p[mw.next..]);
      if !mv.cut { StaysTogether(p, mw.next, t, mv.next, mv.mode, current + mw.text); }
    }
  }

  lemma Regroup(a: string, b: string, c: string)
    ensures a + b + c == a + (b + c) && (c == "" ==> a + (b + c) == a + b)
  {
  }

  lemma FollowsOn(p: string, i: nat, t: string, j: nat, m: Mode, mv: Move, mw: Move)
    requires Follows(p, i, t, j, m) && i < |p| && j < |t|
    requires mv == Step(t, j, m) && mw == Step(p, i, m) && TakesItsText(p, i, m)
    ensures mw.text == mv.text && mw.mode == mv.mode && mw.cut == mv.cut
    ensures p[i..] == mw.text + p[mw.next..]
    ensures if mv.cut then mw.next == |p| else Follows(p, mw.next, t, mv.next, mv.mode)
  {
    SameMove(p, i, t, j, m);
    TextThenRest(p, i, m, mw);
    if mv.cut {
      PushedLast(t, j, m, mv);
      SameRest(mv.text, p[mw.next..], "");
    } else {
      PushedNext(t, j, m, mv);
      SameRest(mv.text, p[mw.next..], StillPushed(t, mv.next, mv.mode));
    }
  }

  lemma TextThenRest(p: string, i: nat, m: Mode, mw: Move)
    requires i < |p| && mw == Step(p, i, m) && TakesItsText(p, i, m)
    ensures p[i..] == mw.text + p[mw.next..]
  {
    StepPushesWhatItReads(p, i, m);
  }

  lemma PushedLast(t: string, i: nat, m: Mode, mv: Move)
    requires i < |t| && mv == Step(t, i, m) && mv.cut
    ensures StillPushed(t, i, m) == mv.text + ""
  {
  }

  lemma SameRest(a: string, b: string, c: string)
    requires a + b == a + c
    ensures b == c
  {
    assert (a + b)[|a|..] == b && (a + c)[|a|..] == c;
  }

  lemma FittingStep(p: string, i: nat, m: Mode, mw: Move)
    requires i < |p| && DelimitersFit(p, i, m) && mw == Step(p, i, m)
    ensures DelimitersFit(p, mw.next, mw.mode) && TakesItsText(p, i, m)
  {
    StepLosesNothingIffFits(p, i, m);
  }

  /** The buffer of any file, scanned on its own, is one buffer iff it loses no text. */
  lemma BufferIsOneIffFits(content: string, k: nat)
    requires k < |Buffers(content, 0, Plain(TopLevel), "")|
    ensures var p := Buffers(content, 0, Plain(TopLevel), "")[k];
            Buffers(p, 0, Plain(TopLevel), "") == [p] <==> Fits(p)
  {
    var p := Buffers(content, 0, Plain(TopLevel), "")[k];
    var j := BufferOf(content, 0, k);
    FirstTwo(content, j, Plain(TopLevel));
    assert p[0..] == p && "" + p == p;
    if Fits(p) { StaysTogether(p, 0, content, j, Plain(TopLevel), ""); }
    if Buffers(p, 0, Plain(TopLevel), "") == [p] {
      assert Concat([p]) == p + Concat([p][1..]) && [p][1..] == [];
      LosslessIffDelimitersFit(p);
    }
  }

  // ---- A statement of a fitting file fits ----

  lemma FitsAlike(p: string, i: nat, t: string, j: nat, m: Mode)
    requires Follows(p, i, t, j, m) && i < |p| && j < |t| && DelimiterFits(t, j, m)
    ensures DelimiterFits(p, i, m)
  {
    var mv := Step(t, j, m);
    SameMove(p, i, t, j, m);
    FirstTwo(t, j, m);
    StepPushesWhatItReads(t, j, m);
    StepPushesWhatItReads(p, i, m);
    if j + |mv.text| == |t| { assert |StillPushed(t, j, m)| == |mv.text|; }
  }

  lemma {:induction false} StaysFitting(p: string, i: nat, t: string, j: nat, m: Mode)
    requires Follows(p, i, t, j, m) && DelimitersFit(t, j, m)
    ensures DelimitersFit(p, i, m)
    decreases |p| - i
  {
    if i < |p| {
      var mv, mw := Step(t, j, m), Step(p, i, m);
      FittingStep(t, j, m, mv);
      FitsAlike(p, i, t, j, m);
      StepLosesNothingIffFits(p, i, m);
      FollowsOn(p, i, t, j, m, mv, mw);
      if !mv.cut { StaysFitting(p, mw.next, t, mv.next, mv.mode); }
    }
  }

  /** Every statement of a file that loses nothing loses nothing on its own. */
  lemma PieceFits(t: string, i: nat, k: nat)
    requires i <= |t| && DelimitersFit(t, i, Plain(TopLevel)) && k < |Pieces(t, i)|
    ensures Fits(Pieces(t, i)[k])
  {
    MachineIsTokenLexer(t, i, Plain(TopLevel), "");
    AgreedPieces(t, i);
    var p := Pieces(t, i)[k];
    var j := BufferOf(t, i, k);
    assert p[0..] == p;
    StaysFitting(p, 0, t, j, Plain(TopLevel));
  }
}
