/** The server's own check of a handler name before it calls the handler, and which pages pass. */
module HandlerCalls {
  import opened Prelude
  import opened Text
  import P = Paths

  const MAX_IDENT_BYTES := 128

  predicate IsIdentChar(c: char) { IsAsciiAlphanumeric(c) || c == '_' || c == '$' }

  /** What is accepted at position `i`: no digit or dollar sign in front, and one dot in all. */
  predicate IsAcceptedAt(ident: string, i: nat)
    requires i < |ident|
  {
    var c := ident[i];
    IsAsciiAlphabetic(c) || c == '_' || (i > 0 && (IsAsciiDigit(c) || c == '$'))
    || (c == '.' && i > 0 && '.' !in ident[..i])
  }

  predicate IsSafeIdent(ident: string) {
    ident != "" && ByteLen(ident) <= 128 && forall i :: 0 <= i < |ident| ==> IsAcceptedAt(ident, i)
  }

  /** `is_safe_ident`; every byte of a wide character is refused, so characters do. */
  method CheckIdent(ident: string) returns (ok: bool)
    ensures ok <==> IsSafeIdent(ident)
  {
    if ident == "" || ByteLen(ident) > MAX_IDENT_BYTES {
      return false;
    }
    var dots := 0;
    for i := 0 to |ident|
      invariant forall k :: 0 <= k < i ==> IsAcceptedAt(ident, k)
      invariant dots == 0 <==> '.' !in ident[..i]
      invariant dots >= 0
    {
      var c := ident[i];
      var accepted := IsAsciiAlphabetic(c) || c == '_' || (i > 0 && (IsAsciiDigit(c) || c == '$'))
        || (c == '.' && dots == 0 && i > 0);
      assert ident[..i + 1] == ident[..i] + [c];
      if c == '.' {
        dots := dots + 1;
      }
      if !accepted {
        assert !IsAcceptedAt(ident, i);
        return false;
      }
    }
    return true;
  }

  predicate BeginsName(c: char) { 'a' <= c <= 'z' || 'A' <= c <= 'Z' || c == '_' }

  predicate ContinuesName(c: char) { BeginsName(c) || '0' <= c <= '9' || c == '$' }

  predicate HasOneDotAtMost(s: string) { forall i, j :: 0 <= i < j < |s| && s[i] == '.' ==> s[j] != '.' }

  /** A letter or an underscore, then letters, digits, underscores and dollar signs, with at most one
      dot among them, 128 bytes in all. */
  lemma SafeIdentIff(ident: string)
    ensures IsSafeIdent(ident)
            <==> ident != "" && ByteLen(ident) <= 128 && BeginsName(ident[0])
                 && (forall i :: 0 <= i < |ident| ==> ContinuesName(ident[i]) || ident[i] == '.')
                 && HasOneDotAtMost(ident)
  {
    if IsSafeIdent(ident) {
      assert IsAcceptedAt(ident, 0);
      forall i | 0 <= i < |ident| ensures ContinuesName(ident[i]) || ident[i] == '.' { assert IsAcceptedAt(ident, i); }
      forall i, j | 0 <= i < j < |ident| && ident[i] == '.' ensures ident[j] != '.' {
        assert IsAcceptedAt(ident, j) && ident[..j][i] == '.';
      }
    }
    if ident != "" && BeginsName(ident[0]) && HasOneDotAtMost(ident) {
      forall i | 0 <= i < |ident| && (ContinuesName(ident[i]) || ident[i] == '.') ensures IsAcceptedAt(ident, i) {
        NameIsAcceptedAt(ident, i);
      }
    }
  }

  lemma NameIsAcceptedAt(ident: string, i: nat)
    requires i < |ident| && BeginsName(ident[0]) && HasOneDotAtMost(ident)
    requires ContinuesName(ident[i]) || ident[i] == '.'
    ensures IsAcceptedAt(ident, i)
  {
    if ident[i] == '.' { assert forall k :: 0 <= k < i ==> ident[..i][k] == ident[k]; }
  }

  // ---- Which pages the server will call ----

  predicate IsIdentText(s: string) { forall i :: 0 <= i < |s| ==> IsIdentChar(s[i]) }

  lemma IdentTextConcat(a: string, b: string)
    ensures IsIdentText(a + b) <==> IsIdentText(a) && IsIdentText(b)
  {
    if IsIdentText(a + b) {
      assert forall i :: 0 <= i < |a| ==> a[i] == (a + b)[i];
      assert forall i :: 0 <= i < |b| ==> b[i] == (a + b)[|a| + i];
    }
  }

  lemma {:induction false} IdentTextJoin(parts: seq<string>)
    ensures IsIdentText(Join(parts, "__")) <==> forall i :: 0 <= i < |parts| ==> IsIdentText(parts[i])
  {
    if |parts| > 1 {
      IdentTextJoin(parts[1..]);
      IdentTextConcat(parts[0] + "__", Join(parts[1..], "__"));
      IdentTextConcat(parts[0], "__");
      assert parts == [parts[0]] + parts[1..];
    }
  }

  /** Behind the schema and its dot, identifier characters are all that is accepted. */
  lemma SchemaQualified(rest: string)
    ensures IsSafeIdent("pgweb." + rest) <==> ByteLen("pgweb." + rest) <= MAX_IDENT_BYTES && IsIdentText(rest)
  {
    var s := "pgweb." + rest;
    assert forall i :: 0 <= i < |rest| ==> s[6 + i] == rest[i];
    assert forall i :: 6 <= i < |s| ==> '.' in s[..i] by {
      forall i | 6 <= i < |s| ensures '.' in s[..i] { assert s[..i][5] == '.'; }
    }
    assert '.' !in s[..5];
    if IsSafeIdent(s) {
      forall i | 0 <= i < |rest| ensures IsIdentChar(rest[i]) { assert IsAcceptedAt(s, 6 + i); }
    }
  }

  /** A literal name the server accepts. */
  predicate IsCallable(seg: P.Segment) { seg.Static? ==> IsIdentText(seg.name) }

  lemma PartIsIdentIffCallable(seg: P.Segment)
    requires seg.Capture? ==> P.IsValidCaptureName(seg.name)
    ensures IsIdentText(P.HandlerPart(seg)) <==> IsCallable(seg)
  {
    if seg.Capture? { IdentTextConcat("$", seg.name); }
  }

  lemma StemIsIdent(stem: P.Stem)
    ensures IsIdentText(P.StemName(stem))
  {
  }

  /** The server calls a page's handler iff every literal name in its directory consists of ASCII
      letters, digits, underscores and dollar signs, and the whole name fits. */
  lemma PageIsCallableIff(segs: seq<P.Segment>, stem: P.Stem)
    requires forall i :: 0 <= i < |segs| && segs[i].Capture? ==> P.IsValidCaptureName(segs[i].name)
    ensures var name := P.BuildHandlerName(segs, P.StemName(stem));
            IsSafeIdent(name)
            <==> ByteLen(name) <= MAX_IDENT_BYTES && forall i :: 0 <= i < |segs| ==> IsCallable(segs[i])
  {
    var joined := Join(Map(P.HandlerPart, segs) + [P.StemName(stem)], "__");
    P.HandlerNameIsJoin(segs, P.StemName(stem));
    PagesPrefix(joined);
    JoinedIsIdentIff(segs, stem, joined);
  }

  lemma JoinedIsIdentIff(segs: seq<P.Segment>, stem: P.Stem, joined: string)
    requires forall i :: 0 <= i < |segs| && segs[i].Capture? ==> P.IsValidCaptureName(segs[i].name)
    requires joined == Join(Map(P.HandlerPart, segs) + [P.StemName(stem)], "__")
    ensures IsIdentText(joined) <==> forall i :: 0 <= i < |segs| ==> IsCallable(segs[i])
  {
    IdentTextJoin(Map(P.HandlerPart, segs) + [P.StemName(stem)]);
    PartsAreIdentIffCallable(segs, stem);
  }

  lemma PagesPrefix(joined: string)
    ensures var name := "pgweb.pages__" + joined;
            IsSafeIdent(name) <==> ByteLen(name) <= MAX_IDENT_BYTES && IsIdentText(joined)
  {
    assert "pgweb.pages__" + joined == "pgweb." + ("pages__" + joined);
    SchemaQualified("pages__" + joined);
    IdentTextConcat("pages__", joined);
  }

  lemma PartsAreIdentIffCallable(segs: seq<P.Segment>, stem: P.Stem)
    requires forall i :: 0 <= i < |segs| && segs[i].Capture? ==> P.IsValidCaptureName(segs[i].name)
    ensures var parts := Map(P.HandlerPart, segs) + [P.StemName(stem)];
            (forall i :: 0 <= i < |parts| ==> IsIdentText(parts[i]))
            <==> forall i :: 0 <= i < |segs| ==> IsCallable(segs[i])
  {
    var parts := Map(P.HandlerPart, segs) + [P.StemName(stem)];
    StemIsIdent(stem);
    assert parts[|segs|] == P.StemName(stem);
    forall i | 0 <= i < |segs| ensures IsIdentText(parts[i]) <==> IsCallable(segs[i]) {
      PartIsIdentIffCallable(segs[i]);
      assert parts[i] == P.HandlerPart(segs[i]);
    }
    if i :| 0 <= i < |segs| && !IsCallable(segs[i]) { assert !IsIdentText(parts[i]); }
  }

  /** A hyphen is enough. */
  lemma HyphenIsRefused(stem: P.Stem)
    ensures !IsSafeIdent(P.BuildHandlerName([P.Static("about-us")], P.StemName(stem)))
  {
    PageIsCallableIff([P.Static("about-us")], stem);
    assert "about-us"[5] == '-';
    assert !IsCallable([P.Static("about-us")][0]);
  }
}
