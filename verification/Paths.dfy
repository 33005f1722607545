/** From a directory under `pages/` to a route pattern, a handler name and a template key. */
module Paths {
  import opened Prelude
  import opened Text
  import opened Sorting

  datatype Segment = Static(name: string) | Capture(name: string)

  datatype SegmentError = UnbalancedBrackets(raw: string) | NestedBrackets(raw: string) | BadCaptureName(raw: string)

  datatype ScanError = BadStem(stem: string) | BadSegment(error: SegmentError)

  /** One (method, route, handler, template) quadruple, with the files it comes from. */
  datatype RouteEntry = RouteEntry(
    method_: string, route: string, handlerName: string, templatePath: Option<string>,
    htmlPath: Option<string>, sqlPath: Option<string>)

  const MAX_CAPTURE_BYTES := 63

  predicate IsValidCaptureName(name: string) {
    name != "" && ByteLen(name) <= 63
    && (IsAsciiAlphabetic(name[0]) || name[0] == '_')
    && forall i :: 0 < i < |name| ==> IsAsciiAlphanumeric(name[i]) || name[i] == '_'
  }

  method ValidateCaptureName(name: string) returns (ok: bool)
    ensures ok <==> IsValidCaptureName(name)
  {
    if name == "" || ByteLen(name) > MAX_CAPTURE_BYTES {
      return false;
    }
    if !(IsAsciiAlphabetic(name[0]) || name[0] == '_') {
      return false;
    }
    for i := 1 to |name|
      invariant forall k :: 0 < k < i ==> IsAsciiAlphanumeric(name[k]) || name[k] == '_'
    {
      if !(IsAsciiAlphanumeric(name[i]) || name[i] == '_') {
        return false;
      }
    }
    return true;
  }

  function ParseSegment(raw: string): Result<Segment, SegmentError> {
    if '[' !in raw && ']' !in raw then Ok(Static(raw))
    else if !(StartsWith(raw, "[") && EndsWith(raw, "]")) then Err(UnbalancedBrackets(raw))
    else
      assert raw[..1][0] == '[' && raw[|raw| - 1..][0] == ']';
      var inner := raw[1..|raw| - 1];
      if '[' in inner || ']' in inner then Err(NestedBrackets(raw))
      else if !IsValidCaptureName(inner) then Err(BadCaptureName(raw))
      else Ok(Capture(inner))
  }

  /** How the segment is spelled in the file system. */
  function RawName(seg: Segment): string {
    match seg
    case Static(n) => n
    case Capture(n) => "[" + n + "]"
  }

  /** A directory name is accepted iff it is bracket-free or one bracketed identifier, and its
      segment remembers it exactly. */
  lemma ParseSegmentMeaning(raw: string)
    ensures ParseSegment(raw).Ok? ==> RawName(ParseSegment(raw).value) == raw
    ensures ParseSegment(raw).Ok?
            <==> ('[' !in raw && ']' !in raw) || exists n :: IsValidCaptureName(n) && raw == RawName(Capture(n))
  {
    if ParseSegment(raw).Ok? {
      if '[' in raw || ']' in raw { BracketedIs(raw); }
    } else if n :| IsValidCaptureName(n) && raw == RawName(Capture(n)) {
      CaptureIsAccepted(n);
    }
  }

  lemma BracketedIs(raw: string)
    requires ParseSegment(raw).Ok? && ('[' in raw || ']' in raw)
    ensures exists n :: IsValidCaptureName(n) && raw == RawName(Capture(n)) && ParseSegment(raw) == Ok(Capture(n))
  {
    Rebracketed(raw);
    assert IsValidCaptureName(raw[1..|raw| - 1]);
  }

  lemma Rebracketed(raw: string)
    requires StartsWith(raw, "[") && EndsWith(raw, "]")
    ensures |raw| >= 2 && raw == "[" + raw[1..|raw| - 1] + "]"
  {
    assert raw[..1][0] == '[' && raw[|raw| - 1..][0] == ']';
  }

  lemma CaptureIsAccepted(n: string)
    requires IsValidCaptureName(n)
    ensures ParseSegment(RawName(Capture(n))) == Ok(Capture(n))
  {
    var raw := RawName(Capture(n));
    assert raw[1..|raw| - 1] == n;
    assert raw[..1] == "[" && raw[|raw| - 1..] == "]";
  }

  function ParseSegments(raws: seq<string>): Result<seq<Segment>, SegmentError> {
    if raws == [] then Ok([])
    else
      match ParseSegment(raws[0])
      case Err(e) => Err(e)
      case Ok(seg) =>
        match ParseSegments(raws[1..])
        case Err(e) => Err(e)
        case Ok(rest) => Ok([seg] + rest)
  }

  lemma {:induction false} ParsedSegmentsSpellTheDirectory(raws: seq<string>)
    requires ParseSegments(raws).Ok?
    ensures var segs := ParseSegments(raws).value;
            |segs| == |raws| && forall i :: 0 <= i < |raws| ==> RawName(segs[i]) == raws[i]
  {
    if raws != [] {
      ParseSegmentMeaning(raws[0]);
      ParsedSegmentsSpellTheDirectory(raws[1..]);
    }
  }

  // ---- Derived names ----

  function RoutePart(seg: Segment): string {
    match seg
    case Static(n) => n
    case Capture(n) => ":" + n
  }

  function BuildRoute(segs: seq<Segment>): string {
    if segs == [] then "/" else "/" + Join(Map(RoutePart, segs), "/")
  }

  function HandlerPart(seg: Segment): string {
    match seg
    case Static(n) => n
    case Capture(n) => "$" + n
  }

  function BuildHandlerName(segs: seq<Segment>, stem: string): string {
    if segs == [] then "pgweb.pages__" + stem
    else "pgweb.pages__" + Join(Map(HandlerPart, segs), "__") + "__" + stem
  }

  function BuildTemplatePath(raws: seq<string>, stem: string): string {
    if raws == [] then "pages/" + stem + ".html"
    else "pages/" + Join(raws, "/") + "/" + stem + ".html"
  }

  // ---- Method stems ----

  datatype Stem = Index | Post | Put | Patch | Delete | NotFound

  function StemName(stem: Stem): string {
    match stem
    case Index => "index"
    case Post => "post"
    case Put => "put"
    case Patch => "patch"
    case Delete => "delete"
    case NotFound => "_404"
  }

  /** `validate_stem`: the fallback page is allowed at the root only. */
  function ParseStem(name: string, atRoot: bool): Option<Stem> {
    if name == "index" then Some(Index)
    else if name == "post" then Some(Post)
    else if name == "put" then Some(Put)
    else if name == "patch" then Some(Patch)
    else if name == "delete" then Some(Delete)
    else if name == "_404" && atRoot then Some(NotFound)
    else None
  }

  /** The file names that are allowed, and where. */
  lemma StemIsAllowedIff(name: string, atRoot: bool)
    ensures ParseStem(name, atRoot).Some?
            <==> name in ["index", "post", "put", "patch", "delete"] || (name == "_404" && atRoot)
  {
  }

  lemma ParseStemMeaning(name: string, atRoot: bool, stem: Stem)
    ensures ParseStem(name, atRoot) == Some(stem) <==> name == StemName(stem) && (stem.NotFound? ==> atRoot)
  {
    assert "index"[0] == 'i' && "delete"[0] == 'd' && "_404"[0] == '_';
    assert "post"[1] == 'o' && "put"[1] == 'u' && "patch"[1] == 'a';
  }

  function MethodForStem(stem: Stem): string {
    match stem
    case Index => "GET"
    case Post => "POST"
    case Put => "PUT"
    case Patch => "PATCH"
    case Delete => "DELETE"
    case NotFound => "404"
  }

  // ---- Handler names do not collide ----

  /** Free of the separator, and not letting one start early. */
  predicate IsSeparable(part: string) {
    !Contains(part, "__") && !EndsWith(part, "_")
  }

  lemma SeparatorComesFirst(x: string, rest: string)
    requires IsSeparable(x)
    ensures Find(x + "__" + rest, "__") == Some(|x|)
  {
    var s := x + "__" + rest;
    assert s[|x|..|x| + 2] == "__";
    forall k | 0 <= k < |x| ensures !OccursAt(s, "__", k) {
      if k + 2 <= |x| {
        assert s[k..k + 2] == x[k..k + 2];
        assert !OccursAt(x, "__", k);
      } else {
        assert x[|x| - 1..] == [x[k]];
        assert s[k..k + 2][0] == x[k];
      }
    }
    FindIs(s, "__", |x|);
  }

  lemma {:induction false} JoinedPartsDecode(a: seq<string>, b: seq<string>)
    requires a != [] && b != []
    requires forall i :: 0 <= i < |a| - 1 ==> IsSeparable(a[i])
    requires forall i :: 0 <= i < |b| - 1 ==> IsSeparable(b[i])
    requires !Contains(a[|a| - 1], "__") && !Contains(b[|b| - 1], "__")
    requires Join(a, "__") == Join(b, "__")
    ensures a == b
  {
    var s := Join(a, "__");
    FirstPartEnds(a);
    FirstPartEnds(b);
    if |a| > 1 {
      assert a[0] == s[..|a[0]|] && b[0] == s[..|b[0]|];
      assert Join(a[1..], "__") == s[|a[0]| + 2..];
      assert Join(b[1..], "__") == s[|b[0]| + 2..];
      JoinedPartsDecode(a[1..], b[1..]);
    }
  }

  lemma FirstPartEnds(a: seq<string>)
    requires a != []
    requires forall i :: 0 <= i < |a| - 1 ==> IsSeparable(a[i])
    requires !Contains(a[|a| - 1], "__")
    ensures Find(Join(a, "__"), "__") == if |a| == 1 then None else Some(|a[0]|)
  {
    if |a| > 1 { SeparatorComesFirst(a[0], Join(a[1..], "__")); }
  }

  lemma {:induction false} JoinSnoc(parts: seq<string>, sep: string, last: string)
    requires parts != []
    ensures Join(parts + [last], sep) == Join(parts, sep) + sep + last
  {
    assert (parts + [last])[1..] == parts[1..] + [last];
    if |parts| == 1 {
      assert parts[1..] == [] && [] + [last] == [last];
    } else {
      JoinSnoc(parts[1..], sep, last);
      var t := Join(parts[1..], sep);
      assert parts[0] + sep + (t + sep + last) == parts[0] + sep + t + sep + last;
    }
  }

  lemma HandlerNameIsJoin(segs: seq<Segment>, stem: string)
    ensures BuildHandlerName(segs, stem) == "pgweb.pages__" + Join(Map(HandlerPart, segs) + [stem], "__")
  {
    var parts := Map(HandlerPart, segs);
    if segs == [] {
      assert parts + [stem] == [stem];
    } else {
      JoinSnoc(parts, "__", stem);
      var p := "pgweb.pages__";
      assert p + (Join(parts, "__") + "__" + stem) == p + Join(parts, "__") + "__" + stem;
    }
  }

  /** What a directory component can parse to: a name free of separators and brackets, or a valid
      capture. */
  predicate IsNameable(seg: Segment) {
    match seg
    case Static(n) => n != "" && '/' !in n && '[' !in n && ']' !in n
    case Capture(n) => IsValidCaptureName(n)
  }

  lemma NameableIsAccepted(seg: Segment)
    requires IsNameable(seg)
    ensures ParseSegment(RawName(seg)) == Ok(seg)
  {
    if seg.Capture? { CaptureIsAccepted(seg.name); }
  }

  /** The discipline for one name: its part of the handler name can be told where it ends, and a
      literal does not read like a capture. */
  predicate IsSafeName(seg: Segment) {
    IsSeparable(HandlerPart(seg)) && !(seg.Static? && StartsWith(seg.name, "$") && IsValidCaptureName(seg.name[1..]))
  }

  /** The naming discipline under which handler names identify pages. */
  predicate NamesSafely(segs: seq<Segment>) {
    forall i :: 0 <= i < |segs| ==> IsSafeName(segs[i]) && (segs[i].Capture? ==> IsValidCaptureName(segs[i].name))
  }

  lemma StemHasNoSeparator(s: Stem)
    ensures !Contains(StemName(s), "__")
  {
    var stem := StemName(s);
    forall i | 0 <= i <= |stem| ensures !OccursAt(stem, "__", i) {
      if i + 2 <= |stem| { NoOccurrenceEnd(stem, "__", i); }
    }
  }

  lemma HandlerPartIdentifies(a: Segment, b: Segment)
    requires IsSafeName(a) && IsSafeName(b) && HandlerPart(a) == HandlerPart(b)
    requires (a.Capture? ==> IsValidCaptureName(a.name)) && (b.Capture? ==> IsValidCaptureName(b.name))
    ensures a == b
  {
    if a.Capture? { assert HandlerPart(a)[..1] == "$" && HandlerPart(a)[1..] == a.name; }
    if b.Capture? { assert HandlerPart(b)[..1] == "$" && HandlerPart(b)[1..] == b.name; }
  }

  lemma StemNamesDiffer(a: Stem, b: Stem)
    requires StemName(a) == StemName(b)
    ensures a == b
  {
    ParseStemMeaning(StemName(a), true, a);
    ParseStemMeaning(StemName(a), true, b);
  }

  /** Different pages get different handler functions. */
  lemma HandlerNamesAreInjective(a: seq<Segment>, stemA: Stem, b: seq<Segment>, stemB: Stem)
    requires NamesSafely(a) && NamesSafely(b)
    requires BuildHandlerName(a, StemName(stemA)) == BuildHandlerName(b, StemName(stemB))
    ensures a == b && stemA == stemB
  {
    var pa, pb := Map(HandlerPart, a) + [StemName(stemA)], Map(HandlerPart, b) + [StemName(stemB)];
    HandlerNameIsJoin(a, StemName(stemA));
    HandlerNameIsJoin(b, StemName(stemB));
    var p := "pgweb.pages__";
    assert Join(pa, "__") == (p + Join(pa, "__"))[|p|..] == (p + Join(pb, "__"))[|p|..] == Join(pb, "__");
    StemHasNoSeparator(stemA);
    StemHasNoSeparator(stemB);
    JoinedPartsDecode(pa, pb);
    forall i | 0 <= i < |a| ensures a[i] == b[i] {
      assert pa[i] == pb[i];
      HandlerPartIdentifies(a[i], b[i]);
    }
    assert pa[|a|] == pb[|b|];
    StemNamesDiffer(stemA, stemB);
  }

  /** The discipline is no stricter than it must be: every name that breaks it, whatever it is,
      stands in a directory, between any two names, whose handler is that of another directory. */
  lemma UnsafeNameCollides(seg: Segment, a: string, b: string, stem: string) returns (other: seq<Segment>)
    requires IsNameable(seg) && IsNameable(Static(a)) && IsNameable(Static(b)) && !IsSafeName(seg)
    ensures other != [Static(a), seg, Static(b)] && forall i :: 0 <= i < |other| ==> IsNameable(other[i])
    ensures BuildHandlerName(other, stem) == BuildHandlerName([Static(a), seg, Static(b)], stem)
  {
    if Contains(HandlerPart(seg), "__") {
      other := SeparatorInsideCollides(seg, a, b, stem);
    } else if EndsWith(HandlerPart(seg), "_") {
      other := UnderscoreAtEndCollides(seg, a, b, stem);
    } else {
      other := [Static(a), Capture(seg.name[1..]), Static(b)];
      HandlerNameOfThree(Static(a), seg, Static(b), stem);
      HandlerNameOfThree(other[0], other[1], other[2], stem);
      assert seg.name == "$" + seg.name[1..];
    }
  }

  lemma SeparatorInsideCollides(seg: Segment, a: string, b: string, stem: string) returns (other: seq<Segment>)
    requires IsNameable(seg) && IsNameable(Static(a)) && IsNameable(Static(b)) && Contains(HandlerPart(seg), "__")
    ensures |other| == 2 && IsNameable(other[0]) && IsNameable(other[1])
    ensures BuildHandlerName(other, stem) == BuildHandlerName([Static(a), seg, Static(b)], stem)
  {
    var p := HandlerPart(seg);
    PartIsClean(seg);
    HandlerNameOfThree(Static(a), seg, Static(b), stem);
    var k :| 0 <= k <= |p| && OccursAt(p, "__", k);
    SplitAtSeparator(a, p, k, b);
    other := [Static(a + "__" + p[..k]), Static(p[k + 2..] + "__" + b)];
    HandlerNameOfTwo(other[0], other[1], stem);
  }

  lemma UnderscoreAtEndCollides(seg: Segment, a: string, b: string, stem: string) returns (other: seq<Segment>)
    requires IsNameable(seg) && IsNameable(Static(a)) && IsNameable(Static(b)) && EndsWith(HandlerPart(seg), "_")
    ensures |other| == 2 && IsNameable(other[0]) && IsNameable(other[1])
    ensures BuildHandlerName(other, stem) == BuildHandlerName([Static(a), seg, Static(b)], stem)
  {
    var p := HandlerPart(seg);
    PartIsClean(seg);
    HandlerNameOfThree(Static(a), seg, Static(b), stem);
    ShiftUnderscore(a, p, b);
    other := [Static(a + "__" + p[..|p| - 1]), Static("_" + b)];
    HandlerNameOfTwo(other[0], other[1], stem);
  }

  /** A part of a handler name adds nothing that a literal name cannot hold. */
  lemma PartIsClean(seg: Segment)
    requires IsNameable(seg)
    ensures var p := HandlerPart(seg); '/' !in p && '[' !in p && ']' !in p
  {
  }

  lemma SplitAtSeparator(a: string, p: string, k: nat, b: string)
    requires OccursAt(p, "__", k)
    ensures k + 2 <= |p| && (a + "__" + p[..k]) + "__" + (p[k + 2..] + "__" + b) == a + "__" + p + "__" + b
  {
    assert p == p[..k] + "__" + p[k + 2..];
  }

  lemma ShiftUnderscore(a: string, p: string, b: string)
    requires EndsWith(p, "_")
    ensures (a + "__" + p[..|p| - 1]) + "__" + ("_" + b) == a + "__" + p + "__" + b
  {
    assert p == p[..|p| - 1] + "_";
    assert "_" + "__" == "__" + "_";
    assert (a + "__" + p[..|p| - 1]) + ("__" + "_") + b == a + "__" + p[..|p| - 1] + ("_" + "__") + b;
  }

  lemma HandlerNameOfTwo(x: Segment, y: Segment, stem: string)
    ensures BuildHandlerName([x, y], stem) == "pgweb.pages__" + (HandlerPart(x) + "__" + HandlerPart(y)) + "__" + stem
  {
    assert Map(HandlerPart, [x, y]) == [HandlerPart(x), HandlerPart(y)];
    JoinPair(HandlerPart(x), HandlerPart(y));
  }

  lemma HandlerNameOfThree(x: Segment, y: Segment, z: Segment, stem: string)
    ensures BuildHandlerName([x, y, z], stem)
            == "pgweb.pages__" + (HandlerPart(x) + "__" + HandlerPart(y) + "__" + HandlerPart(z)) + "__" + stem
  {
    var px, py, pz := HandlerPart(x), HandlerPart(y), HandlerPart(z);
    assert Map(HandlerPart, [x, y, z]) == [px, py] + [pz];
    JoinPair(px, py);
    JoinSnoc([px, py], "__", pz);
  }

  lemma JoinPair(x: string, y: string)
    ensures Join([x, y], "__") == x + "__" + y
  {
    assert [x, y][1..] == [y];
  }

  /** Template keys identify (directory, stem) whatever the names are. */
  lemma TemplatePathsAreInjective(a: seq<string>, stemA: string, b: seq<string>, stemB: string)
    requires forall i :: 0 <= i < |a| ==> '/' !in a[i]
    requires forall i :: 0 <= i < |b| ==> '/' !in b[i]
    requires '/' !in stemA && '/' !in stemB
    requires BuildTemplatePath(a, stemA) == BuildTemplatePath(b, stemB)
    ensures a == b && stemA == stemB
  {
    TemplatePathSplits(a, stemA);
    TemplatePathSplits(b, stemB);
    var sa, sb := ["pages"] + a + [stemA + ".html"], ["pages"] + b + [stemB + ".html"];
    assert sa == sb;
    assert a == sa[1..|sa| - 1] && b == sb[1..|sb| - 1];
    assert stemA + ".html" == sa[|sa| - 1] == stemB + ".html";
    assert stemA == (stemA + ".html")[..|stemA|];
  }

  lemma TemplatePathSplits(a: seq<string>, stem: string)
    requires forall i :: 0 <= i < |a| ==> '/' !in a[i]
    requires '/' !in stem
    ensures Split(BuildTemplatePath(a, stem), '/') == ["pages"] + a + [stem + ".html"]
  {
    var parts := ["pages"] + a + [stem + ".html"];
    TemplatePathIsJoin(a, stem);
    assert "/" == ['/'];
    SplitOfJoin(parts, '/');
  }

  lemma TemplatePathIsJoin(a: seq<string>, stem: string)
    ensures BuildTemplatePath(a, stem) == Join(["pages"] + a + [stem + ".html"], "/")
  {
    var parts := ["pages"] + a + [stem + ".html"];
    assert parts[1..] == a + [stem + ".html"];
    if a == [] {
      assert a + [stem + ".html"] == [stem + ".html"];
      RootTemplateText(stem);
    } else {
      JoinSnoc(a, "/", stem + ".html");
      TemplateText(Join(a, "/"), stem);
    }
  }

  lemma RootTemplateText(stem: string)
    ensures "pages" + "/" + (stem + ".html") == "pages/" + stem + ".html"
  {
  }

  lemma TemplateText(dir: string, stem: string)
    ensures "pages" + "/" + (dir + "/" + (stem + ".html")) == "pages/" + dir + "/" + stem + ".html"
  {
  }
}
