/** Across the two crates: the pattern the command-line tool stores is parsed by the server back
    into the directory's segments, and a request that fills the captures gets its values back. */
module RouteRoundTrip {
  import opened Prelude
  import opened Text
  import P = Paths
  import opened Router

  function ToPatSeg(seg: P.Segment): PatSeg {
    match seg
    case Static(n) => Static(n)
    case Capture(n) => Capture(n)
  }

  function ToPatSegs(segs: seq<P.Segment>): (r: seq<PatSeg>)
    ensures |r| == |segs| && forall i :: 0 <= i < |segs| ==> r[i] == ToPatSeg(segs[i])
  {
    if segs == [] then [] else [ToPatSeg(segs[0])] + ToPatSegs(segs[1..])
  }

  /** What a directory component can be: a file name, or a validated capture. */
  predicate IsDirectorySegment(seg: P.Segment) {
    match seg
    case Static(n) => n != "" && '/' !in n
    case Capture(n) => P.IsValidCaptureName(n)
  }

  predicate IsDirectory(segs: seq<P.Segment>) {
    forall i :: 0 <= i < |segs| ==> IsDirectorySegment(segs[i])
  }

  lemma CaptureNamesArePlain(n: string)
    requires P.IsValidCaptureName(n)
    ensures n != "" && '/' !in n && ':' !in n
  {
  }

  lemma RoutePartIsSegment(seg: P.Segment)
    requires IsDirectorySegment(seg)
    ensures P.RoutePart(seg) != "" && '/' !in P.RoutePart(seg)
  {
    if seg.Capture? { CaptureNamesArePlain(seg.name); }
  }

  lemma {:induction false} SegmentsOfJoin(parts: seq<string>)
    requires forall i :: 0 <= i < |parts| ==> parts[i] != "" && '/' !in parts[i]
    ensures Segments(Join(parts, "/")) == parts
  {
    if |parts| == 1 {
      SegmentsSplitOff(parts[0], "");
    } else if |parts| > 1 {
      SegmentsOfJoin(parts[1..]);
      SegmentsSplitOff(parts[0], Join(parts[1..], "/"));
    }
  }

  lemma SegmentsOfRoute(segs: seq<P.Segment>)
    requires IsDirectory(segs)
    ensures Segments(P.BuildRoute(segs)) == Map(P.RoutePart, segs)
  {
    var parts := Map(P.RoutePart, segs);
    forall i | 0 <= i < |parts| ensures parts[i] != "" && '/' !in parts[i] { RoutePartIsSegment(segs[i]); }
    if segs == [] {
      SegmentsAfterSlash("");
      SegmentsOfJoin([]);
      assert "/" + "" == "/";
    } else {
      SegmentsAfterSlash(Join(parts, "/"));
      SegmentsOfJoin(parts);
    }
  }

  lemma PartParsesBackIffNoColon(pattern: string, seg: P.Segment)
    requires IsDirectorySegment(seg)
    ensures ParseSegment(pattern, P.RoutePart(seg)) == Ok(ToPatSeg(seg)) <==> !(seg.Static? && ':' in seg.name)
  {
    match seg
    case Capture(n) =>
      assert (":" + n)[1..] == n && StartsWith(":" + n, ":");
    case Static(n) =>
      if StartsWith(n, ":") { assert n[..1][0] == n[0]; }
  }

  predicate IsColonFree(segs: seq<P.Segment>) {
    forall i :: 0 <= i < |segs| && segs[i].Static? ==> ':' !in segs[i].name
  }

  lemma {:induction false} PartsParseBackIffNoColon(pattern: string, segs: seq<P.Segment>)
    requires IsDirectory(segs)
    ensures ParseSegments(pattern, Map(P.RoutePart, segs)) == Ok(ToPatSegs(segs)) <==> IsColonFree(segs)
  {
    if segs != [] {
      PartParsesBackIffNoColon(pattern, segs[0]);
      PartsParseBackIffNoColon(pattern, segs[1..]);
      assert Map(P.RoutePart, segs)[1..] == Map(P.RoutePart, segs[1..]);
      assert ToPatSegs(segs)[0] == ToPatSeg(segs[0]) && ToPatSegs(segs)[1..] == ToPatSegs(segs[1..]);
      ColonFreeByParts(segs);
      ParsedByParts(pattern, Map(P.RoutePart, segs), ToPatSegs(segs));
    }
  }

  lemma ColonFreeByParts(segs: seq<P.Segment>)
    requires segs != []
    ensures IsColonFree(segs) <==> !(segs[0].Static? && ':' in segs[0].name) && IsColonFree(segs[1..])
  {
    if IsColonFree(segs) {
      forall i | 0 <= i < |segs[1..]| && segs[1..][i].Static?
        ensures ':' !in segs[1..][i].name
      {
        assert segs[i + 1] == segs[1..][i];
      }
    }
  }

  /** Parsing yields given segments iff it does so for the first and for the others. */
  lemma ParsedByParts(pattern: string, parts: seq<string>, pats: seq<PatSeg>)
    requires parts != [] && pats != []
    ensures ParseSegments(pattern, parts) == Ok(pats)
            <==> ParseSegment(pattern, parts[0]) == Ok(pats[0]) && ParseSegments(pattern, parts[1..]) == Ok(pats[1..])
  {
    assert [pats[0]] + pats[1..] == pats;
    var r := ParseSegments(pattern, parts);
    if r.Ok? { assert r.value[0..1] + r.value[1..] == r.value; }
  }

  /** The stored route of a directory parses back to the directory iff no literal name in it
      contains a colon. */
  lemma RouteParsesBackIffNoColon(segs: seq<P.Segment>)
    requires IsDirectory(segs)
    ensures ParsePattern(P.BuildRoute(segs)) == Ok(PatternOf(ToPatSegs(segs)))
            <==> IsColonFree(segs)
  {
    SegmentsOfRoute(segs);
    PartsParseBackIffNoColon(P.BuildRoute(segs), segs);
  }

  /** Colon-free directories have different routes. */
  lemma RoutesIdentifyDirectories(a: seq<P.Segment>, b: seq<P.Segment>)
    requires IsDirectory(a) && IsDirectory(b) && IsColonFree(a) && IsColonFree(b)
    requires P.BuildRoute(a) == P.BuildRoute(b)
    ensures a == b
  {
    RouteParsesBackIffNoColon(a);
    RouteParsesBackIffNoColon(b);
    assert ToPatSegs(a) == ToPatSegs(b);
    forall i | 0 <= i < |a| ensures a[i] == b[i] { assert ToPatSegs(a)[i] == ToPatSegs(b)[i]; }
  }

  // ---- Requests ----

  function Slashes(n: nat): string { if n == 0 then "" else "/" + Slashes(n - 1) }

  /** The values with runs of slashes before, between and after them. */
  function Spread(vals: seq<string>, runs: seq<nat>): string
    requires |runs| == |vals| + 1
  {
    if vals == [] then Slashes(runs[0]) else Slashes(runs[0]) + vals[0] + Spread(vals[1..], runs[1..])
  }

  lemma {:induction false} SegmentsAfterSlashes(n: nat, t: string)
    ensures Segments(Slashes(n) + t) == Segments(t)
  {
    if n == 0 {
      assert "" + t == t;
    } else {
      SegmentsAfterSlash(Slashes(n - 1) + t);
      SegmentsAfterSlashes(n - 1, t);
      assert Slashes(n) + t == "/" + (Slashes(n - 1) + t);
    }
  }

  /** However many slashes there are, the request's segments are the values. */
  lemma {:induction false} SegmentsOfSpread(vals: seq<string>, runs: seq<nat>)
    requires |runs| == |vals| + 1
    requires forall i :: 0 <= i < |vals| ==> vals[i] != "" && '/' !in vals[i]
    requires forall i :: 0 < i < |vals| ==> runs[i] > 0
    ensures Segments(Spread(vals, runs)) == vals
  {
    if vals == [] {
      SegmentsAfterSlashes(runs[0], "");
      SegmentsOfJoin([]);
      assert Slashes(runs[0]) + "" == Slashes(runs[0]);
    } else {
      var rest := Spread(vals[1..], runs[1..]);
      SegmentsOfSpread(vals[1..], runs[1..]);
      SegmentsAfterSlashes(runs[0], vals[0] + rest);
      assert Slashes(runs[0]) + vals[0] + rest == Slashes(runs[0]) + (vals[0] + rest);
      if rest != "" { SpreadStartsWithSlash(vals[1..], runs[1..]); }
      SegmentsOfPartAnd(vals[0], rest);
      assert [vals[0]] + vals[1..] == vals;
    }
  }

  lemma SegmentsOfPartAnd(part: string, rest: string)
    requires part != "" && '/' !in part && (rest == "" || rest[0] == '/')
    ensures Segments(part + rest) == [part] + Segments(rest)
  {
    if rest == "" {
      SegmentsSplitOff(part, "");
      SegmentsOfJoin([]);
      assert part + rest == part;
    } else {
      var t := rest[1..];
      assert rest == "/" + t;
      SegmentsAfterSlash(t);
      SegmentsSplitOff(part, t);
      assert part + rest == part + "/" + t;
    }
  }

  lemma SpreadStartsWithSlash(vals: seq<string>, runs: seq<nat>)
    requires |runs| == |vals| + 1 && Spread(vals, runs) != ""
    requires vals != [] ==> runs[0] > 0
    ensures Spread(vals, runs)[0] == '/'
  {
  }

  /** One slash more in front. */
  lemma SpreadAfterSlash(vals: seq<string>, runs: seq<nat>)
    requires |runs| == |vals| + 1
    ensures Spread(vals, runs[0 := runs[0] + 1]) == "/" + Spread(vals, runs)
  {
    var more := runs[0 := runs[0] + 1];
    assert Slashes(more[0]) == "/" + Slashes(runs[0]);
    if vals != [] {
      assert more[1..] == runs[1..];
      var rest := Spread(vals[1..], runs[1..]);
      assert "/" + Slashes(runs[0]) + vals[0] + rest == "/" + (Slashes(runs[0]) + vals[0] + rest);
    }
  }

  lemma {:induction false} FirstSlash(path: string) returns (k: nat)
    ensures k <= |path| && '/' !in path[..k] && (k < |path| ==> path[k] == '/')
  {
    if path == "" || path[0] == '/' {
      k := 0;
    } else {
      var j := FirstSlash(path[1..]);
      k := j + 1;
      assert path[..k] == [path[0]] + path[1..][..j];
    }
  }

  /** Conversely every path is its segments with slashes in between, before and after: nothing else
      of it is lost. */
  lemma {:induction false} PathIsItsSegmentsSpread(path: string) returns (runs: seq<nat>)
    ensures |runs| == |Segments(path)| + 1 && (forall i :: 0 < i < |Segments(path)| ==> runs[i] > 0)
    ensures Spread(Segments(path), runs) == path
    decreases |path|
  {
    var k := FirstSlash(path);
    if path == "" {
      SegmentsOfJoin([]);
      runs := [0];
    } else if k == 0 {
      runs := PathIsItsSegmentsSpread(path[1..]);
      assert path == "/" + path[1..];
      SegmentsAfterSlash(path[1..]);
      SpreadAfterSlash(Segments(path[1..]), runs);
      runs := runs[0 := runs[0] + 1];
    } else if k == |path| {
      assert path[..k] == path;
      SegmentsSplitOff(path, "");
      runs := [0, 0];
      SpreadOfOne(path);
    } else {
      var part, t := path[..k], path[k + 1..];
      assert path == part + "/" + t;
      runs := PathIsItsSegmentsSpread(t);
      SegmentsSplitOff(part, t);
      SpreadAfterSlash(Segments(t), runs);
      SpreadAfterPart(part, Segments(t), runs[0 := runs[0] + 1]);
      assert part + ("/" + t) == path;
      runs := [0] + runs[0 := runs[0] + 1];
    }
  }

  lemma SpreadOfOne(part: string)
    ensures Spread([part], [0, 0]) == part
  {
    assert [part][1..] == [] && [0, 0][1..] == [0];
  }

  lemma SpreadAfterPart(part: string, vals: seq<string>, runs: seq<nat>)
    requires |runs| == |vals| + 1
    ensures Spread([part] + vals, [0] + runs) == part + Spread(vals, runs)
  {
    assert ([part] + vals)[1..] == vals && ([0] + runs)[1..] == runs;
  }

  /** The values a request supplies to a directory: captures are free, literals are themselves. */
  predicate Fills(segs: seq<P.Segment>, vals: seq<string>) {
    |vals| == |segs|
    && (forall i :: 0 <= i < |vals| ==> vals[i] != "" && '/' !in vals[i])
    && forall i :: 0 <= i < |segs| && segs[i].Static? ==> vals[i] == segs[i].name
  }

  /** Captures of the same name are given the same value. */
  predicate Consistent(segs: seq<P.Segment>, vals: seq<string>)
    requires |vals| == |segs|
  {
    forall i, j :: 0 <= i < |segs| && 0 <= j < |segs| && segs[i].Capture? && segs[i] == segs[j] ==> vals[i] == vals[j]
  }

  ghost predicate Recovers(segs: seq<P.Segment>, vals: seq<string>, caps: map<string, string>)
    requires |vals| == |segs|
  {
    forall i :: 0 <= i < |segs| && segs[i].Capture? ==> segs[i].name in caps && caps[segs[i].name] == vals[i]
  }

  lemma LastCapture(segs: seq<P.Segment>, i: nat) returns (k: nat)
    requires i < |segs| && segs[i].Capture?
    ensures i <= k < |segs| && segs[k] == segs[i] && forall j :: k < j < |segs| ==> segs[j] != segs[k]
    decreases |segs| - i
  {
    if j :| i < j < |segs| && segs[j] == segs[i] { k := LastCapture(segs, j); } else { k := i; }
  }

  lemma CapturesRecoverIffConsistent(segs: seq<P.Segment>, vals: seq<string>)
    requires |vals| == |segs|
    ensures Recovers(segs, vals, Captures(ToPatSegs(segs), vals, |vals|)) <==> Consistent(segs, vals)
  {
    var pats := ToPatSegs(segs);
    var caps := Captures(pats, vals, |vals|);
    if Consistent(segs, vals) {
      forall i | 0 <= i < |segs| && segs[i].Capture? ensures segs[i].name in caps && caps[segs[i].name] == vals[i] {
        var k := LastCapture(segs, i);
        forall j | k < j < |segs| ensures pats[j] != pats[k] { assert segs[j] != segs[k]; }
        CaptureIsLast(pats, vals, |vals|, k);
      }
    }
  }

  /** End to end: a page whose literal names have no colon answers every request that fills its
      captures, whatever extra slashes it has, naming exactly its captures; and every capture
      position gets its value back iff equal names carry equal values. */
  lemma RequestRecoversCaptures(segs: seq<P.Segment>, vals: seq<string>, runs: seq<nat>)
    requires IsDirectory(segs) && IsColonFree(segs)
    requires Fills(segs, vals)
    requires |runs| == |vals| + 1 && forall i :: 0 < i < |vals| ==> runs[i] > 0
    ensures var pat := ParsePattern(P.BuildRoute(segs));
            pat.Ok? &&
            var hit := MatchResult(pat.value, Segments(Spread(vals, runs)));
            hit.Some?
            && (forall name :: name in hit.value <==> P.Capture(name) in segs)
            && (Recovers(segs, vals, hit.value) <==> Consistent(segs, vals))
  {
    RequestMatches(segs, vals, runs);
    CapturesRecoverIffConsistent(segs, vals);
    CapturedNames(segs, vals);
  }

  lemma FillingFits(segs: seq<P.Segment>, vals: seq<string>)
    requires Fills(segs, vals)
    ensures Fits(ToPatSegs(segs), vals)
  {
  }

  lemma RequestMatches(segs: seq<P.Segment>, vals: seq<string>, runs: seq<nat>)
    requires IsDirectory(segs) && IsColonFree(segs)
    requires Fills(segs, vals)
    requires |runs| == |vals| + 1 && forall i :: 0 < i < |vals| ==> runs[i] > 0
    ensures var pat := ParsePattern(P.BuildRoute(segs));
            pat.Ok?
            && MatchResult(pat.value, Segments(Spread(vals, runs))) == Some(Captures(ToPatSegs(segs), vals, |vals|))
  {
    RouteParsesBackIffNoColon(segs);
    SegmentsOfSpread(vals, runs);
    FillingFits(segs, vals);
  }

  /** A request matches the pattern of a directory iff it fills it: as many segments, the literal
      ones themselves. */
  lemma RequestMatchesIff(segs: seq<P.Segment>, path: string)
    requires IsDirectory(segs) && IsColonFree(segs)
    ensures var pat := ParsePattern(P.BuildRoute(segs));
            pat.Ok? && (MatchResult(pat.value, Segments(path)).Some? <==> Fills(segs, Segments(path)))
  {
    RouteParsesBackIffNoColon(segs);
    var req, pats := Segments(path), ToPatSegs(segs);
    if Fits(pats, req) {
      forall i | 0 <= i < |segs| && segs[i].Static? ensures req[i] == segs[i].name { assert pats[i].text == req[i]; }
    }
    if Fills(segs, req) { FillingFits(segs, req); }
  }

  lemma CapturedNames(segs: seq<P.Segment>, vals: seq<string>)
    requires |vals| == |segs|
    ensures forall name :: name in Captures(ToPatSegs(segs), vals, |vals|) <==> P.Capture(name) in segs
  {
    var pats := ToPatSegs(segs);
    var caps := Captures(pats, vals, |vals|);
    forall name ensures name in caps <==> P.Capture(name) in segs {
      if name in caps {
        var i :| 0 <= i < |vals| && pats[i] == Capture(name);
        assert segs[i] == P.Capture(name);
      }
      if P.Capture(name) in segs {
        var i :| 0 <= i < |segs| && segs[i] == P.Capture(name);
        assert pats[i] == Capture(name);
      }
    }
  }

  /** With distinct capture names every value comes back. */
  lemma DistinctCapturesRecover(segs: seq<P.Segment>, vals: seq<string>)
    requires |vals| == |segs|
    requires forall i, j :: 0 <= i < j < |segs| && segs[i].Capture? ==> segs[i] != segs[j]
    ensures Recovers(segs, vals, Captures(ToPatSegs(segs), vals, |vals|))
  {
    DistinctIsConsistent(segs, vals);
    CapturesRecoverIffConsistent(segs, vals);
  }

  lemma DistinctIsConsistent(segs: seq<P.Segment>, vals: seq<string>)
    requires |vals| == |segs|
    requires forall i, j :: 0 <= i < j < |segs| && segs[i].Capture? ==> segs[i] != segs[j]
    ensures Consistent(segs, vals)
  {
    forall i, j | 0 <= i < |segs| && 0 <= j < |segs| && segs[i].Capture? && segs[i] == segs[j]
      ensures vals[i] == vals[j]
    {
      assert i == j;
    }
  }
}
