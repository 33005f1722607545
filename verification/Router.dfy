/** The serving side of routing: parsing stored patterns, the specificity-sorted table of the
    snapshot, and the first-match scan. */
module Router {
  import opened Prelude
  import opened Text
  import opened Sorting

  datatype PatSeg = Static(text: string) | Capture(name: string)

  datatype ParsedPattern = ParsedPattern(segments: seq<PatSeg>, staticCount: nat, captureCount: nat, length: nat)

  datatype PatternError = EmptyCapture(pattern: string) | InlineColon(pattern: string, segment: string)

  datatype RouteMeta = RouteMeta(handlerName: string, templatePath: Option<string>)

  /** One row of `pgweb.routes`. */
  datatype RouteRow = RouteRow(method_: string, pathPattern: string, meta: RouteMeta)

  datatype MatchedRoute = MatchedRoute(route: RouteMeta, pathParams: map<string, string>)

  type RouteTable = map<string, seq<(ParsedPattern, RouteMeta)>>

  // ---- Segments ----

  function NonEmpty(parts: seq<string>): (r: seq<string>)
    ensures forall i :: 0 <= i < |r| ==> r[i] != "" && r[i] in parts
  {
    if parts == [] then []
    else (if parts[0] == "" then [] else [parts[0]]) + NonEmpty(parts[1..])
  }

  /** The non-empty pieces between slashes, of a pattern or of a request path. */
  function Segments(path: string): (r: seq<string>)
    ensures forall i :: 0 <= i < |r| ==> r[i] != "" && '/' !in r[i]
  {
    NonEmpty(Split(path, '/'))
  }

  lemma SegmentsAfterSlash(t: string)
    ensures Segments("/" + t) == Segments(t)
  {
    assert ("/" + t)[1..] == t;
  }

  /** A segment runs up to the next slash. */
  lemma SegmentsSplitOff(part: string, t: string)
    requires part != "" && '/' !in part
    ensures Segments(part + "/" + t) == [part] + Segments(t)
    ensures Segments(part) == [part]
  {
    SplitHead(part, t, '/');
    assert ([part] + Split(t, '/'))[1..] == Split(t, '/');
    SplitNothing(part, '/');
    assert [part][1..] == [] && NonEmpty([part]) == [part] + NonEmpty([]);
  }

  // ---- Parsing a pattern ----

  /** Why a raw segment is rejected, or the typed segment it stands for. */
  function ParseSegment(pattern: string, raw: string): Result<PatSeg, PatternError> {
    if StartsWith(raw, ":") then
      if raw[1..] == "" then Err(EmptyCapture(pattern)) else Ok(Capture(raw[1..]))
    else if ':' in raw then Err(InlineColon(pattern, raw))
    else Ok(Static(raw))
  }

  function ParseSegments(pattern: string, raws: seq<string>): Result<seq<PatSeg>, PatternError> {
    if raws == [] then Ok([])
    else
      match ParseSegment(pattern, raws[0])
      case Err(e) => Err(e)
      case Ok(seg) =>
        match ParseSegments(pattern, raws[1..])
        case Err(e) => Err(e)
        case Ok(rest) => Ok([seg] + rest)
  }

  function StaticCount(segs: seq<PatSeg>): (n: nat)
    ensures n <= |segs|
  {
    if segs == [] then 0 else (if segs[0].Static? then 1 else 0) + StaticCount(segs[1..])
  }

  function PatternOf(segs: seq<PatSeg>): ParsedPattern {
    ParsedPattern(segs, StaticCount(segs), |segs| - StaticCount(segs), |segs|)
  }

  function ParsePattern(pattern: string): Result<ParsedPattern, PatternError> {
    match ParseSegments(pattern, Segments(pattern))
    case Err(e) => Err(e)
    case Ok(segs) => Ok(PatternOf(segs))
  }

  lemma {:induction false} StaticCountAppend(segs: seq<PatSeg>, seg: PatSeg)
    ensures StaticCount(segs + [seg]) == StaticCount(segs) + (if seg.Static? then 1 else 0)
  {
    if segs == [] {
      assert segs + [seg] == [seg] && [seg][1..] == [];
    } else {
      assert (segs + [seg])[1..] == segs[1..] + [seg];
      StaticCountAppend(segs[1..], seg);
    }
  }

  /** What has been parsed so far, continued by what is left. */
  function Continue(done: seq<PatSeg>, rest: Result<seq<PatSeg>, PatternError>): Result<seq<PatSeg>, PatternError> {
    match rest
    case Err(e) => Err(e)
    case Ok(segs) => Ok(done + segs)
  }

  method Parse(pattern: string) returns (r: Result<ParsedPattern, PatternError>)
    ensures r == ParsePattern(pattern)
  {
    var raws := Segments(pattern);
    var segments: seq<PatSeg> := [];
    var staticCount, captureCount := 0, 0;
    ghost var parsed := ParseSegments(pattern, raws);
    ParseStarts(pattern, raws);
    for i := 0 to |raws|
      invariant Continue(segments, ParseSegments(pattern, raws[i..])) == parsed
      invariant staticCount == StaticCount(segments)
      invariant captureCount == |segments| - staticCount
    {
      var raw := raws[i];
      ParseNext(pattern, raws, i, segments);
      if StartsWith(raw, ":") {
        var name := raw[1..];
        if name == "" {
          return Err(EmptyCapture(pattern));
        }
        captureCount := captureCount + 1;
        StaticCountAppend(segments, Capture(name));
        segments := segments + [Capture(name)];
      } else if ':' in raw {
        return Err(InlineColon(pattern, raw));
      } else {
        staticCount := staticCount + 1;
        StaticCountAppend(segments, Static(raw));
        segments := segments + [Static(raw)];
      }
    }
    ParseEnds(pattern, segments);
    r := Ok(ParsedPattern(segments, staticCount, captureCount, |segments|));
  }

  lemma ParseStarts(pattern: string, raws: seq<string>)
    ensures Continue([], ParseSegments(pattern, raws[0..])) == ParseSegments(pattern, raws)
  {
    var parsed := ParseSegments(pattern, raws);
    assert raws[0..] == raws && (parsed.Ok? ==> [] + parsed.value == parsed.value);
  }

  lemma ParseEnds(pattern: string, done: seq<PatSeg>)
    ensures var raws := Segments(pattern);
            Continue(done, ParseSegments(pattern, raws[|raws|..])) == ParseSegments(pattern, raws) ==>
              ParsePattern(pattern) == Ok(PatternOf(done))
  {
    var raws := Segments(pattern);
    assert raws[|raws|..] == [] && done + [] == done;
  }

  lemma ParseNext(pattern: string, raws: seq<string>, i: nat, done: seq<PatSeg>)
    requires i < |raws|
    ensures Continue(done, ParseSegments(pattern, raws[i..]))
            == (match ParseSegment(pattern, raws[i])
                case Err(e) => Err(e)
                case Ok(seg) => Continue(done + [seg], ParseSegments(pattern, raws[i + 1..])))
  {
    assert raws[i..][0] == raws[i] && raws[i..][1..] == raws[i + 1..];
    var first := ParseSegment(pattern, raws[i]);
    if first.Ok? { Reassociate(done, first.value, ParseSegments(pattern, raws[i + 1..])); }
  }

  lemma Reassociate(done: seq<PatSeg>, seg: PatSeg, rest: Result<seq<PatSeg>, PatternError>)
    ensures Continue(done + [seg], rest) == Continue(done, Continue([seg], rest))
  {
    if rest.Ok? { assert done + [seg] + rest.value == done + ([seg] + rest.value); }
  }

  /** A raw segment is malformed when its only or any later colon gives it no name. */
  predicate IsWellFormed(raw: string) {
    if StartsWith(raw, ":") then raw != ":" else ':' !in raw
  }

  /** A pattern parses iff every segment is well-formed, and then segment by segment: a leading
      colon marks a capture named by the rest, anything else stands for itself. */
  lemma {:induction false} ParseSegmentsMeaning(pattern: string, raws: seq<string>)
    ensures var r := ParseSegments(pattern, raws);
            (r.Ok? <==> forall i :: 0 <= i < |raws| ==> IsWellFormed(raws[i]))
            && (r.Ok? ==> |r.value| == |raws| &&
                          forall i :: 0 <= i < |raws| ==>
                            raws[i] == (match r.value[i] case Static(s) => s case Capture(n) => ":" + n))
  {
    if raws != [] {
      ParseSegmentsMeaning(pattern, raws[1..]);
      var r := ParseSegments(pattern, raws);
      assert raws[0] == ":" || !StartsWith(raws[0], ":") || raws[0] == ":" + raws[0][1..];
      assert IsWellFormed(raws[0]) <==> ParseSegment(pattern, raws[0]).Ok?;
      assert forall i :: 0 < i < |raws| ==> raws[i] == raws[1..][i - 1];
      if forall i :: 0 <= i < |raws| ==> IsWellFormed(raws[i]) {
        forall i | 0 <= i < |raws[1..]| ensures IsWellFormed(raws[1..][i]) { assert raws[1..][i] == raws[i + 1]; }
      }
    }
  }

  // ---- Matching ----

  predicate Fits(segs: seq<PatSeg>, req: seq<string>) {
    |segs| == |req| && forall i :: 0 <= i < |segs| && segs[i].Static? ==> segs[i].text == req[i]
  }

  /** The captures of the first `n` segments; a name used twice keeps its later value. */
  function Captures(segs: seq<PatSeg>, req: seq<string>, n: nat): (caps: map<string, string>)
    requires n <= |segs| && |segs| == |req|
    ensures forall name :: name in caps <==> exists i :: 0 <= i < n && segs[i] == Capture(name)
  {
    if n == 0 then map[]
    else
      var caps := Captures(segs, req, n - 1);
      match segs[n - 1]
      case Static(_) => caps
      case Capture(name) => caps[name := req[n - 1]]
  }

  /** Each captured name has the value at its last position. */
  lemma {:induction false} CaptureIsLast(segs: seq<PatSeg>, req: seq<string>, n: nat, i: nat)
    requires i < n <= |segs| && |segs| == |req| && segs[i].Capture?
    requires forall j :: i < j < n ==> segs[j] != segs[i]
    ensures segs[i].name in Captures(segs, req, n) && Captures(segs, req, n)[segs[i].name] == req[i]
  {
    if i < n - 1 { CaptureIsLast(segs, req, n - 1, i); }
  }

  function MatchResult(pat: ParsedPattern, req: seq<string>): Option<map<string, string>> {
    if Fits(pat.segments, req) then Some(Captures(pat.segments, req, |req|)) else None
  }

  method Matches(pat: ParsedPattern, req: seq<string>) returns (r: Option<map<string, string>>)
    ensures r == MatchResult(pat, req)
  {
    if |pat.segments| != |req| {
      return None;
    }
    var caps: map<string, string> := map[];
    for i := 0 to |req|
      invariant caps == Captures(pat.segments, req, i)
      invariant forall k :: 0 <= k < i && pat.segments[k].Static? ==> pat.segments[k].text == req[k]
    {
      match pat.segments[i]
      case Static(s) =>
        if s != req[i] {
          return None;
        }
      case Capture(name) =>
        caps := caps[name := req[i]];
    }
    r := Some(caps);
  }

  // ---- The snapshot's table ----

  /** `sort_by`: more statics first, then fewer captures, then longer. */
  predicate SpecificFirst(a: (ParsedPattern, RouteMeta), b: (ParsedPattern, RouteMeta)) {
    a.0.staticCount > b.0.staticCount
    || (a.0.staticCount == b.0.staticCount
        && (a.0.captureCount < b.0.captureCount
            || (a.0.captureCount == b.0.captureCount && a.0.length >= b.0.length)))
  }

  lemma SpecificFirstIsTotalPreorder()
    ensures IsTotalPreorder(SpecificFirst)
  {
  }

  /** The row's entry in the table of `m`, if it belongs there: malformed patterns are skipped. */
  function EntryFor(m: string, row: RouteRow): Option<(ParsedPattern, RouteMeta)> {
    if row.method_ != m then None
    else
      match ParsePattern(row.pathPattern)
      case Err(_) => None
      case Ok(pat) => Some((pat, row.meta))
  }

  function EntriesFor(m: string, rows: seq<RouteRow>): seq<(ParsedPattern, RouteMeta)> {
    FilterMap(row => EntryFor(m, row), rows)
  }

  ghost predicate IsTableOf(routes: RouteTable, rows: seq<RouteRow>) {
    (forall m :: m in routes <==> EntriesFor(m, rows) != [])
    && (forall m :: m in routes ==> routes[m] == StableSort(EntriesFor(m, rows), SpecificFirst))
  }

  method BuildRoutes(rows: seq<RouteRow>) returns (routes: RouteTable)
    ensures IsTableOf(routes, rows)
  {
    routes := map[];
    for i := 0 to |rows|
      invariant forall m :: m in routes <==> EntriesFor(m, rows[..i]) != []
      invariant forall m :: m in routes ==> routes[m] == EntriesFor(m, rows[..i])
    {
      var row := rows[i];
      assert rows[..i + 1] == rows[..i] + [row];
      forall m ensures EntriesFor(m, rows[..i + 1])
                       == EntriesFor(m, rows[..i]) + (match EntryFor(m, row) case None => [] case Some(e) => [e]) {
        FilterMapAppend(row => EntryFor(m, row), rows[..i], row);
      }
      var pat := Parse(row.pathPattern);
      if pat.Ok? {
        var entries := if row.method_ in routes then routes[row.method_] else [];
        routes := routes[row.method_ := entries + [(pat.value, row.meta)]];
      }
    }
    assert rows[..|rows|] == rows;
    ghost var unsorted := routes;
    var todo := routes.Keys;
    while todo != {}
      invariant todo <= routes.Keys == unsorted.Keys
      invariant forall m :: m in todo ==> routes[m] == unsorted[m]
      invariant forall m :: m in routes && m !in todo ==> routes[m] == StableSort(unsorted[m], SpecificFirst)
      decreases todo
    {
      var m :| m in todo;
      routes := routes[m := StableSort(routes[m], SpecificFirst)];
      todo := todo - {m};
    }
  }

  // ---- Lookup ----

  function Hit(e: (ParsedPattern, RouteMeta), req: seq<string>): Option<MatchedRoute> {
    match MatchResult(e.0, req)
    case None => None
    case Some(caps) => Some(MatchedRoute(e.1, caps))
  }

  function LookupIn(entries: seq<(ParsedPattern, RouteMeta)>, req: seq<string>): Option<MatchedRoute> {
    match FirstWhere(entries, (e: (ParsedPattern, RouteMeta)) => Fits(e.0.segments, req))
    case None => None
    case Some(e) => Hit(e, req)
  }

  /** The first entry of the method's list that fits the request. */
  function TableAnswer(routes: RouteTable, m: string, path: string): Option<MatchedRoute> {
    if m in routes then LookupIn(routes[m], Segments(path)) else None
  }

  method LookupRoute(routes: RouteTable, m: string, path: string) returns (r: Option<MatchedRoute>)
    ensures r == TableAnswer(routes, m, path)
  {
    var req := Segments(path);
    if m in routes {
      var entries := routes[m];
      ghost var fits := (e: (ParsedPattern, RouteMeta)) => Fits(e.0.segments, req);
      for i := 0 to |entries|
        invariant FirstWhere(entries, fits) == FirstWhere(entries[i..], fits)
      {
        assert entries[i..][0] == entries[i] && entries[i..][1..] == entries[i + 1..];
        var caps := Matches(entries[i].0, req);
        if caps.Some? {
          return Some(MatchedRoute(entries[i].1, caps.value));
        }
      }
      assert entries[|entries|..] == [];
    }
    return None;
  }

  /** Not-found pages are an ordinary row, under the pseudo-method "404" and path "/". */
  method LookupFallback(routes: RouteTable) returns (r: Option<RouteMeta>)
    ensures r == match TableAnswer(routes, "404", "/") case None => None case Some(h) => Some(h.route)
  {
    var hit := LookupRoute(routes, "404", "/");
    r := match hit case None => None case Some(h) => Some(h.route);
  }

  /** What `lookup_route` answers from a snapshot of `rows`. */
  function Lookup(rows: seq<RouteRow>, m: string, path: string): Option<MatchedRoute> {
    LookupIn(StableSort(EntriesFor(m, rows), SpecificFirst), Segments(path))
  }

  lemma TableLookup(routes: RouteTable, rows: seq<RouteRow>, m: string, path: string)
    requires IsTableOf(routes, rows)
    ensures TableAnswer(routes, m, path) == Lookup(rows, m, path)
  {
  }
}
