/** From the files under `pages/` to the answer of a request, through scan, push and lookup. */
module EndToEnd {
  import opened Prelude
  import Text
  import P = Paths
  import Scan = PageScan
  import opened Router
  import opened RoutingProperties
  import RoundTrip = RouteRoundTrip
  import opened Push
  import Pushing = PushProperties
  import HandlerCalls
  import Cache = SnapshotCache

  /** The entries push works on are the scanned ones with their files read. */
  predicate ReadFrom(e: Entry, scanned: P.RouteEntry) {
    e.method_ == scanned.method_ && e.route == scanned.route && e.handlerName == scanned.handlerName
    && e.template.Some? == scanned.templatePath.Some?
    && (e.template.Some? ==> e.template.value.path == scanned.templatePath.value)
    && e.sql.Some? == scanned.sqlPath.Some?
  }

  ghost predicate AllReadFrom(entries: seq<Entry>, scanned: seq<P.RouteEntry>) {
    |entries| == |scanned| && forall i :: 0 <= i < |entries| ==> ReadFrom(entries[i], scanned[i])
  }

  /** Components of a path relative to `pages/`. */
  predicate IsRelativeDir(dir: seq<string>) { forall i :: 0 <= i < |dir| ==> dir[i] != "" && '/' !in dir[i] }

  function RowOf(k: RouteKey, v: RouteValue): RouteRow {
    RouteRow(k.method_, k.path, RouteMeta(v.handlerName, v.templatePath))
  }

  function KeyOfRow(row: RouteRow): RouteKey { RouteKey(row.method_, row.pathPattern) }

  /** What the server reads back: the rows of the table, each once, in any order. */
  ghost predicate ListsRoutes(rows: seq<RouteRow>, routes: map<RouteKey, RouteValue>) {
    (forall row :: row in rows ==> KeyOfRow(row) in routes && row == RowOf(KeyOfRow(row), routes[KeyOfRow(row)]))
    && (forall k :: k in routes ==> RowOf(k, routes[k]) in rows)
    && forall i, j :: 0 <= i < j < |rows| ==> rows[i] != rows[j]
  }

  lemma {:induction false} AcceptedDirectory(dir: seq<string>)
    requires IsRelativeDir(dir) && P.ParseSegments(dir).Ok?
    ensures RoundTrip.IsDirectory(P.ParseSegments(dir).value)
  {
    if dir != [] {
      AcceptedDirectory(dir[1..]);
      P.ParseSegmentMeaning(dir[0]);
    }
  }

  // ---- A page's row is its own ----

  function SegmentsOf(key: Scan.Key): seq<P.Segment>
    requires Scan.IsAccepted(key)
  {
    P.ParseSegments(key.dir).value
  }

  /** The directory is a relative path whose names have no colon: its pattern parses back to it. */
  predicate IsRoutable(key: Scan.Key) {
    Scan.IsAccepted(key) && IsRelativeDir(key.dir) && forall i :: 0 <= i < |key.dir| ==> ':' !in key.dir[i]
  }

  lemma RoutableSegments(key: Scan.Key)
    requires IsRoutable(key)
    ensures RoundTrip.IsDirectory(SegmentsOf(key)) && RoundTrip.IsColonFree(SegmentsOf(key))
  {
    AcceptedDirectory(key.dir);
    P.ParsedSegmentsSpellTheDirectory(key.dir);
  }

  function KeyOfPage(key: Scan.Key): RouteKey
    requires Scan.IsAccepted(key)
  {
    RouteKey(P.MethodForStem(key.stem), P.BuildRoute(SegmentsOf(key)))
  }

  lemma StemsHaveDifferentMethods(a: P.Stem, b: P.Stem)
    requires P.MethodForStem(a) == P.MethodForStem(b)
    ensures a == b
  {
    assert "GET"[0] == 'G' && "DELETE"[0] == 'D' && "404"[0] == '4';
    assert "POST"[1] == 'O' && "PUT"[1] == 'U' && "PATCH"[1] == 'A';
  }

  /** No other page answers under the same method and route. */
  ghost predicate OwnsItsRoute(files: seq<Scan.PageFile>, key: Scan.Key)
    requires Scan.IsAccepted(key)
  {
    forall other :: other in Scan.KeysOf(files) && Scan.IsAccepted(other) && KeyOfPage(other) == KeyOfPage(key) ==>
      other == key
  }

  /** A literal name with a colon can take the route of a capture; without one, different pages have
      different routes or methods. */
  lemma RoutablePagesOwnTheirRoutes(a: Scan.Key, b: Scan.Key)
    requires IsRoutable(a) && IsRoutable(b) && KeyOfPage(a) == KeyOfPage(b)
    ensures a == b
  {
    StemsHaveDifferentMethods(a.stem, b.stem);
    RoutableSegments(a);
    RoutableSegments(b);
    RoundTrip.RoutesIdentifyDirectories(SegmentsOf(a), SegmentsOf(b));
    P.ParsedSegmentsSpellTheDirectory(a.dir);
    P.ParsedSegmentsSpellTheDirectory(b.dir);
    assert a.dir == b.dir;
  }

  /** The handler and the template of the page itself. */
  function ValueOfPage(files: seq<Scan.PageFile>, key: Scan.Key): RouteValue
    requires Scan.IsAccepted(key)
  {
    var stem := P.StemName(key.stem);
    RouteValue(P.BuildHandlerName(SegmentsOf(key), stem),
               if Scan.SlotOf(files, key).html.Some? then Some(P.BuildTemplatePath(key.dir, stem)) else None)
  }

  /** A scanned tree and the entries read from it. */
  ghost predicate IsTree(files: seq<Scan.PageFile>, scanned: seq<P.RouteEntry>, entries: seq<Entry>) {
    Scan.IsScanOf(scanned, files) && AllReadFrom(entries, scanned)
    && forall key :: key in Scan.KeysOf(files) ==> Scan.IsAccepted(key)
  }

  /** Every entry stands for a page, with that page's key and value. */
  lemma PageOfEntry(files: seq<Scan.PageFile>, scanned: seq<P.RouteEntry>, entries: seq<Entry>, e: Entry)
    returns (key: Scan.Key)
    requires IsTree(files, scanned, entries) && e in entries
    ensures key in Scan.KeysOf(files) && e.Key() == KeyOfPage(key) && e.Value() == ValueOfPage(files, key)
  {
    Scan.ScanCoversTree(scanned, files);
    var i :| 0 <= i < |entries| && entries[i] == e;
    assert ReadFrom(e, scanned[i]) && scanned[i] in scanned;
    assert Scan.ComesFrom(scanned[i], files);
    key :| key in Scan.KeysOf(files) && Scan.IsAccepted(key) && scanned[i] == Scan.ScannedEntry(files, key);
  }

  /** And every page has an entry. */
  lemma EntryOfPage(files: seq<Scan.PageFile>, scanned: seq<P.RouteEntry>, entries: seq<Entry>, key: Scan.Key)
    returns (e: Entry)
    requires IsTree(files, scanned, entries) && key in Scan.KeysOf(files)
    ensures e in entries && e.Key() == KeyOfPage(key) && e.Value() == ValueOfPage(files, key)
  {
    Scan.ScanCoversTree(scanned, files);
    var i :| 0 <= i < |scanned| && scanned[i] == Scan.ScannedEntry(files, key);
    e := entries[i];
    assert ReadFrom(e, scanned[i]);
  }

  /** The keys a tree claims are its pages'. */
  lemma ClaimsArePages(files: seq<Scan.PageFile>, scanned: seq<P.RouteEntry>, entries: seq<Entry>, k: RouteKey)
    requires IsTree(files, scanned, entries)
    ensures Pushing.Claims(entries, k) <==> exists key :: key in Scan.KeysOf(files) && KeyOfPage(key) == k
  {
    if Pushing.Claims(entries, k) {
      var e :| e in entries && e.Key() == k;
      var key := PageOfEntry(files, scanned, entries, e);
    }
    if key :| key in Scan.KeysOf(files) && KeyOfPage(key) == k { var e := EntryOfPage(files, scanned, entries, key); }
  }

  /** After a push the row at a claimed key is that of some page with that key. */
  lemma ClaimedRowIsAPages(files: seq<Scan.PageFile>, scanned: seq<P.RouteEntry>, t: Tables, plan: Plan, k: RouteKey)
    returns (key: Scan.Key)
    requires IsTree(files, scanned, plan.app.entries) && Pushing.Claims(plan.app.entries, k)
    ensures key in Scan.KeysOf(files) && KeyOfPage(key) == k
    ensures k in Pushed(t, plan).routes && Pushed(t, plan).routes[k] == ValueOfPage(files, key)
  {
    var i := Pushing.LastClaim(plan.app.entries, k);
    Pushing.ClaimedRoutesMatchTree(t, plan, i);
    key := PageOfEntry(files, scanned, plan.app.entries, plan.app.entries[i]);
  }

  /** A page that owns its route has its own handler and template in its row. */
  lemma PageKeepsItsRow(files: seq<Scan.PageFile>, scanned: seq<P.RouteEntry>, t: Tables, plan: Plan, key: Scan.Key)
    requires IsTree(files, scanned, plan.app.entries) && key in Scan.KeysOf(files) && OwnsItsRoute(files, key)
    ensures var routes := Pushed(t, plan).routes;
            KeyOfPage(key) in routes && routes[KeyOfPage(key)] == ValueOfPage(files, key)
  {
    ClaimsArePages(files, scanned, plan.app.entries, KeyOfPage(key));
    var key' := ClaimedRowIsAPages(files, scanned, t, plan, KeyOfPage(key));
  }

  // ---- Who answers ----

  function RowOfPage(files: seq<Scan.PageFile>, key: Scan.Key): RouteRow
    requires Scan.IsAccepted(key)
  {
    RowOf(KeyOfPage(key), ValueOfPage(files, key))
  }

  /** A request for a page: the values fill the captures of its directory and are spread over the
      path with any runs of slashes. */
  predicate AsksFor(key: Scan.Key, vals: seq<string>, runs: seq<nat>) {
    IsRoutable(key) && RoundTrip.Fills(SegmentsOf(key), vals)
    && |runs| == |vals| + 1 && forall k :: 0 < k < |vals| ==> runs[k] > 0
  }

  /** The row matches the request no less specifically than the page. */
  predicate Outranks(row: RouteRow, key: Scan.Key, vals: seq<string>)
    requires Scan.IsAccepted(key)
  {
    Matching(row, P.MethodForStem(key.stem), vals)
    && StaticCount(RoundTrip.ToPatSegs(SegmentsOf(key))) <= Specificity(row)
  }

  /** Another page of the tree ties with the page or beats it. */
  predicate IsRivalPage(files: seq<Scan.PageFile>, rival: Scan.Key, key: Scan.Key, vals: seq<string>)
    requires Scan.IsAccepted(key) && Scan.IsAccepted(rival)
  {
    rival != key && Outranks(RowOfPage(files, rival), key, vals)
  }

  /** A default row that push left alone does. */
  predicate IsRivalDefault(t: Tables, plan: Plan, k: RouteKey, key: Scan.Key, vals: seq<string>)
    requires Scan.IsAccepted(key)
  {
    k in t.routes && Text.StartsWith(t.routes[k].handlerName, "pgweb._default_") && !Pushing.Claims(plan.app.entries, k)
    && Outranks(RowOf(k, t.routes[k]), key, vals)
  }

  /** No other page ties with the page or beats it on this request, and no default row does. */
  ghost predicate Unrivalled(files: seq<Scan.PageFile>, t: Tables, plan: Plan, key: Scan.Key, vals: seq<string>)
    requires Scan.IsAccepted(key)
  {
    (forall rival :: rival in Scan.KeysOf(files) && Scan.IsAccepted(rival) ==> !IsRivalPage(files, rival, key, vals))
    && forall k :: !IsRivalDefault(t, plan, k, key, vals)
  }

  lemma PageRowMatches(files: seq<Scan.PageFile>, key: Scan.Key, vals: seq<string>)
    requires IsRoutable(key)
    ensures Matching(RowOfPage(files, key), P.MethodForStem(key.stem), vals)
            <==> Fits(RoundTrip.ToPatSegs(SegmentsOf(key)), vals)
    ensures ParsePattern(RowOfPage(files, key).pathPattern) == Ok(PatternOf(RoundTrip.ToPatSegs(SegmentsOf(key))))
  {
    RoutableSegments(key);
    RoundTrip.RouteParsesBackIffNoColon(SegmentsOf(key));
  }

  /** Which pages are rivals: those of the same method whose directory the request also fits, with
      as many literal names or more. */
  lemma RivalPageIff(files: seq<Scan.PageFile>, rival: Scan.Key, key: Scan.Key, vals: seq<string>)
    requires IsRoutable(key) && IsRoutable(rival) && rival != key
    ensures IsRivalPage(files, rival, key, vals)
            <==> rival.stem == key.stem && Fits(RoundTrip.ToPatSegs(SegmentsOf(rival)), vals)
                 && StaticCount(RoundTrip.ToPatSegs(SegmentsOf(key)))
                    <= StaticCount(RoundTrip.ToPatSegs(SegmentsOf(rival)))
  {
    PageRowMatches(files, rival, vals);
    if P.MethodForStem(rival.stem) == P.MethodForStem(key.stem) { StemsHaveDifferentMethods(rival.stem, key.stem); }
  }

  lemma UnclaimedIsRival(t: Tables, plan: Plan, k: RouteKey, key: Scan.Key, vals: seq<string>)
    requires Scan.IsAccepted(key) && k in Pushed(t, plan).routes && !Pushing.Claims(plan.app.entries, k)
    requires Outranks(RowOf(k, Pushed(t, plan).routes[k]), key, vals)
    ensures IsRivalDefault(t, plan, k, key, vals)
  {
    Pushing.RouteKeysMatchTree(t, plan);
  }

  /** A row that outranks an unrivalled page is the page's own. */
  lemma OutrankingRow(
    files: seq<Scan.PageFile>, scanned: seq<P.RouteEntry>, t: Tables, plan: Plan, k: RouteKey, key: Scan.Key,
    vals: seq<string>)
    requires IsTree(files, scanned, plan.app.entries) && key in Scan.KeysOf(files)
             && Unrivalled(files, t, plan, key, vals)
    requires k in Pushed(t, plan).routes && Outranks(RowOf(k, Pushed(t, plan).routes[k]), key, vals)
    ensures k == KeyOfPage(key)
  {
    Pushing.RouteKeysMatchTree(t, plan);
    if Pushing.Claims(plan.app.entries, k) {
      var other := ClaimedRowIsAPages(files, scanned, t, plan, k);
      assert !IsRivalPage(files, other, key, vals);
    } else {
      UnclaimedIsRival(t, plan, k, key, vals);
    }
  }

  /** Handler and template have no say in who matches. */
  lemma SamePatternOutranks(a: RouteRow, b: RouteRow, key: Scan.Key, vals: seq<string>)
    requires Scan.IsAccepted(key) && a.method_ == b.method_ && a.pathPattern == b.pathPattern
    ensures Outranks(a, key, vals) <==> Outranks(b, key, vals)
  {
  }

  lemma RivalOutranks(
    files: seq<Scan.PageFile>, scanned: seq<P.RouteEntry>, t: Tables, plan: Plan, key: Scan.Key, vals: seq<string>)
    returns (k: RouteKey)
    requires IsTree(files, scanned, plan.app.entries) && key in Scan.KeysOf(files) && OwnsItsRoute(files, key)
    requires !Unrivalled(files, t, plan, key, vals)
    ensures k in Pushed(t, plan).routes && k != KeyOfPage(key)
            && Outranks(RowOf(k, Pushed(t, plan).routes[k]), key, vals)
  {
    Pushing.RouteKeysMatchTree(t, plan);
    if rival :| rival in Scan.KeysOf(files) && IsRivalPage(files, rival, key, vals) {
      k := KeyOfPage(rival);
      ClaimsArePages(files, scanned, plan.app.entries, k);
      SamePatternOutranks(RowOfPage(files, rival), RowOf(k, Pushed(t, plan).routes[k]), key, vals);
    } else {
      k :| IsRivalDefault(t, plan, k, key, vals);
      ClaimsArePages(files, scanned, plan.app.entries, KeyOfPage(key));
    }
  }

  /** In every listing of the rows the page's own row is the most specific match. */
  ghost predicate AlwaysAnswers(routes: map<RouteKey, RouteValue>, row: RouteRow, vals: seq<string>) {
    forall rows, i :: ListsRoutes(rows, routes) && IsMostSpecific(rows, row.method_, vals, i) ==> rows[i] == row
  }

  /** A page that owns its route answers a request for it, whatever order the database lists the
      rows in, iff nothing ties with it or beats it. */
  lemma PageAnswersIffUnrivalled(
    files: seq<Scan.PageFile>, scanned: seq<P.RouteEntry>, t: Tables, plan: Plan, key: Scan.Key, vals: seq<string>)
    requires IsTree(files, scanned, plan.app.entries) && key in Scan.KeysOf(files) && IsRoutable(key)
             && OwnsItsRoute(files, key)
    requires RoundTrip.Fills(SegmentsOf(key), vals)
    ensures AlwaysAnswers(Pushed(t, plan).routes, RowOfPage(files, key), vals)
            <==> Unrivalled(files, t, plan, key, vals)
  {
    var routes := Pushed(t, plan).routes;
    if Unrivalled(files, t, plan, key, vals) {
      forall rows, i | ListsRoutes(rows, routes) && IsMostSpecific(rows, P.MethodForStem(key.stem), vals, i)
        ensures rows[i] == RowOfPage(files, key)
      {
        UnrivalledAnswers(files, scanned, t, plan, rows, key, vals, i);
      }
    } else {
      var k := RivalOutranks(files, scanned, t, plan, key, vals);
      RivalAnswersOnce(files, routes, k, key, vals);
    }
  }

  /** Another page with the same method and route would be a rival. */
  lemma UnrivalledOwnsItsRoute(files: seq<Scan.PageFile>, t: Tables, plan: Plan, key: Scan.Key, vals: seq<string>)
    requires IsRoutable(key) && RoundTrip.Fills(SegmentsOf(key), vals) && Unrivalled(files, t, plan, key, vals)
    ensures OwnsItsRoute(files, key)
  {
    RoundTrip.FillingFits(SegmentsOf(key), vals);
    PageRowMatches(files, key, vals);
    forall other | other in Scan.KeysOf(files) && Scan.IsAccepted(other) && KeyOfPage(other) == KeyOfPage(key)
      ensures other == key
    {
      assert !IsRivalPage(files, other, key, vals);
    }
  }

  lemma UnrivalledAnswers(
    files: seq<Scan.PageFile>, scanned: seq<P.RouteEntry>, t: Tables, plan: Plan, rows: seq<RouteRow>,
    key: Scan.Key, vals: seq<string>, i: int)
    requires IsTree(files, scanned, plan.app.entries) && key in Scan.KeysOf(files) && IsRoutable(key)
             && RoundTrip.Fills(SegmentsOf(key), vals)
    requires Unrivalled(files, t, plan, key, vals) && ListsRoutes(rows, Pushed(t, plan).routes)
    requires IsMostSpecific(rows, P.MethodForStem(key.stem), vals, i)
    ensures rows[i] == RowOfPage(files, key)
  {
    UnrivalledOwnsItsRoute(files, t, plan, key, vals);
    PageKeepsItsRow(files, scanned, t, plan, key);
    RoundTrip.FillingFits(SegmentsOf(key), vals);
    PageRowMatches(files, key, vals);
    assert RowOfPage(files, key) in rows && rows[i] in rows;
    var j :| 0 <= j < |rows| && rows[j] == RowOfPage(files, key);
    assert Outranks(rows[i], key, vals);
    OutrankingRow(files, scanned, t, plan, KeyOfRow(rows[i]), key, vals);
  }

  /** Listed first, a rival is preferred. */
  lemma RivalAnswersOnce(files: seq<Scan.PageFile>, routes: map<RouteKey, RouteValue>, k: RouteKey, key: Scan.Key,
                         vals: seq<string>)
    requires IsRoutable(key) && k in routes && k != KeyOfPage(key) && Outranks(RowOf(k, routes[k]), key, vals)
    ensures !AlwaysAnswers(routes, RowOfPage(files, key), vals)
  {
    var own := RowOfPage(files, key);
    PageRowMatches(files, key, vals);
    var rows, i := RivalListedFirst(routes, k, own, vals);
    assert ListsRoutes(rows, routes) && IsMostSpecific(rows, own.method_, vals, i);
  }

  lemma RivalListedFirst(routes: map<RouteKey, RouteValue>, k: RouteKey, own: RouteRow, vals: seq<string>)
    returns (rows: seq<RouteRow>, i: int)
    requires k in routes && RowOf(k, routes[k]) != own && Matching(RowOf(k, routes[k]), own.method_, vals)
    requires Matching(own, own.method_, vals) ==> Specificity(own) <= Specificity(RowOf(k, routes[k]))
    ensures ListsRoutes(rows, routes) && IsMostSpecific(rows, own.method_, vals, i) && rows[i] != own
  {
    rows := ListedFirst(routes, k);
    i := SomeoneAnswers(rows, own.method_, vals);
    FirstIsPreferred(rows, own.method_, vals, i, own);
  }

  lemma SomeoneAnswers(rows: seq<RouteRow>, m: string, vals: seq<string>) returns (i: int)
    requires rows != [] && Matching(rows[0], m, vals)
    ensures IsMostSpecific(rows, m, vals, i)
  {
    i := MostSpecificRow(rows, m, vals);
  }

  lemma FirstIsPreferred(rows: seq<RouteRow>, m: string, vals: seq<string>, i: int, own: RouteRow)
    requires rows != [] && rows[0] != own && Matching(rows[0], m, vals) && IsMostSpecific(rows, m, vals, i)
    requires Matching(own, m, vals) ==> Specificity(own) <= Specificity(rows[0])
    ensures rows[i] != own
  {
    if i > 0 { EarlierIsLess(rows, m, vals, i, 0); }
  }

  lemma EarlierIsLess(rows: seq<RouteRow>, m: string, vals: seq<string>, i: int, j: nat)
    requires IsMostSpecific(rows, m, vals, i) && j < i && Matching(rows[j], m, vals)
    ensures Specificity(rows[j]) < Specificity(rows[i])
  {
  }

  lemma {:induction false} SomeListing(routes: map<RouteKey, RouteValue>) returns (rows: seq<RouteRow>)
    ensures ListsRoutes(rows, routes)
    decreases |routes|, 1
  {
    rows := [];
    if k :| k in routes { rows := ListedFirst(routes, k); }
  }

  /** Some listing begins with the row of this key. */
  lemma ListedFirst(routes: map<RouteKey, RouteValue>, k: RouteKey) returns (rows: seq<RouteRow>)
    requires k in routes
    ensures ListsRoutes(rows, routes) && rows != [] && rows[0] == RowOf(k, routes[k])
    decreases |routes|, 0
  {
    var others := routes - {k};
    assert others.Keys == routes.Keys - {k};
    var rest := SomeListing(others);
    rows := [RowOf(k, routes[k])] + rest;
    forall k' | k' in routes ensures RowOf(k', routes[k']) in rows {
      if k' != k { assert k' in others && RowOf(k', others[k']) in rest; }
    }
    forall j | 0 <= j < |rest| ensures rest[j] != RowOf(k, routes[k]) {
      assert rest[j] in rest && KeyOfRow(rest[j]) in others;
    }
  }

  // ---- From the tree to the answer ----

  /** `rows` is what the server reads back after a committed push of this tree. */
  ghost predicate IsDeployed(files: seq<Scan.PageFile>, scanned: seq<P.RouteEntry>, t: Tables, plan: Plan,
                             rows: seq<RouteRow>) {
    IsTree(files, scanned, plan.app.entries) && Validates(t, plan) && ListsRoutes(rows, Pushed(t, plan).routes)
  }

  /** The page's own handler and template, with the values of its captures. */
  function AnswerOfPage(files: seq<Scan.PageFile>, key: Scan.Key, vals: seq<string>): MatchedRoute
    requires Scan.IsAccepted(key) && |vals| == |SegmentsOf(key)|
  {
    MatchedRoute(RowOfPage(files, key).meta, Captures(RoundTrip.ToPatSegs(SegmentsOf(key)), vals, |vals|))
  }

  /** After a committed push, a request that fills a page's captures and that nothing else claims
      as specifically is answered by the page: with its own handler, its own template and the
      values it was given. */
  lemma PushedPageAnswers(
    files: seq<Scan.PageFile>, scanned: seq<P.RouteEntry>, t: Tables, plan: Plan, rows: seq<RouteRow>,
    key: Scan.Key, vals: seq<string>, runs: seq<nat>)
    requires IsDeployed(files, scanned, t, plan, rows)
    requires key in Scan.KeysOf(files) && AsksFor(key, vals, runs) && Unrivalled(files, t, plan, key, vals)
    ensures Lookup(rows, P.MethodForStem(key.stem), RoundTrip.Spread(vals, runs))
            == Some(AnswerOfPage(files, key, vals))
  {
    var m := P.MethodForStem(key.stem);
    RoundTrip.SegmentsOfSpread(vals, runs);
    UnrivalledOwnsItsRoute(files, t, plan, key, vals);
    PageKeepsItsRow(files, scanned, t, plan, key);
    RoundTrip.FillingFits(SegmentsOf(key), vals);
    PageRowMatches(files, key, vals);
    assert RowOfPage(files, key) in rows;
    var i := LookupIsMostSpecific(rows, m, RoundTrip.Spread(vals, runs));
    UnrivalledAnswers(files, scanned, t, plan, rows, key, vals, i);
  }

  /** The row comes from the tree, with all it needs in the database, so that the server serves it
      iff it accepts the handler's name; or it is a default row push left alone. */
  predicate IsTrustworthy(row: RouteRow, t: Tables, plan: Plan) {
    var k, p := KeyOfRow(row), Pushed(t, plan);
    if Pushing.Claims(plan.app.entries, k) then
      k in p.routes && row == RowOf(k, p.routes[k]) && Pushing.IsBacked(p, p.routes[k])
      && (Pushing.IsServable(p, p.routes[k]) <==> HandlerCalls.IsSafeIdent(row.meta.handlerName))
    else
      k in t.routes && row == RowOf(k, t.routes[k]) && Text.StartsWith(row.meta.handlerName, "pgweb._default_")
  }

  lemma ListedRowIsTrustworthy(t: Tables, plan: Plan, rows: seq<RouteRow>, row: RouteRow)
    requires Validates(t, plan) && ListsRoutes(rows, Pushed(t, plan).routes) && row in rows
    ensures IsTrustworthy(row, t, plan)
  {
    Pushing.RouteKeysMatchTree(t, plan);
    if Pushing.Claims(plan.app.entries, KeyOfRow(row)) { Pushing.PushedRoutesAreServableIff(t, plan, KeyOfRow(row)); }
  }

  /** Some row with the page's method and pattern is listed. */
  lemma PatternIsListed(
    files: seq<Scan.PageFile>, scanned: seq<P.RouteEntry>, t: Tables, plan: Plan, rows: seq<RouteRow>,
    key: Scan.Key, vals: seq<string>)
    returns (row: RouteRow)
    requires IsDeployed(files, scanned, t, plan, rows)
    requires key in Scan.KeysOf(files) && IsRoutable(key) && RoundTrip.Fills(SegmentsOf(key), vals)
    ensures row in rows && Outranks(row, key, vals)
  {
    ClaimsArePages(files, scanned, plan.app.entries, KeyOfPage(key));
    Pushing.RouteKeysMatchTree(t, plan);
    row := RowOf(KeyOfPage(key), Pushed(t, plan).routes[KeyOfPage(key)]);
    RoundTrip.FillingFits(SegmentsOf(key), vals);
    PageRowMatches(files, key, vals);
    SamePatternOutranks(RowOfPage(files, key), row, key, vals);
  }

  /** Rivals or not, a request for a page is always answered: by the most specific match, at least
      as specific as the page, and a row to be trusted. */
  lemma SomeRowAnswers(
    files: seq<Scan.PageFile>, scanned: seq<P.RouteEntry>, t: Tables, plan: Plan, rows: seq<RouteRow>,
    key: Scan.Key, vals: seq<string>, runs: seq<nat>)
    returns (i: int)
    requires IsDeployed(files, scanned, t, plan, rows)
    requires key in Scan.KeysOf(files) && AsksFor(key, vals, runs)
    ensures var m := P.MethodForStem(key.stem);
            IsMostSpecific(rows, m, vals, i) && Outranks(rows[i], key, vals)
            && Lookup(rows, m, RoundTrip.Spread(vals, runs)) == Some(Answer(rows[i], vals))
            && IsTrustworthy(rows[i], t, plan)
  {
    RoundTrip.SegmentsOfSpread(vals, runs);
    var own := PatternIsListed(files, scanned, t, plan, rows, key, vals);
    i := LookupIsMostSpecific(rows, P.MethodForStem(key.stem), RoundTrip.Spread(vals, runs));
    assert rows[i] in rows;
    ListedRowIsTrustworthy(t, plan, rows, rows[i]);
  }

  /** The answer names exactly the page's captures, and gives each its value iff captures of one
      name were given one value. */
  lemma AnswerRecoversCaptures(files: seq<Scan.PageFile>, key: Scan.Key, vals: seq<string>)
    requires Scan.IsAccepted(key) && |vals| == |SegmentsOf(key)|
    ensures var params := AnswerOfPage(files, key, vals).pathParams;
            (forall name :: name in params <==> P.Capture(name) in SegmentsOf(key))
            && (RoundTrip.Recovers(SegmentsOf(key), vals, params) <==> RoundTrip.Consistent(SegmentsOf(key), vals))
  {
    RoundTrip.CapturesRecoverIffConsistent(SegmentsOf(key), vals);
    RoundTrip.CapturedNames(SegmentsOf(key), vals);
  }

  /** A pushed page has its handler and template in place, and the server calls the handler iff
      every literal name in the directory is made of identifier characters and the handler's name
      fits. */
  lemma PageIsServedIff(files: seq<Scan.PageFile>, scanned: seq<P.RouteEntry>, t: Tables, plan: Plan, key: Scan.Key)
    requires IsTree(files, scanned, plan.app.entries) && Validates(t, plan) && key in Scan.KeysOf(files)
    ensures var p, value := Pushed(t, plan), ValueOfPage(files, key);
            Pushing.IsBacked(p, value)
            && (Pushing.IsServable(p, value)
                <==> Text.ByteLen(value.handlerName) <= 128
                     && forall i :: 0 <= i < |SegmentsOf(key)| ==> HandlerCalls.IsCallable(SegmentsOf(key)[i]))
  {
    var e := EntryOfPage(files, scanned, plan.app.entries, key);
    Pushing.BackedEntry(t, plan, e);
    AcceptedCaptures(key.dir);
    HandlerCalls.PageIsCallableIff(SegmentsOf(key), key.stem);
  }

  lemma {:induction false} AcceptedCaptures(dir: seq<string>)
    requires P.ParseSegments(dir).Ok?
    ensures var segs := P.ParseSegments(dir).value;
            forall i :: 0 <= i < |segs| && segs[i].Capture? ==> P.IsValidCaptureName(segs[i].name)
  {
    if dir != [] { AcceptedCaptures(dir[1..]); }
  }

  /** The same through the worker's cache: with no reload pending, the table built from the cached
      snapshot answers with the page of the last committed push. */
  lemma ServedPageAnswers(
    states: seq<Cache.State>, n: nat, table: RouteTable,
    files: seq<Scan.PageFile>, scanned: seq<P.RouteEntry>, t: Tables, plan: Plan,
    key: Scan.Key, vals: seq<string>, runs: seq<nat>)
    requires Cache.IsBehavior(states) && n < |states| && states[n].history != []
             && Cache.IsSettledTable(table, states[n])
    requires states[n].cache.value.routes.At?
    requires IsDeployed(files, scanned, t, plan, Cache.LastRoutes(states[n]))
    requires key in Scan.KeysOf(files) && AsksFor(key, vals, runs) && Unrivalled(files, t, plan, key, vals)
    ensures TableAnswer(table, P.MethodForStem(key.stem), RoundTrip.Spread(vals, runs))
            == Some(AnswerOfPage(files, key, vals))
  {
    Cache.SettledTableIsLastPush(states, n, table, P.MethodForStem(key.stem), RoundTrip.Spread(vals, runs));
    PushedPageAnswers(files, scanned, t, plan, Cache.LastRoutes(states[n]), key, vals, runs);
  }
}
