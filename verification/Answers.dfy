/** What requests get after a push, said of files, methods and URLs: which file answers which
    method, when an asset is served, and what is not found. */
module Answers {
  import opened Prelude
  import opened Text
  import P = Paths
  import Scan = PageScan
  import opened Router
  import opened RoutingProperties
  import RoundTrip = RouteRoundTrip
  import opened Push
  import PushProperties
  import Cache = SnapshotCache
  import opened Serve
  import opened EndToEnd

  // ---- The table requests are looked up in ----

  /** The server's table answers from the rows a committed push of this tree has stored. */
  ghost predicate IsServing(files: seq<Scan.PageFile>, scanned: seq<P.RouteEntry>, t: Tables, plan: Plan,
                            rows: seq<RouteRow>, table: RouteTable) {
    IsDeployed(files, scanned, t, plan, rows)
    && forall m, path :: TableAnswer(table, m, path) == Lookup(rows, m, path)
  }

  /** It does when it was built from these rows. */
  lemma BuiltTableServes(files: seq<Scan.PageFile>, scanned: seq<P.RouteEntry>, t: Tables, plan: Plan,
                         rows: seq<RouteRow>, table: RouteTable)
    requires IsDeployed(files, scanned, t, plan, rows) && IsTableOf(table, rows)
    ensures IsServing(files, scanned, t, plan, rows, table)
  {
    forall m, path ensures TableAnswer(table, m, path) == Lookup(rows, m, path) { TableLookup(table, rows, m, path); }
  }

  /** And so does the worker's cached one, in every run, with no reload pending. */
  lemma CachedTableServes(
    states: seq<Cache.State>, n: nat, table: RouteTable,
    files: seq<Scan.PageFile>, scanned: seq<P.RouteEntry>, t: Tables, plan: Plan)
    requires Cache.IsBehavior(states) && n < |states| && states[n].history != []
             && Cache.IsSettledTable(table, states[n])
    requires states[n].cache.value.routes.At?
    requires IsDeployed(files, scanned, t, plan, Cache.LastRoutes(states[n]))
    ensures IsServing(files, scanned, t, plan, Cache.LastRoutes(states[n]), table)
  {
    forall m, path ensures TableAnswer(table, m, path) == Lookup(Cache.LastRoutes(states[n]), m, path) {
      Cache.SettledTableIsLastPush(states, n, table, m, path);
    }
  }

  /** What the server answers from that table and the pushed assets and settings. */
  function Answered(table: RouteTable, p: Tables, m: string, path: string, allow: string): Served {
    Dispatch(table, p.assets, p.settings, m, path, allow)
  }

  // ---- Pages ----

  /** The methods a file of this name answers. */
  predicate Serves(stem: string, m: string) {
    (stem == "index" && (m == "GET" || m == "HEAD")) || (stem == "post" && m == "POST") || (stem == "put" && m == "PUT")
    || (stem == "patch" && m == "PATCH") || (stem == "delete" && m == "DELETE")
  }

  lemma FileMethod(f: Scan.PageFile, key: Scan.Key, m: string)
    requires Scan.KeyOf(f) == Some(key) && Serves(f.stem, m)
    ensures LookupMethod(m) == P.MethodForStem(key.stem) && m != "OPTIONS" && P.StemName(key.stem) == f.stem
  {
    P.ParseStemMeaning(f.stem, f.dir == [], key.stem);
    assert "HEAD"[0] == 'H' && "OPTIONS"[0] == 'O' && "GET"[0] == 'G' && "DELETE"[0] == 'D' && "PUT"[0] == 'P';
  }

  lemma PageIsNotSuppressed(files: seq<Scan.PageFile>, key: Scan.Key, settings: Settings)
    requires Scan.IsAccepted(key)
    ensures !IsSuppressed(ValueOfPage(files, key).handlerName, settings)
  {
    var name := ValueOfPage(files, key).handlerName;
    P.HandlerNameIsJoin(SegmentsOf(key), P.StemName(key.stem));
    assert name[6] == "pgweb.pages__"[6] == 'p';
    assert "pgweb._default_health_handler"[6] == '_' && "pgweb._default_readiness_handler"[6] == '_';
  }

  /** After a committed push a request that fills the captures of a file's directory, with a method
      the file is for, and that nothing else matches as specifically, is answered by the file's own
      handler and template, called with the captured values. */
  lemma PageFileAnswers(
    files: seq<Scan.PageFile>, scanned: seq<P.RouteEntry>, t: Tables, plan: Plan, rows: seq<RouteRow>,
    table: RouteTable, f: Scan.PageFile, key: Scan.Key, vals: seq<string>, runs: seq<nat>, m: string, allow: string)
    requires IsServing(files, scanned, t, plan, rows, table)
    requires f in files && Scan.KeyOf(f) == Some(key) && Serves(f.stem, m)
    requires AsksFor(key, vals, runs) && Unrivalled(files, t, plan, key, vals)
    ensures var answer := AnswerOfPage(files, key, vals);
            Answered(table, Pushed(t, plan), m, RoundTrip.Spread(vals, runs), allow)
            == Rendered(answer.route, answer.pathParams, 200)
    ensures AnswerOfPage(files, key, vals).route.handlerName == P.BuildHandlerName(SegmentsOf(key), f.stem)
  {
    FileMethod(f, key, m);
    PageIsNotSuppressed(files, key, Pushed(t, plan).settings);
    PushedPageAnswers(files, scanned, t, plan, rows, key, vals, runs);
    HitIsRendered(table, Pushed(t, plan), m, RoundTrip.Spread(vals, runs), allow, AnswerOfPage(files, key, vals));
  }

  lemma HitIsRendered(table: RouteTable, p: Tables, m: string, path: string, allow: string, hit: MatchedRoute)
    requires TableAnswer(table, LookupMethod(m), path) == Some(hit) && m != "OPTIONS"
    requires !IsSuppressed(hit.route.handlerName, p.settings)
    ensures Answered(table, p, m, path, allow) == Rendered(hit.route, hit.pathParams, 200)
  {
  }

  // ---- The not-found page ----

  /** The tree has a not-found page at its root. */
  predicate HasNotFoundPage(files: seq<Scan.PageFile>) { exists f :: f in files && f.dir == [] && f.stem == "_404" }

  /** Its route: the handler named after it, and its template if it has one. */
  ghost predicate IsNotFoundPage(files: seq<Scan.PageFile>, route: RouteMeta) {
    route.handlerName == "pgweb.pages___404"
    && route.templatePath == if exists f :: f in files && f.dir == [] && f.stem == "_404" && f.isHtml
                             then Some("pages/_404.html") else None
  }

  /** No seeded row claims to be a not-found page. */
  predicate NoSeededFallback(t: Tables) {
    forall k :: k in t.routes && k.method_ == "404" ==> !StartsWith(t.routes[k].handlerName, "pgweb._default_")
  }

  lemma OnlyNotFoundHasItsMethod(key: Scan.Key)
    ensures P.MethodForStem(key.stem) == "404" <==> key.stem == P.NotFound
  {
    if P.MethodForStem(key.stem) == "404" { StemsHaveDifferentMethods(key.stem, P.NotFound); }
  }

  /** A page with the method of not-found pages comes from such a file at the root. */
  lemma NotFoundFile(files: seq<Scan.PageFile>, key: Scan.Key) returns (f: Scan.PageFile)
    requires key in Scan.KeysOf(files) && P.MethodForStem(key.stem) == "404"
    ensures f in files && f.dir == [] && f.stem == "_404" && key == Scan.Key([], P.NotFound)
  {
    OnlyNotFoundHasItsMethod(key);
    f :| f in files && Scan.KeyOf(f) == Some(key);
    P.ParseStemMeaning(f.stem, f.dir == [], key.stem);
  }

  lemma NotFoundKey(files: seq<Scan.PageFile>, f: Scan.PageFile)
    requires f in files && f.dir == [] && f.stem == "_404"
    ensures Scan.KeyOf(f) == Some(Scan.Key([], P.NotFound)) && Scan.Key([], P.NotFound) in Scan.KeysOf(files)
  {
    P.ParseStemMeaning(f.stem, true, P.NotFound);
  }

  lemma RivalHasItsMethod(files: seq<Scan.PageFile>, rival: Scan.Key, key: Scan.Key, vals: seq<string>)
    requires Scan.IsAccepted(key) && Scan.IsAccepted(rival) && IsRivalPage(files, rival, key, vals)
    ensures P.MethodForStem(rival.stem) == P.MethodForStem(key.stem) && rival != key
  {
  }

  lemma RivalDefaultHasItsMethod(t: Tables, plan: Plan, k: RouteKey, key: Scan.Key, vals: seq<string>)
    requires Scan.IsAccepted(key) && IsRivalDefault(t, plan, k, key, vals)
    ensures k in t.routes && k.method_ == P.MethodForStem(key.stem)
            && StartsWith(t.routes[k].handlerName, "pgweb._default_")
  {
  }

  lemma NotFoundIsUnrivalled(files: seq<Scan.PageFile>, t: Tables, plan: Plan, key: Scan.Key)
    requires NoSeededFallback(t) && key == Scan.Key([], P.NotFound) && Scan.IsAccepted(key)
    ensures Unrivalled(files, t, plan, key, [])
  {
    OnlyNotFoundHasItsMethod(key);
    forall rival | rival in Scan.KeysOf(files) && Scan.IsAccepted(rival) ensures !IsRivalPage(files, rival, key, []) {
      if IsRivalPage(files, rival, key, []) {
        RivalHasItsMethod(files, rival, key, []);
        var f := NotFoundFile(files, rival);
      }
    }
    forall k ensures !IsRivalDefault(t, plan, k, key, []) {
      if IsRivalDefault(t, plan, k, key, []) { RivalDefaultHasItsMethod(t, plan, k, key, []); }
    }
  }

  lemma NotFoundValue(files: seq<Scan.PageFile>, key: Scan.Key)
    requires key == Scan.Key([], P.NotFound) && Scan.IsAccepted(key) && |SegmentsOf(key)| == 0
    ensures IsNotFoundPage(files, AnswerOfPage(files, key, []).route)
  {
    Scan.EntryHasItsFiles(files, key);
    NotFoundNames();
    if f :| f in files && f.dir == [] && f.stem == "_404" && f.isHtml { NotFoundKey(files, f); }
    if f :| f in files && Scan.IsFileOf(f, key, true) { P.ParseStemMeaning(f.stem, f.dir == [], P.NotFound); }
  }

  lemma NotFoundNames()
    ensures P.BuildHandlerName([], P.StemName(P.NotFound)) == "pgweb.pages___404"
    ensures P.BuildTemplatePath([], P.StemName(P.NotFound)) == "pages/_404.html"
  {
  }

  lemma RootKey(key: Scan.Key)
    requires key == Scan.Key([], P.NotFound)
    ensures Scan.IsAccepted(key) && SegmentsOf(key) == [] && AsksFor(key, [], [1])
    ensures RoundTrip.Spread([], [1]) == "/" && P.MethodForStem(key.stem) == "404"
  {
    assert RoundTrip.Slashes(1) == "/";
  }

  /** The not-found page is the one at the root of the tree, and there is none without it. */
  lemma FallbackIsTheRootPage(
    files: seq<Scan.PageFile>, scanned: seq<P.RouteEntry>, t: Tables, plan: Plan, rows: seq<RouteRow>,
    table: RouteTable)
    requires IsServing(files, scanned, t, plan, rows, table) && NoSeededFallback(t)
    ensures FallbackRoute(table).Some? <==> HasNotFoundPage(files)
    ensures FallbackRoute(table).Some? ==> IsNotFoundPage(files, FallbackRoute(table).value)
  {
    if HasNotFoundPage(files) {
      var f :| f in files && f.dir == [] && f.stem == "_404";
      NotFoundKey(files, f);
      RootPageIsFallback(files, scanned, t, plan, rows, table, Scan.KeyOf(f).value);
    } else {
      NoFallbackRow(files, scanned, t, plan, rows);
    }
  }

  lemma RootPageIsFallback(
    files: seq<Scan.PageFile>, scanned: seq<P.RouteEntry>, t: Tables, plan: Plan, rows: seq<RouteRow>,
    table: RouteTable, key: Scan.Key)
    requires IsServing(files, scanned, t, plan, rows, table) && NoSeededFallback(t)
    requires key == Scan.Key([], P.NotFound) && key in Scan.KeysOf(files)
    ensures FallbackRoute(table).Some? && IsNotFoundPage(files, FallbackRoute(table).value)
  {
    RootPageAnswers(files, scanned, t, plan, rows, key);
    FallbackIs(table, rows, "404", "/", AnswerOfPage(files, key, []));
    NotFoundValue(files, key);
  }

  lemma FallbackIs(table: RouteTable, rows: seq<RouteRow>, m: string, path: string, hit: MatchedRoute)
    requires (forall m, path :: TableAnswer(table, m, path) == Lookup(rows, m, path))
    requires m == "404" && path == "/" && Lookup(rows, m, path) == Some(hit)
    ensures FallbackRoute(table) == Some(hit.route)
  {
    assert TableAnswer(table, m, path) == Some(hit);
  }

  lemma RootPageAnswers(
    files: seq<Scan.PageFile>, scanned: seq<P.RouteEntry>, t: Tables, plan: Plan, rows: seq<RouteRow>, key: Scan.Key)
    requires IsDeployed(files, scanned, t, plan, rows) && NoSeededFallback(t)
    requires key == Scan.Key([], P.NotFound) && key in Scan.KeysOf(files)
    ensures Scan.IsAccepted(key) && SegmentsOf(key) == []
            && Lookup(rows, "404", "/") == Some(AnswerOfPage(files, key, []))
  {
    RootKey(key);
    NotFoundIsUnrivalled(files, t, plan, key);
    PushedPageAnswers(files, scanned, t, plan, rows, key, [], [1]);
  }

  lemma NoFallbackRow(
    files: seq<Scan.PageFile>, scanned: seq<P.RouteEntry>, t: Tables, plan: Plan, rows: seq<RouteRow>)
    requires IsDeployed(files, scanned, t, plan, rows) && NoSeededFallback(t) && !HasNotFoundPage(files)
    ensures Lookup(rows, "404", "/") == None
  {
    var i := LookupIsMostSpecific(rows, "404", "/");
    if Lookup(rows, "404", "/").Some? {
      var k := KeyOfRow(rows[i]);
      assert rows[i] in rows;
      PushProperties.RouteKeysMatchTree(t, plan);
      var key := ClaimedRowIsAPages(files, scanned, t, plan, k);
      var f := NotFoundFile(files, key);
    }
  }

  /** A request that no row matches, and for a GET or a HEAD no asset either, gets the root's
      not-found page with status 404, or the built-in one. */
  lemma MissesAreNotFound(
    files: seq<Scan.PageFile>, scanned: seq<P.RouteEntry>, t: Tables, plan: Plan, rows: seq<RouteRow>,
    table: RouteTable, m: string, path: string, allow: string)
    requires IsServing(files, scanned, t, plan, rows, table) && NoSeededFallback(t)
    requires m == "OPTIONS" ==> allow == ""
    requires forall row :: row in rows ==> !Matching(row, if m == "HEAD" then "GET" else m, Segments(path))
    requires m == "GET" || m == "HEAD" ==> path !in Pushed(t, plan).assets
    ensures var r := Answered(table, Pushed(t, plan), m, path, allow);
            if HasNotFoundPage(files) then
              r.Rendered? && IsNotFoundPage(files, r.route) && r.pathParams == map[] && r.status == 404
            else r == NotFound
  {
    var i := LookupIsMostSpecific(rows, LookupMethod(m), path);
    assert forall j :: 0 <= j < |rows| ==> rows[j] in rows;
    MissIsMissed(table, Pushed(t, plan), m, path, allow);
    FallbackIsTheRootPage(files, scanned, t, plan, rows, table);
  }

  lemma MissIsMissed(table: RouteTable, p: Tables, m: string, path: string, allow: string)
    requires m == "OPTIONS" ==> allow == ""
    requires TableAnswer(table, LookupMethod(m), path) == None && (LookupMethod(m) == "GET" ==> path !in p.assets)
    ensures Answered(table, p, m, path, allow) == Missed(table)
  {
  }

  // ---- Assets ----

  /** An asset is served at its URL, to GET and HEAD, iff no row matches the URL that is not a
      suppressed health route. */
  lemma AssetIsServedIff(
    files: seq<Scan.PageFile>, scanned: seq<P.RouteEntry>, t: Tables, plan: Plan, rows: seq<RouteRow>,
    table: RouteTable, m: string, a: Asset)
    requires IsServing(files, scanned, t, plan, rows, table) && (m == "GET" || m == "HEAD")
    requires a.urlPath in Pushed(t, plan).assets
    ensures var p := Pushed(t, plan);
            Answered(table, p, m, a.urlPath, "") == AssetFound(p.assets[a.urlPath])
            <==> Lookup(rows, "GET", a.urlPath).Some? ==>
                   IsSuppressed(Lookup(rows, "GET", a.urlPath).value.route.handlerName, p.settings)
    ensures (forall row :: row in rows ==> !Matching(row, "GET", Segments(a.urlPath))) ==>
              Answered(table, Pushed(t, plan), m, a.urlPath, "") == AssetFound(Pushed(t, plan).assets[a.urlPath])
  {
    var i := LookupIsMostSpecific(rows, "GET", a.urlPath);
    assert "HEAD" != "OPTIONS" by { assert |"HEAD"| != |"OPTIONS"|; }
  }

  // ---- Settings ----

  /** A configured health flag decides whether the framework's route answers; without one it is what
      the settings said, and only "false" turns the route off. */
  lemma HealthFollowsConfiguration(t: Tables, plan: Plan)
    ensures var server, settings := plan.app.server, Pushed(t, plan).settings;
            (IsSuppressed("pgweb._default_health_handler", settings) <==>
               if server.healthEnabled.Some? then !server.healthEnabled.value
               else "health_enabled" in t.settings && t.settings["health_enabled"] == "false")
            && (IsSuppressed("pgweb._default_readiness_handler", settings) <==>
                  if server.readinessEnabled.Some? then !server.readinessEnabled.value
                  else "readiness_enabled" in t.settings && t.settings["readiness_enabled"] == "false")
  {
    PushProperties.SettingsMatchConfiguration(t.settings, plan.app.server, "health_enabled");
    PushProperties.SettingsMatchConfiguration(t.settings, plan.app.server, "readiness_enabled");
    assert |"true"| != |"false"|;
  }

  /** The tool and the server agree: when the environment is configured, the assets are
      fingerprinted iff the server runs in production afterwards. When it is not, nothing is
      fingerprinted and the server goes by the stored setting, in production if there is none. */
  lemma ToolAndServerAgreeOnProduction(t: Tables, plan: Plan)
    ensures plan.app.server.env.Some? ==>
              (RunsInProduction(Pushed(t, plan).settings) <==> IsProduction(plan.app.server))
              && plan.Assets() == if RunsInProduction(Pushed(t, plan).settings) then FingerprintAll(plan.app.assets)
                                  else plan.app.assets
    ensures plan.app.server.env.None? ==>
              plan.Assets() == plan.app.assets
              && (RunsInProduction(Pushed(t, plan).settings)
                  <==> "env" !in t.settings || t.settings["env"] == "production" || t.settings["env"] == "prod")
  {
    PushProperties.SettingsMatchConfiguration(t.settings, plan.app.server, "env");
  }
}
