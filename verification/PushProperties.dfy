/** What a committed push means for the database. */
module PushProperties {
  import opened Prelude
  import opened Text
  import Rewrite
  import Fingerprint
  import P = Paths
  import opened Push
  import HandlerCalls

  // ---- The database matches the tree ----

  predicate Claims(entries: seq<Entry>, k: RouteKey) { exists e :: e in entries && e.Key() == k }

  /** What is in the routes table: the keys the tree claims, and default rows elsewhere, untouched. */
  lemma RouteKeysMatchTree(t: Tables, plan: Plan)
    ensures var routes := Pushed(t, plan).routes;
            (forall k :: k in routes <==>
               Claims(plan.app.entries, k) || (k in t.routes && StartsWith(t.routes[k].handlerName, "pgweb._default_")))
            && (forall k :: k in routes && !Claims(plan.app.entries, k) ==> routes[k] == t.routes[k])
  {
    var ups := RouteUpserts(plan.app.entries);
    UpsertAllMeaning(t.routes, ups);
    forall k ensures k in KeysOf(ups) <==> Claims(plan.app.entries, k) { ClaimedKeys(plan.app.entries, k); }
  }

  /** A claimed key has the row of the last entry that claims it. */
  lemma ClaimedRoutesMatchTree(t: Tables, plan: Plan, i: nat)
    requires i < |plan.app.entries|
    requires forall j :: i < j < |plan.app.entries| ==> plan.app.entries[j].Key() != plan.app.entries[i].Key()
    ensures var e := plan.app.entries[i];
            e.Key() in Pushed(t, plan).routes && Pushed(t, plan).routes[e.Key()] == e.Value()
  {
    var entries := plan.app.entries;
    var ups := RouteUpserts(entries);
    assert forall j :: i <= j < |ups| ==> ups[j] == (entries[j].Key(), entries[j].Value());
    LastUpsertDecides(t.routes, ups, i);
  }

  lemma ClaimedKeys(entries: seq<Entry>, k: RouteKey)
    ensures k in KeysOf(RouteUpserts(entries)) <==> Claims(entries, k)
  {
    var ups := RouteUpserts(entries);
    if k in KeysOf(ups) {
      var i :| 0 <= i < |ups| && ups[i].0 == k;
      assert entries[i] in entries && entries[i].Key() == k;
    }
    if e :| e in entries && e.Key() == k {
      var i :| 0 <= i < |entries| && entries[i] == e;
      assert ups[i] in ups && ups[i].0 == k;
    }
  }

  /** The stored templates and assets are exactly those of the tree. */
  lemma TemplatesAndAssetsMatchTree(t: Tables, plan: Plan)
    ensures var p := Pushed(t, plan);
            (forall path :: path in p.templates <==>
               exists e :: e in plan.app.entries && e.template.Some? && e.template.value.path == path)
            && (forall url :: url in p.assets <==> exists a :: a in plan.Assets() && a.urlPath == url)
  {
    var entries := plan.app.entries;
    var templateUps, assetUps := TemplateUpserts(entries, plan), AssetUpserts(plan.Assets());
    UpsertAllMeaning(t.templates, templateUps);
    UpsertAllMeaning(t.assets, assetUps);
    forall path ensures path in KeysOf(templateUps)
                        <==> exists e :: e in entries && e.template.Some? && e.template.value.path == path {
      TemplateKeys(entries, plan, path);
    }
    forall url ensures url in KeysOf(assetUps) <==> exists a :: a in plan.Assets() && a.urlPath == url {
      AssetKeys(plan.Assets(), url);
    }
  }

  lemma {:induction false} TemplateKeys(entries: seq<Entry>, plan: Plan, path: string)
    ensures path in KeysOf(TemplateUpserts(entries, plan))
            <==> exists e :: e in entries && e.template.Some? && e.template.value.path == path
  {
    if entries != [] {
      var n := |entries| - 1;
      var e, front := entries[n], entries[..n];
      assert entries == front + [e];
      TemplateKeys(front, plan, path);
      FilterMapAppend((x: Entry) => TemplateUpsert(plan, x), front, e);
      var ups := TemplateUpserts(front, plan);
      if e.template.Some? {
        var up := TemplateUpsert(plan, e).value;
        assert TemplateUpserts(entries, plan) == ups + [up];
        assert KeysOf(ups + [up]) == KeysOf(ups) + {up.0};
      } else {
        assert TemplateUpserts(entries, plan) == ups;
      }
    }
  }

  lemma AssetKeys(assets: seq<Asset>, url: string)
    ensures url in KeysOf(AssetUpserts(assets)) <==> exists a :: a in assets && a.urlPath == url
  {
    var ups := AssetUpserts(assets);
    if url in KeysOf(ups) {
      var i :| 0 <= i < |ups| && ups[i].0 == url;
      assert assets[i] in assets && assets[i].urlPath == url;
    }
    if a :| a in assets && a.urlPath == url {
      var i :| 0 <= i < |assets| && assets[i] == a;
      assert ups[i] in ups && ups[i].0 == url;
    }
  }

  /** A stored template is the rewritten text of the last entry with its path. */
  lemma TemplateContentsMatchTree(t: Tables, plan: Plan, i: nat)
    requires IsLastTemplate(plan.app.entries, i)
    ensures var own, stored := plan.app.entries[i].template.value, Pushed(t, plan).templates;
            own.path in stored && stored[own.path] == plan.ContentOf(own.html)
  {
    var entries := plan.app.entries;
    var ups := TemplateUpserts(entries, plan);
    var k := LastTemplateUpsert(entries, plan, i);
    LastUpsertDecides(t.templates, ups, k);
  }

  lemma LastTemplateUpsert(entries: seq<Entry>, plan: Plan, i: nat) returns (k: nat)
    requires i < |entries| && entries[i].template.Some?
    requires forall j :: i < j < |entries| && entries[j].template.Some? ==>
               entries[j].template.value.path != entries[i].template.value.path
    ensures var ups := TemplateUpserts(entries, plan);
            k < |ups| && Some(ups[k]) == TemplateUpsert(plan, entries[i])
            && forall l :: k < l < |ups| ==> ups[l].0 != ups[k].0
  {
    var at := FilterMapOrigins((e: Entry) => TemplateUpsert(plan, e), entries);
    assert i in at;
    k :| 0 <= k < |at| && at[k] == i;
    forall l | k < l < |at| ensures TemplateUpserts(entries, plan)[l].0 != TemplateUpserts(entries, plan)[k].0 {
      assert at[k] < at[l] < |entries|;
    }
  }

  /** In production that text is the template with every quoted asset URL replaced at once, unless
      fingerprinted URLs are themselves keys. */
  lemma StoredTemplatesAreRewritten(plan: Plan, html: string)
    requires plan.Valid() && Rewrite.QuoteFree(plan.Rewrites()) && Rewrite.NoChains(plan.Rewrites())
    ensures plan.ContentOf(html) == Rewrite.RewriteOnce(html, plan.Rewrites())
  {
    Rewrite.EveryOrderIsSimultaneous(html, plan.order, plan.Rewrites());
  }

  /** A stored asset is the last scanned one with its URL. */
  lemma AssetContentsMatchTree(t: Tables, plan: Plan, i: nat)
    requires i < |plan.Assets()|
    requires forall j :: i < j < |plan.Assets()| ==> plan.Assets()[j].urlPath != plan.Assets()[i].urlPath
    ensures var own, stored := plan.Assets()[i], Pushed(t, plan).assets;
            own.urlPath in stored && stored[own.urlPath] == own.value
  {
    var ups := AssetUpserts(plan.Assets());
    assert forall j :: i <= j < |ups| ==> ups[j] == (plan.Assets()[j].urlPath, plan.Assets()[j].value);
    LastUpsertDecides(t.assets, ups, i);
  }

  /** What the configuration says about a setting, if anything. */
  function Configured(server: ServerSection, key: string): Option<string> {
    match key
    case "env" => server.env
    case "request_timeout" => server.requestTimeout
    case "health_enabled" => FlagOf(server.healthEnabled)
    case "readiness_enabled" => FlagOf(server.readinessEnabled)
    case _ => None
  }

  /** Configured settings take the configured value; all others, unknown ones included, are kept. */
  lemma SettingsMatchConfiguration(settings: map<string, string>, server: ServerSection, key: string)
    ensures var synced := Synced(settings, server);
            match Configured(server, key)
            case Some(v) => key in synced && synced[key] == v
            case None => (key in synced <==> key in settings) && (key in settings ==> synced[key] == settings[key])
    ensures Configured(server, "health_enabled") == SpelledOut(server.healthEnabled)
    ensures Configured(server, "readiness_enabled") == SpelledOut(server.readinessEnabled)
  {
    SettingNamesDiffer();
  }

  /** How a flag is written. */
  function SpelledOut(flag: Option<bool>): Option<string> {
    match flag
    case None => None
    case Some(true) => Some("true")
    case Some(false) => Some("false")
  }

  lemma SettingNamesDiffer()
    ensures "env" != "request_timeout" && "env" != "health_enabled" && "env" != "readiness_enabled"
    ensures "request_timeout" != "health_enabled" && "request_timeout" != "readiness_enabled"
    ensures "health_enabled" != "readiness_enabled"
  {
    var keys := ["env", "request_timeout", "health_enabled", "readiness_enabled"];
    assert |keys[0]| != |keys[1]| && |keys[0]| != |keys[2]| && |keys[0]| != |keys[3]|;
    assert |keys[1]| != |keys[2]| && |keys[1]| != |keys[3]| && |keys[2]| != |keys[3]|;
  }

  /** The ledger gets one row more: the host, and how many files and migrations the push shipped, up
      to the largest 32-bit integer. */
  lemma DeploymentIsRecorded(t: Tables, plan: Plan)
    ensures var files := |plan.app.entries| + |plan.app.assets|;
            Pushed(t, plan).deployments
            == t.deployments + [Deployment(
                 plan.app.host,
                 if files <= 2147483647 then files else 2147483647,
                 if plan.migrationsApplied <= 2147483647 then plan.migrationsApplied else 2147483647)]
  {
  }

  /** The URLs of a push: hashed iff the configured environment is production. */
  lemma AssetUrlsFollowEnvironment(t: Tables, plan: Plan)
    ensures forall url :: url in Pushed(t, plan).assets <==>
              exists a :: a in plan.app.assets
                          && url == if plan.app.server.env in [Some("production"), Some("prod")]
                                    then Fingerprint.FingerprintUrl(a.urlPath, a.fingerprintHex) else a.urlPath
  {
    TemplatesAndAssetsMatchTree(t, plan);
    var scanned, assets := plan.app.assets, plan.Assets();
    assert |assets| == |scanned|;
    forall i | 0 <= i < |assets|
      ensures assets[i] in assets && scanned[i] in scanned
              && assets[i].urlPath == if plan.app.server.env in [Some("production"), Some("prod")]
                                      then Fingerprint.FingerprintUrl(scanned[i].urlPath, scanned[i].fingerprintHex)
                                      else scanned[i].urlPath
    {
    }
  }

  /** What running the handler files leaves defined: what was there, what a file defines, and for an
      entry that has only a template a handler of its name. */
  lemma {:induction false} DefinedFunctions(functions: map<FnId, FnSig>, entries: seq<Entry>, id: FnId)
    ensures id in DefineAll(functions, entries) <==> id in functions || exists e :: e in entries && Defines(e, id)
  {
    if entries != [] {
      var n := |entries| - 1;
      DefinedFunctions(functions, entries[..n], id);
      assert entries == entries[..n] + [entries[n]];
      DefinitionsOf(entries[n], id);
    }
  }

  predicate Defines(e: Entry, id: FnId) {
    match e.sql
    case Some(file) => id in file
    case None => e.template.Some? && "pgweb." + id.name == e.handlerName && id.argTypes == ["json"]
  }

  lemma DefinitionsOf(e: Entry, id: FnId)
    ensures id in Definitions(e) <==> Defines(e, id)
  {
    assert ("pgweb." + id.name)[..6] == "pgweb." && ("pgweb." + id.name)[6..] == id.name;
    if StartsWith(e.handlerName, "pgweb.") { assert e.handlerName == "pgweb." + e.handlerName[6..]; }
  }

  /** The entry's handler is the only function of its name, takes the request, and returns JSON, or
      text where no template needs JSON. */
  ghost predicate HasItsHandler(functions: map<FnId, FnSig>, e: Entry) {
    exists id :: id in functions && "pgweb." + id.name == e.handlerName && id.argTypes == ["json"]
                 && functions[id].argNames == ["req"]
                 && (functions[id].result == "json" || (functions[id].result == "text" && e.template.None?))
                 && forall other :: other in functions && other.name == id.name ==> other == id
  }

  /** A push passes validation iff every entry has its handler once all files have run. */
  lemma ValidatesIff(t: Tables, plan: Plan)
    ensures Validates(t, plan)
            <==> forall e :: e in plan.app.entries ==> HasItsHandler(DefineAll(t.functions, plan.app.entries), e)
  {
    var functions := DefineAll(t.functions, plan.app.entries);
    forall e | e in plan.app.entries ensures HandlerFault(functions, e) == None <==> HasItsHandler(functions, e) {
      AcceptedIff(functions, e);
    }
    FirstFaultIff(functions, plan.app.entries);
  }

  lemma {:induction false} FirstFaultIff(functions: map<FnId, FnSig>, entries: seq<Entry>)
    ensures FirstFault(functions, entries) == None <==> forall e :: e in entries ==> HandlerFault(functions, e) == None
  {
    if entries != [] {
      assert entries == [entries[0]] + entries[1..];
      FirstFaultIff(functions, entries[1..]);
    }
  }

  lemma AcceptedIff(functions: map<FnId, FnSig>, e: Entry)
    ensures HandlerFault(functions, e) == None <==> HasItsHandler(functions, e)
  {
    forall id: FnId ensures ProName("pgweb." + id.name) == Some(id.name) { QualifiedName(id.name); }
    if HandlerFault(functions, e) == None {
      var name := ProName(e.handlerName).value;
      var id := FnId(name, ["json"]);
      assert e.handlerName == "pgweb." + name;
      forall other | other in functions && other.name == name ensures other == id {
        OnlyMember(Overloads(functions, name), other, id);
      }
      assert id in functions;
    }
    if HasItsHandler(functions, e) {
      var id :| id in functions && "pgweb." + id.name == e.handlerName && id.argTypes == ["json"]
                && functions[id].argNames == ["req"]
                && (functions[id].result == "json" || (functions[id].result == "text" && e.template.None?))
                && forall other :: other in functions && other.name == id.name ==> other == id;
      assert Overloads(functions, id.name) == {id};
    }
  }

  lemma QualifiedName(name: string)
    ensures ProName("pgweb." + name) == Some(name)
  {
    assert ("pgweb." + name)[..6] == "pgweb." && ("pgweb." + name)[6..] == name;
  }

  lemma OnlyMember<T>(s: set<T>, x: T, y: T)
    requires |s| <= 1 && x in s && y in s
    ensures x == y
  {
    assert |s - {x}| == |s| - 1;
    assert y == x || y in s - {x};
  }

  /** No stale handler survives, and a function that is not one is never dropped. */
  lemma HandlersMatchTree(t: Tables, plan: Plan)
    ensures var p, expected := Pushed(t, plan), ExpectedHandlers(plan.app.entries);
            (forall id :: id in p.functions && IsReserved(id, p.functions[id]) && IsSafeProName(id.name) ==>
               SCHEMA + id.name in expected)
            && (forall id :: id in t.functions && !(id in DefineAll(map[], plan.app.entries))
                             && !IsStaleHandler(id, t.functions[id], expected) ==>
                  id in p.functions && p.functions[id] == t.functions[id])
  {
    DefineAllIsOneMap(t.functions, plan.app.entries);
  }

  /** Running the handler files amounts to laying one map of definitions over the functions. */
  lemma {:induction false} DefineAllIsOneMap(functions: map<FnId, FnSig>, entries: seq<Entry>)
    ensures DefineAll(functions, entries) == functions + DefineAll(map[], entries)
  {
    if entries != [] { DefineAllIsOneMap(functions, entries[..|entries| - 1]); }
  }

  lemma {:induction false} NoFaultMeansEach(functions: map<FnId, FnSig>, entries: seq<Entry>, e: Entry)
    requires FirstFault(functions, entries) == None && e in entries
    ensures HandlerFault(functions, e) == None
  {
    if e != entries[0] {
      assert entries == [entries[0]] + entries[1..];
      NoFaultMeansEach(functions, entries[1..], e);
    }
  }

  /** What the row needs is in the database: its handler is a function of the right signature and
      its template is stored. */
  predicate IsBacked(p: Tables, row: RouteValue) {
    ProName(row.handlerName).Some?
    && (var id := FnId(ProName(row.handlerName).value, ["json"]);
        id in p.functions && p.functions[id].argNames == ["req"]
        && (p.functions[id].result == "json" || (p.functions[id].result == "text" && row.templatePath.None?)))
    && (row.templatePath.Some? ==> row.templatePath.value in p.templates)
  }

  /** The server can serve the row: it does not refuse the handler's name, and has what it needs. */
  predicate IsServable(p: Tables, row: RouteValue) {
    HandlerCalls.IsSafeIdent(row.handlerName) && IsBacked(p, row)
  }

  lemma ExpectedIsNotDropped(functions: map<FnId, FnSig>, entries: seq<Entry>, e: Entry, id: FnId)
    requires e in entries && id in functions && ProName(e.handlerName) == Some(id.name)
    ensures !IsStaleHandler(id, functions[id], ExpectedHandlers(entries))
  {
    assert SCHEMA + id.name == e.handlerName;
  }

  /** After a committed push every route of the tree has its handler and its template, so the
      server serves it iff it accepts the handler's name: push itself does not look at that. */
  lemma PushedRoutesAreServableIff(t: Tables, plan: Plan, k: RouteKey)
    requires Validates(t, plan) && Claims(plan.app.entries, k)
    ensures var p := Pushed(t, plan);
            k in p.routes && IsBacked(p, p.routes[k])
            && (IsServable(p, p.routes[k]) <==> HandlerCalls.IsSafeIdent(p.routes[k].handlerName))
  {
    var i := LastClaim(plan.app.entries, k);
    ClaimedRoutesMatchTree(t, plan, i);
    BackedEntry(t, plan, plan.app.entries[i]);
  }

  /** The last entry that claims the key. */
  lemma LastClaim(entries: seq<Entry>, k: RouteKey) returns (i: nat)
    requires Claims(entries, k)
    ensures i < |entries| && entries[i].Key() == k && forall j :: i < j < |entries| ==> entries[j].Key() != k
  {
    var ups := RouteUpserts(entries);
    ClaimedKeys(entries, k);
    i := LastOf(ups, k);
    assert forall j :: 0 <= j < |ups| ==> ups[j].0 == entries[j].Key();
  }

  lemma BackedEntry(t: Tables, plan: Plan, e: Entry)
    requires Validates(t, plan) && e in plan.app.entries
    ensures IsBacked(Pushed(t, plan), e.Value())
  {
    var functions := DefineAll(t.functions, plan.app.entries);
    NoFaultMeansEach(functions, plan.app.entries, e);
    AcceptedHandlerExists(functions, e);
    ExpectedIsNotDropped(functions, plan.app.entries, e, FnId(ProName(e.handlerName).value, ["json"]));
    TemplatesAndAssetsMatchTree(t, plan);
  }

  /** The entry of an `index.sql` that defines the handler its directory asks for. */
  function IndexPage(segs: seq<P.Segment>): Entry {
    var name := P.BuildHandlerName(segs, P.StemName(P.Index));
    Entry("GET", P.BuildRoute(segs), name, None,
          Some(map[FnId(name[|SCHEMA|..], ["json"]) := FnSig(["req"], "json")]))
  }

  /** No function of that name is there yet. */
  predicate NoOverload(t: Tables, handlerName: string) {
    ProName(handlerName).Some? ==> Overloads(t.functions, ProName(handlerName).value) == {}
  }

  lemma HandlerNamesAreQualified(segs: seq<P.Segment>, stem: string)
    ensures ProName(P.BuildHandlerName(segs, stem)).Some?
  {
    P.HandlerNameIsJoin(segs, stem);
    assert "pgweb.pages__"[..6] == SCHEMA;
    var name := P.BuildHandlerName(segs, stem);
    assert name[..6] == "pgweb.pages__"[..6];
  }

  /** A tree of one page is pushed whatever its directory is called, and the server refuses to call
      it iff it refuses the name; "about-us" is such a directory. */
  lemma PushedPageMayBeRefused(t: Tables, plan: Plan, segs: seq<P.Segment>)
    requires plan.app.entries == [IndexPage(segs)]
    requires NoOverload(t, IndexPage(segs).handlerName)
    ensures var k, p := IndexPage(segs).Key(), Pushed(t, plan);
            Validates(t, plan) && k in p.routes
            && (IsServable(p, p.routes[k]) <==> HandlerCalls.IsSafeIdent(IndexPage(segs).handlerName))
    ensures segs == [P.Static("about-us")] ==>
              !IsServable(Pushed(t, plan), Pushed(t, plan).routes[IndexPage(segs).Key()])
  {
    IndexPageValidates(t, plan, segs);
    assert IndexPage(segs) in plan.app.entries;
    assert Claims(plan.app.entries, IndexPage(segs).Key());
    PushedRoutesAreServableIff(t, plan, IndexPage(segs).Key());
    ClaimedRoutesMatchTree(t, plan, 0);
    HandlerCalls.HyphenIsRefused(P.Index);
  }

  lemma IndexPageValidates(t: Tables, plan: Plan, segs: seq<P.Segment>)
    requires plan.app.entries == [IndexPage(segs)]
    requires NoOverload(t, IndexPage(segs).handlerName)
    ensures Validates(t, plan)
  {
    HandlerNamesAreQualified(segs, P.StemName(P.Index));
    var e := IndexPage(segs);
    var name := ProName(e.handlerName).value;
    var functions := DefineAll(t.functions, plan.app.entries);
    assert plan.app.entries[..0] == [] && DefineAll(t.functions, []) == t.functions && plan.app.entries[0] == e;
    assert functions == t.functions + e.sql.value;
    forall id | id in t.functions ensures id.name != name { assert id !in Overloads(t.functions, name); }
    assert Overloads(functions, name) == {FnId(name, ["json"])};
    assert HandlerFault(functions, e) == None;
  }

  // ---- Pushing twice ----

  lemma UpsertsDecide<K, V>(a: map<K, V>, b: map<K, V>, ups: seq<(K, V)>, k: K)
    requires k in KeysOf(ups)
    ensures k in UpsertAll(a, ups) && k in UpsertAll(b, ups) && UpsertAll(a, ups)[k] == UpsertAll(b, ups)[k]
  {
    var i := LastOf(ups, k);
    LastUpsertDecides(a, ups, i);
    LastUpsertDecides(b, ups, i);
  }

  lemma RoutesSettle(routes: map<RouteKey, RouteValue>, ups: seq<(RouteKey, RouteValue)>)
    ensures var once := ReconciledRoutes(UpsertAll(routes, ups), KeysOf(ups));
            ReconciledRoutes(UpsertAll(once, ups), KeysOf(ups)) == once
  {
    var once := ReconciledRoutes(UpsertAll(routes, ups), KeysOf(ups));
    UpsertAllMeaning(routes, ups);
    UpsertAllMeaning(once, ups);
    forall k | k in KeysOf(ups) ensures UpsertAll(once, ups)[k] == UpsertAll(routes, ups)[k] {
      UpsertsDecide(once, routes, ups, k);
    }
  }

  lemma RowsSettle<V>(rows: map<string, V>, ups: seq<(string, V)>)
    ensures var once := Reconciled(UpsertAll(rows, ups), KeysOf(ups));
            Reconciled(UpsertAll(once, ups), KeysOf(ups)) == once
  {
    var once := Reconciled(UpsertAll(rows, ups), KeysOf(ups));
    UpsertAllMeaning(rows, ups);
    UpsertAllMeaning(once, ups);
    forall k | k in KeysOf(ups) ensures UpsertAll(once, ups)[k] == UpsertAll(rows, ups)[k] {
      UpsertsDecide(once, rows, ups, k);
    }
  }

  lemma FunctionsSettle(functions: map<FnId, FnSig>, entries: seq<Entry>)
    ensures var expected := ExpectedHandlers(entries);
            var once := ReconciledFunctions(DefineAll(functions, entries), expected);
            ReconciledFunctions(DefineAll(once, entries), expected) == once
  {
    DefineAllIsOneMap(functions, entries);
    DefineAllIsOneMap(ReconciledFunctions(DefineAll(functions, entries), ExpectedHandlers(entries)), entries);
  }

  lemma OverloadsSettle(functions: map<FnId, FnSig>, entries: seq<Entry>, e: Entry)
    requires e in entries
    ensures var once := ReconciledFunctions(DefineAll(functions, entries), ExpectedHandlers(entries));
            HandlerFault(DefineAll(once, entries), e) == HandlerFault(DefineAll(functions, entries), e)
  {
    var first := DefineAll(functions, entries);
    var once := ReconciledFunctions(first, ExpectedHandlers(entries));
    var second := DefineAll(once, entries);
    DefineAllIsOneMap(functions, entries);
    DefineAllIsOneMap(once, entries);
    if ProName(e.handlerName).Some? {
      var name := ProName(e.handlerName).value;
      forall id | id in first && id.name == name ensures id in second && second[id] == first[id] {
        ExpectedIsNotDropped(first, entries, e, id);
      }
      assert Overloads(first, name) == Overloads(second, name);
    }
  }

  lemma {:induction false} FaultsSettle(f: map<FnId, FnSig>, g: map<FnId, FnSig>, entries: seq<Entry>)
    requires forall e :: e in entries ==> HandlerFault(f, e) == HandlerFault(g, e)
    ensures FirstFault(f, entries) == FirstFault(g, entries)
  {
    if entries != [] {
      assert entries == [entries[0]] + entries[1..];
      FaultsSettle(f, g, entries[1..]);
    }
  }

  lemma SettingsSettle(settings: map<string, string>, server: ServerSection)
    ensures Synced(Synced(settings, server), server) == Synced(settings, server)
  {
    SettingNamesDiffer();
  }

  /** Entry `i` is the last one with its template path: its text is the one stored. */
  predicate IsLastTemplate(entries: seq<Entry>, i: nat) {
    i < |entries| && entries[i].template.Some?
    && forall j :: i < j < |entries| && entries[j].template.Some? ==>
         entries[j].template.value.path != entries[i].template.value.path
  }

  lemma LastTemplateOf(entries: seq<Entry>, e: Entry) returns (i: nat)
    requires e in entries && e.template.Some?
    ensures IsLastTemplate(entries, i) && entries[i].template.value.path == e.template.value.path
  {
    var k :| 0 <= k < |entries| && entries[k] == e;
    i := LaterTemplate(entries, k);
  }

  lemma LaterTemplate(entries: seq<Entry>, k: nat) returns (i: nat)
    requires k < |entries| && entries[k].template.Some?
    ensures IsLastTemplate(entries, i) && entries[i].template.value.path == entries[k].template.value.path
    decreases |entries| - k
  {
    if j :| k < j < |entries| && entries[j].template.Some?
            && entries[j].template.value.path == entries[k].template.value.path {
      i := LaterTemplate(entries, j);
    } else {
      i := k;
    }
  }

  /** The two runs store the same text wherever a text is stored. */
  predicate StoreAlike(plan: Plan, plan': Plan) {
    forall i :: 0 <= i < |plan.app.entries| && IsLastTemplate(plan.app.entries, i) ==>
      plan.ContentOf(plan.app.entries[i].template.value.html)
      == plan'.ContentOf(plan.app.entries[i].template.value.html)
  }

  /** The templates table of a tree: a row for each template path, with the last entry's text. */
  ghost predicate HoldsTemplates(rows: map<string, string>, plan: Plan) {
    (forall path :: path in rows <==>
       exists i :: 0 <= i < |plan.app.entries| && IsLastTemplate(plan.app.entries, i)
                   && plan.app.entries[i].template.value.path == path)
    && forall i :: 0 <= i < |plan.app.entries| && IsLastTemplate(plan.app.entries, i) ==>
         HoldsTemplate(rows, plan, plan.app.entries[i].template.value)
  }

  predicate HoldsTemplate(rows: map<string, string>, plan: Plan, own: Template) {
    own.path in rows && rows[own.path] == plan.ContentOf(own.html)
  }

  lemma PushedHoldsTemplates(t: Tables, plan: Plan)
    ensures HoldsTemplates(Pushed(t, plan).templates, plan)
  {
    var entries, rows := plan.app.entries, Pushed(t, plan).templates;
    TemplatesAndAssetsMatchTree(t, plan);
    forall i | 0 <= i < |entries| && IsLastTemplate(entries, i)
      ensures HoldsTemplate(rows, plan, entries[i].template.value)
    {
      TemplateContentsMatchTree(t, plan, i);
    }
    forall path | path in rows
      ensures exists i :: 0 <= i < |entries| && IsLastTemplate(entries, i) && entries[i].template.value.path == path
    {
      var e :| e in entries && e.template.Some? && e.template.value.path == path;
      var i := LastTemplateOf(entries, e);
    }
  }

  lemma SameRowsIffStoreAlike(one: map<string, string>, two: map<string, string>, plan: Plan, plan': Plan)
    requires plan'.app == plan.app && HoldsTemplates(one, plan) && HoldsTemplates(two, plan')
    ensures two == one <==> StoreAlike(plan, plan')
  {
    if two == one { SameRowsStoreAlike(one, plan, plan'); }
    if StoreAlike(plan, plan') {
      forall path | path in one
        ensures path in two && two[path] == one[path]
      {
        AlikeInOneRow(one, two, plan, plan', path);
      }
      forall path | path in two ensures path in one { AlikeInOneRow(two, one, plan', plan, path); }
    }
  }

  lemma SameRowsStoreAlike(rows: map<string, string>, plan: Plan, plan': Plan)
    requires plan'.app == plan.app && HoldsTemplates(rows, plan) && HoldsTemplates(rows, plan')
    ensures StoreAlike(plan, plan')
  {
    var entries := plan.app.entries;
    forall i | 0 <= i < |entries| && IsLastTemplate(entries, i)
      ensures plan.ContentOf(entries[i].template.value.html) == plan'.ContentOf(entries[i].template.value.html)
    {
      assert HoldsTemplate(rows, plan, entries[i].template.value)
             && HoldsTemplate(rows, plan', entries[i].template.value);
    }
  }

  lemma AlikeInOneRow(one: map<string, string>, two: map<string, string>, plan: Plan, plan': Plan, path: string)
    requires plan'.app == plan.app && HoldsTemplates(one, plan) && HoldsTemplates(two, plan') && path in one
    ensures path in two && (StoreAlike(plan, plan') ==> two[path] == one[path])
  {
    var entries := plan.app.entries;
    var i :| 0 <= i < |entries| && IsLastTemplate(entries, i) && entries[i].template.value.path == path;
    assert HoldsTemplate(one, plan, entries[i].template.value) && HoldsTemplate(two, plan', entries[i].template.value);
  }

  /** Pushing the same tree again is accepted, and changes nothing but the deployments ledger iff
      the two runs store the same texts. */
  lemma StoreAlikeIffOnlyLedger(t: Tables, plan: Plan, plan': Plan)
    requires Validates(t, plan) && plan'.app == plan.app
    ensures var once := Pushed(t, plan);
            Validates(once, plan')
            && (Pushed(once, plan') == once.(deployments := once.deployments + [DeploymentOf(plan')])
                <==> StoreAlike(plan, plan'))
  {
    var entries, once := plan.app.entries, Pushed(t, plan);
    PushedHoldsTemplates(t, plan);
    PushedHoldsTemplates(once, plan');
    SameRowsIffStoreAlike(once.templates, Pushed(once, plan').templates, plan, plan');
    OtherTablesSettle(t, plan, plan');
    forall e | e in entries
      ensures HandlerFault(DefineAll(t.functions, entries), e) == HandlerFault(DefineAll(once.functions, entries), e)
    {
      OverloadsSettle(t.functions, entries, e);
    }
    FaultsSettle(DefineAll(t.functions, entries), DefineAll(once.functions, entries), entries);
  }

  lemma OtherTablesSettle(t: Tables, plan: Plan, plan': Plan)
    requires plan'.app == plan.app
    ensures var once := Pushed(t, plan);
            var twice := Pushed(once, plan');
            twice == once.(templates := twice.templates, deployments := once.deployments + [DeploymentOf(plan')])
  {
    RoutesSettle(t.routes, RouteUpserts(plan.app.entries));
    RowsSettle(t.assets, AssetUpserts(plan.Assets()));
    FunctionsSettle(t.functions, plan.app.entries);
    SettingsSettle(t.settings, plan.app.server);
  }

  /** Two runs over one tree store templates alike, whatever orders their hash maps have, when no
      fingerprinted URL is itself a key; development pushes have no keys at all. */
  lemma RunsStoreTemplatesAlike(plan: Plan, plan': Plan)
    requires plan'.app == plan.app && plan.Valid() && plan'.Valid()
    requires Rewrite.QuoteFree(plan.Rewrites()) && Rewrite.NoChains(plan.Rewrites())
    ensures StoreAlike(plan, plan') && forall html :: plan.ContentOf(html) == plan'.ContentOf(html)
  {
    forall html ensures plan.ContentOf(html) == plan'.ContentOf(html) {
      StoredTemplatesAreRewritten(plan, html);
      StoredTemplatesAreRewritten(plan', html);
    }
  }
}
