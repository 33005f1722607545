/** One attempt of `pg-web push`: a transaction that upserts what the file tree says, validates the
    handlers, reconciles away what the tree no longer has, and commits or rolls back. */
module Push {
  import opened Prelude
  import opened Text
  import Rewrite
  import Fingerprint

  // ---- The database, as far as push touches it ----

  datatype RouteKey = RouteKey(method_: string, path: string)

  datatype RouteValue = RouteValue(handlerName: string, templatePath: Option<string>)

  /** A function of schema pgweb is identified by its name and argument types. */
  datatype FnId = FnId(name: string, argTypes: seq<string>)

  datatype FnSig = FnSig(argNames: seq<string>, result: string)

  datatype AssetValue = AssetValue(content: string, contentType: string, etag: string)

  datatype Deployment = Deployment(fromHost: Option<string>, fileCount: nat, migrationsApplied: nat)

  datatype Tables = Tables(
    routes: map<RouteKey, RouteValue>,
    templates: map<string, string>,
    functions: map<FnId, FnSig>,
    assets: map<string, AssetValue>,
    settings: map<string, string>,
    deployments: seq<Deployment>)

  // ---- What is pushed ----

  datatype Template = Template(path: string, html: string)

  /** One route of the tree. A handler file is the functions it creates or replaces. */
  datatype Entry = Entry(
    method_: string, route: string, handlerName: string, template: Option<Template>, sql: Option<map<FnId, FnSig>>)
  {
    function Key(): RouteKey { RouteKey(method_, route) }

    function Value(): RouteValue {
      RouteValue(handlerName, if template.Some? then Some(template.value.path) else None)
    }
  }

  datatype Asset = Asset(urlPath: string, value: AssetValue, fingerprintHex: string)

  /** The `[server]` section of pgweb.toml. */
  datatype ServerSection = ServerSection(
    env: Option<string>, requestTimeout: Option<string>, healthEnabled: Option<bool>, readinessEnabled: Option<bool>)

  datatype App = App(entries: seq<Entry>, assets: seq<Asset>, server: ServerSection, host: Option<string>)

  // ---- Preparing: production pushes fingerprint assets ----

  predicate IsProduction(server: ServerSection) {
    server.env == Some("production") || server.env == Some("prod")
  }

  function Fingerprinted(a: Asset): Asset {
    a.(urlPath := Fingerprint.FingerprintUrl(a.urlPath, a.fingerprintHex))
  }

  function FingerprintAll(assets: seq<Asset>): seq<Asset> { Map(Fingerprinted, assets) }

  function Rewriting(a: Asset): (string, string) { (a.urlPath, Fingerprinted(a).urlPath) }

  function RewritesOf(assets: seq<Asset>): map<string, string> { UpsertAll(map[], Map(Rewriting, assets)) }

  /** The production branch: the rewrite map, and the assets under their new URLs. */
  method FingerprintAssets(scanned: seq<Asset>, server: ServerSection)
    returns (assets: seq<Asset>, rewrites: map<string, string>)
    ensures assets == if IsProduction(server) then FingerprintAll(scanned) else scanned
    ensures rewrites == if IsProduction(server) then RewritesOf(scanned) else map[]
  {
    assets := scanned;
    rewrites := map[];
    if IsProduction(server) {
      for i := 0 to |assets|
        invariant |assets| == |scanned|
        invariant assets == Map(Fingerprinted, scanned[..i]) + scanned[i..]
        invariant rewrites == UpsertAll(map[], Map(Rewriting, scanned[..i]))
      {
        var a := assets[i];
        FingerprintNext(scanned, i);
        var hashed := Fingerprinted(a);
        rewrites := rewrites[a.urlPath := hashed.urlPath];
        assets := assets[i := hashed];
      }
      assert scanned[..|scanned|] == scanned;
    }
  }

  lemma FingerprintNext(scanned: seq<Asset>, i: nat)
    requires i < |scanned|
    ensures (Map(Fingerprinted, scanned[..i]) + scanned[i..])[i] == scanned[i]
    ensures (Map(Fingerprinted, scanned[..i]) + scanned[i..])[i := Fingerprinted(scanned[i])]
            == Map(Fingerprinted, scanned[..i + 1]) + scanned[i + 1..]
    ensures UpsertAll(map[], Map(Rewriting, scanned[..i + 1]))
            == UpsertAll(map[], Map(Rewriting, scanned[..i]))[scanned[i].urlPath := Fingerprinted(scanned[i]).urlPath]
  {
    MapInPlace(Fingerprinted, scanned, i);
    MapNext(Rewriting, scanned, i);
    UpsertNext(map[], Map(Rewriting, scanned[..i]), Rewriting(scanned[i]));
  }

  /** What one run of the command sends. The hash map of rewrites has some iteration order, the
      same for every template and every attempt. */
  datatype Plan = Plan(app: App, order: seq<(string, string)>, migrationsApplied: nat)
  {
    function Rewrites(): map<string, string> {
      if IsProduction(app.server) then RewritesOf(app.assets) else map[]
    }

    function Assets(): seq<Asset> {
      if IsProduction(app.server) then FingerprintAll(app.assets) else app.assets
    }

    predicate Valid() { Rewrite.IsOrderOf(order, Rewrites()) }

    /** A template's text as it is stored. */
    function ContentOf(html: string): string {
      if order == [] then html else Rewrite.Passes(html, order)
    }
  }

  // ---- Upserts ----

  function UpsertAll<K, V>(old_: map<K, V>, ups: seq<(K, V)>): map<K, V> {
    if ups == [] then old_
    else
      var n := |ups| - 1;
      UpsertAll(old_, ups[..n])[ups[n].0 := ups[n].1]
  }

  lemma UpsertNext<K, V>(old_: map<K, V>, ups: seq<(K, V)>, up: (K, V))
    ensures UpsertAll(old_, ups + [up]) == UpsertAll(old_, ups)[up.0 := up.1]
  {
    assert (ups + [up])[..|ups|] == ups;
  }

  function KeysOf<K, V(==)>(ups: seq<(K, V)>): set<K> { set u | u in ups :: u.0 }

  /** The keys upserted are there, and the other keys keep what they had. */
  lemma {:induction false} UpsertAllMeaning<K, V>(old_: map<K, V>, ups: seq<(K, V)>)
    ensures var m := UpsertAll(old_, ups);
            m.Keys == old_.Keys + KeysOf(ups)
            && (forall k :: k in old_ && k !in KeysOf(ups) ==> m[k] == old_[k])
  {
    if ups != [] {
      var n := |ups| - 1;
      UpsertAllMeaning(old_, ups[..n]);
      assert ups == ups[..n] + [ups[n]];
      assert KeysOf(ups) == KeysOf(ups[..n]) + {ups[n].0};
    }
  }

  /** The last upsert of a key decides its value. */
  lemma {:induction false} LastUpsertDecides<K, V>(old_: map<K, V>, ups: seq<(K, V)>, i: nat)
    requires i < |ups| && forall j :: i < j < |ups| ==> ups[j].0 != ups[i].0
    ensures var m := UpsertAll(old_, ups); ups[i].0 in KeysOf(ups) && ups[i].0 in m && m[ups[i].0] == ups[i].1
  {
    var n := |ups| - 1;
    assert ups[i] in ups;
    if i < n { LastUpsertDecides(old_, ups[..n], i); }
  }

  lemma {:induction false} LastOf<K, V>(ups: seq<(K, V)>, k: K) returns (i: nat)
    requires k in KeysOf(ups)
    ensures i < |ups| && ups[i].0 == k && forall j :: i < j < |ups| ==> ups[j].0 != k
  {
    var n := |ups| - 1;
    if ups[n].0 == k {
      i := n;
    } else {
      assert ups == ups[..n] + [ups[n]];
      i := LastOf(ups[..n], k);
      assert forall j :: i < j < n ==> ups[..n][j] == ups[j];
    }
  }

  function RouteUpserts(entries: seq<Entry>): seq<(RouteKey, RouteValue)> {
    Map((e: Entry) => (e.Key(), e.Value()), entries)
  }

  function TemplateUpsert(plan: Plan, e: Entry): Option<(string, string)> {
    if e.template.Some? then Some((e.template.value.path, plan.ContentOf(e.template.value.html))) else None
  }

  function TemplateUpserts(entries: seq<Entry>, plan: Plan): seq<(string, string)> {
    FilterMap((e: Entry) => TemplateUpsert(plan, e), entries)
  }

  function AssetUpserts(assets: seq<Asset>): seq<(string, AssetValue)> {
    Map((a: Asset) => (a.urlPath, a.value), assets)
  }

  const SCHEMA := "pgweb."

  function ProName(handlerName: string): Option<string> {
    if StartsWith(handlerName, SCHEMA) then Some(handlerName[|SCHEMA|..]) else None
  }

  /** What a synthesised handler defines: the name is interpolated into the statement. */
  function Synthesized(handlerName: string): map<FnId, FnSig> {
    match ProName(handlerName)
    case Some(name) => map[FnId(name, ["json"]) := FnSig(["req"], "json")]
    case None => map[]
  }

  function Definitions(e: Entry): map<FnId, FnSig> {
    if e.sql.Some? then e.sql.value else if e.template.Some? then Synthesized(e.handlerName) else map[]
  }

  function DefineAll(functions: map<FnId, FnSig>, entries: seq<Entry>): map<FnId, FnSig> {
    if entries == [] then functions
    else
      var n := |entries| - 1;
      DefineAll(functions, entries[..n]) + Definitions(entries[n])
  }

  // ---- Validation ----

  datatype DbError = Conflict | OtherDbError

  datatype PushError =
    | Db(e: DbError)
    | NotInSchema(handler: string)
    | HandlerNotFound(handler: string)
    | SeveralRows(handler: string)
    | BadArguments(handler: string)
    | BadReturn(handler: string)

  function Overloads(functions: map<FnId, FnSig>, name: string): set<FnId> {
    set id | id in functions && id.name == name
  }

  predicate TakesReqJson(id: FnId, sig: FnSig) { id.argTypes == ["json"] && sig.argNames == ["req"] }

  /** Why an entry's handler is refused, if it is. */
  function HandlerFault(functions: map<FnId, FnSig>, e: Entry): Option<PushError> {
    match ProName(e.handlerName)
    case None => Some(NotInSchema(e.handlerName))
    case Some(name) =>
      var rows := Overloads(functions, name);
      if rows == {} then Some(HandlerNotFound(e.handlerName))
      else if |rows| > 1 then Some(SeveralRows(e.handlerName))
      else
        var id := FnId(name, ["json"]);
        if id !in rows || !TakesReqJson(id, functions[id]) then Some(BadArguments(e.handlerName))
        else if functions[id].result == "json" || (functions[id].result == "text" && e.template.None?) then None
        else Some(BadReturn(e.handlerName))
  }

  /** The single function an accepted entry calls. */
  lemma AcceptedHandlerExists(functions: map<FnId, FnSig>, e: Entry)
    requires HandlerFault(functions, e) == None
    ensures ProName(e.handlerName).Some?
    ensures var id := FnId(ProName(e.handlerName).value, ["json"]);
            id in functions && functions[id].argNames == ["req"]
            && (functions[id].result == "json" || (functions[id].result == "text" && e.template.None?))
  {
  }

  function FirstFault(functions: map<FnId, FnSig>, entries: seq<Entry>): Option<PushError> {
    if entries == [] then None
    else if HandlerFault(functions, entries[0]).Some? then HandlerFault(functions, entries[0])
    else FirstFault(functions, entries[1..])
  }

  // ---- Reconciliation ----

  predicate IsDefaultRoute(v: RouteValue) { StartsWith(v.handlerName, "pgweb._default_") }

  function ReconciledRoutes(routes: map<RouteKey, RouteValue>, expected: set<RouteKey>): map<RouteKey, RouteValue> {
    map k | k in routes && (k in expected || IsDefaultRoute(routes[k])) :: routes[k]
  }

  function Reconciled<V>(rows: map<string, V>, expected: set<string>): map<string, V> {
    map k | k in rows && k in expected :: rows[k]
  }

  predicate IsSafeProName(s: string) {
    s != "" && forall i :: 0 <= i < |s| ==> IsAsciiAlphanumeric(s[i]) || s[i] == '_' || s[i] == '$'
  }

  /** The namespace reserved for handlers that push manages. */
  predicate IsReserved(id: FnId, sig: FnSig) {
    StartsWith(id.name, "pages__") && TakesReqJson(id, sig) && (sig.result == "json" || sig.result == "text")
  }

  predicate IsStaleHandler(id: FnId, sig: FnSig, expected: set<string>) {
    IsReserved(id, sig) && IsSafeProName(id.name) && SCHEMA + id.name !in expected
  }

  function ReconciledFunctions(functions: map<FnId, FnSig>, expected: set<string>): map<FnId, FnSig> {
    map id | id in functions && !IsStaleHandler(id, functions[id], expected) :: functions[id]
  }

  function ExpectedHandlers(entries: seq<Entry>): set<string> { set e | e in entries :: e.handlerName }

  // ---- Settings ----

  function Flag(b: bool): string { if b then "true" else "false" }

  function FlagOf(b: Option<bool>): Option<string> { if b.Some? then Some(Flag(b.value)) else None }

  function Set(settings: map<string, string>, key: string, value: Option<string>): map<string, string> {
    if value.Some? then settings[key := value.value] else settings
  }

  function Synced(settings: map<string, string>, server: ServerSection): map<string, string> {
    var s1 := Set(settings, "env", server.env);
    var s2 := Set(s1, "request_timeout", server.requestTimeout);
    var s3 := Set(s2, "health_enabled", FlagOf(server.healthEnabled));
    Set(s3, "readiness_enabled", FlagOf(server.readinessEnabled))
  }

  // ---- The whole attempt ----

  /** `try_into().unwrap_or(i32::MAX)`. */
  function ClampI32(n: nat): nat { if n <= 0x7FFF_FFFF then n else 0x7FFF_FFFF }

  function DeploymentOf(plan: Plan): Deployment {
    Deployment(plan.app.host, ClampI32(|plan.app.entries| + |plan.app.assets|), ClampI32(plan.migrationsApplied))
  }

  /** Whether the attempt passes validation: on the functions as they are after all handler files
      have run. */
  predicate Validates(t: Tables, plan: Plan) {
    FirstFault(DefineAll(t.functions, plan.app.entries), plan.app.entries) == None
  }

  function Pushed(t: Tables, plan: Plan): Tables {
    var entries := plan.app.entries;
    var routeUps, templateUps := RouteUpserts(entries), TemplateUpserts(entries, plan);
    var assetUps := AssetUpserts(plan.Assets());
    Tables(
      ReconciledRoutes(UpsertAll(t.routes, routeUps), KeysOf(routeUps)),
      Reconciled(UpsertAll(t.templates, templateUps), KeysOf(templateUps)),
      ReconciledFunctions(DefineAll(t.functions, entries), ExpectedHandlers(entries)),
      Reconciled(UpsertAll(t.assets, assetUps), KeysOf(assetUps)),
      Synced(t.settings, plan.app.server),
      t.deployments + [DeploymentOf(plan)])
  }
}
