/** What becomes of a request inside its transaction: the route, the asset or the not-found page that
    answers it. The reading side of the settings push writes is here too. */
module Serve {
  import opened Prelude
  import opened Router
  import opened Push

  /** `Rendered` is a route called with the default status it is given; `Allowed` the answer to
      OPTIONS; `NotFound` the built-in page. */
  datatype Served =
    | Rendered(route: RouteMeta, pathParams: map<string, string>, status: nat)
    | AssetFound(asset: AssetValue)
    | Allowed(methods: string)
    | NotFound

  type Settings = map<string, string>

  /** The framework's own health routes are misses when their flag is "false". */
  predicate IsSuppressed(handlerName: string, settings: Settings) {
    match handlerName
    case "pgweb._default_health_handler" => "health_enabled" in settings && settings["health_enabled"] == "false"
    case "pgweb._default_readiness_handler" =>
      "readiness_enabled" in settings && settings["readiness_enabled"] == "false"
    case _ => false
  }

  /** `current_env`: a database without the setting counts as production. */
  predicate RunsInProduction(settings: Settings) {
    "env" in settings ==> settings["env"] == "production" || settings["env"] == "prod"
  }

  /** The route a request is looked up with: a HEAD is looked up as a GET. */
  function LookupMethod(m: string): string { if m == "HEAD" then "GET" else m }

  /** The route that answers, if it is not suppressed. */
  function RouteFor(table: RouteTable, settings: Settings, m: string, path: string): Option<MatchedRoute> {
    match TableAnswer(table, LookupMethod(m), path)
    case Some(hit) => if IsSuppressed(hit.route.handlerName, settings) then None else Some(hit)
    case None => None
  }

  /** The root's not-found page. */
  function FallbackRoute(table: RouteTable): Option<RouteMeta> {
    match TableAnswer(table, "404", "/")
    case Some(hit) => Some(hit.route)
    case None => None
  }

  function Missed(table: RouteTable): Served {
    match FallbackRoute(table)
    case Some(route) => Rendered(route, map[], 404)
    case None => NotFound
  }

  function Dispatch(table: RouteTable, assets: map<string, AssetValue>, settings: Settings, m: string, path: string,
                    allow: string): Served
  {
    if m == "OPTIONS" && allow != "" then Allowed(allow)
    else
      match RouteFor(table, settings, m, path)
      case Some(hit) => Rendered(hit.route, hit.pathParams, 200)
      case None => if LookupMethod(m) == "GET" && path in assets then AssetFound(assets[path]) else Missed(table)
  }

  /** `serve_in_tx`, given the methods that OPTIONS would list for the path, "" if there are none:
      pages come before assets, and assets before the not-found page. */
  method ServeRequest(table: RouteTable, assets: map<string, AssetValue>, settings: Settings, m: string, path: string,
                      allow: string) returns (r: Served)
    ensures r == Dispatch(table, assets, settings, m, path, allow)
    ensures r.Allowed? <==> m == "OPTIONS" && allow != ""
    ensures r.Allowed? ==> r.methods == allow
  {
    if m == "OPTIONS" && allow != "" {
      return Allowed(allow);
    }
    var lookupMethod := if m == "HEAD" then "GET" else m;
    var hit := LookupRoute(table, lookupMethod, path);
    if hit.Some? && !IsSuppressed(hit.value.route.handlerName, settings) {
      return Rendered(hit.value.route, hit.value.pathParams, 200);
    }
    if lookupMethod == "GET" && path in assets {
      return AssetFound(assets[path]);
    }
    var fallback := LookupFallback(table);
    match fallback
    case Some(route) => return Rendered(route, map[], 404);
    case None => return NotFound;
  }
}
