/** What a push leaves of the ones before it: pages removed from the tree are gone with their
    handlers, and the rows and functions that stay are those push does not manage. */
module Redeployment {
  import opened Prelude
  import opened Text
  import P = Paths
  import Scan = PageScan
  import opened Push
  import Pushing = PushProperties
  import HandlerCalls
  import opened EndToEnd

  lemma PageHandlersArePrefixed(segs: seq<P.Segment>, stem: string)
    ensures "pgweb.pages__" <= P.BuildHandlerName(segs, stem)
  {
    P.HandlerNameIsJoin(segs, stem);
  }

  /** A name push gives to the handler of some page. */
  ghost predicate IsPageHandler(name: string) { exists segs, stem :: name == P.BuildHandlerName(segs, stem) }

  lemma PageHandlerIsNotSeeded(name: string)
    requires IsPageHandler(name)
    ensures !StartsWith(name, "pgweb._default_")
  {
    var segs, stem :| name == P.BuildHandlerName(segs, stem);
    PageHandlersArePrefixed(segs, stem);
    SeventhDiffers(name);
  }

  lemma SeventhDiffers(name: string)
    requires "pgweb.pages__" <= name
    ensures !StartsWith(name, "pgweb._default_")
  {
    assert name[6] == "pgweb.pages__"[6] == 'p';
    if |name| >= 15 { assert name[..15][6] == 'p' && "pgweb._default_"[6] == '_'; }
  }

  /** After a push no route outside the tree calls a page's handler. */
  lemma NoForeignPageHandler(t: Tables, plan: Plan, k: RouteKey)
    requires k in Pushed(t, plan).routes && !Pushing.Claims(plan.app.entries, k)
    ensures !IsPageHandler(Pushed(t, plan).routes[k].handlerName)
  {
    Pushing.RouteKeysMatchTree(t, plan);
    if IsPageHandler(t.routes[k].handlerName) { PageHandlerIsNotSeeded(t.routes[k].handlerName); }
  }

  /** The key of some page of the tree. */
  ghost predicate IsPageKey(files: seq<Scan.PageFile>, k: RouteKey) {
    exists key :: key in Scan.KeysOf(files) && Scan.IsAccepted(key) && KeyOfPage(key) == k
  }

  lemma ClaimedIffPageKey(files: seq<Scan.PageFile>, scanned: seq<P.RouteEntry>, entries: seq<Entry>, k: RouteKey)
    requires IsTree(files, scanned, entries)
    ensures Pushing.Claims(entries, k) <==> IsPageKey(files, k)
  {
    ClaimsArePages(files, scanned, entries, k);
  }

  /** Two trees pushed one after the other: what is there at a key that the second tree has no page
      for is a seeded row from before both, at a key that the first tree had no page for either. */
  lemma RemovedPagesAreGone(
    files: seq<Scan.PageFile>, scanned: seq<P.RouteEntry>, plan: Plan,
    files': seq<Scan.PageFile>, scanned': seq<P.RouteEntry>, plan': Plan, t: Tables, k: RouteKey)
    requires IsTree(files, scanned, plan.app.entries) && IsTree(files', scanned', plan'.app.entries)
    requires !IsPageKey(files', k)
    ensures var routes := Pushed(Pushed(t, plan), plan').routes;
            (k in routes <==> k in t.routes && StartsWith(t.routes[k].handlerName, "pgweb._default_")
                              && !IsPageKey(files, k))
            && (k in routes ==> routes[k] == t.routes[k])
  {
    var once := Pushed(t, plan);
    Pushing.RouteKeysMatchTree(t, plan);
    Pushing.RouteKeysMatchTree(once, plan');
    ClaimedIffPageKey(files, scanned, plan.app.entries, k);
    ClaimedIffPageKey(files', scanned', plan'.app.entries, k);
    if Pushing.Claims(plan.app.entries, k) {
      var key := ClaimedRowIsAPages(files, scanned, t, plan, k);
      assert IsPageHandler(once.routes[k].handlerName);
      PageHandlerIsNotSeeded(once.routes[k].handlerName);
    }
  }

  /** The rows the extension starts with: the health routes stay unless the tree has their pages,
      and the greeting never does. */
  lemma SeededRows(t: Tables, plan: Plan, path: string, handlerName: string)
    requires var k := RouteKey("GET", path);
             k in t.routes && t.routes[k].handlerName == handlerName && !Pushing.Claims(plan.app.entries, k)
    ensures var k, routes := RouteKey("GET", path), Pushed(t, plan).routes;
            (handlerName in ["pgweb._default_health_handler", "pgweb._default_readiness_handler"] ==>
               k in routes && routes[k] == t.routes[k])
            && (handlerName == "pgweb.hello_handler" ==> k !in routes)
  {
    Pushing.RouteKeysMatchTree(t, plan);
    SeededNames();
  }

  lemma SeededNames()
    ensures StartsWith("pgweb._default_health_handler", "pgweb._default_")
    ensures StartsWith("pgweb._default_readiness_handler", "pgweb._default_")
    ensures !StartsWith("pgweb.hello_handler", "pgweb._default_")
  {
    assert "pgweb.hello_handler"[..15][6] == 'h' && "pgweb._default_"[6] == '_';
  }

  // ---- Functions ----

  /** The function a row calls is there. */
  predicate HasFunction(functions: map<FnId, FnSig>, row: RouteValue) {
    exists id :: id in functions && "pgweb." + id.name == row.handlerName
  }

  /** No row is left dangling: the tree's own have their functions, and any other that had one
      before the push has it after. */
  lemma NoRowDangles(t: Tables, plan: Plan, k: RouteKey)
    requires Validates(t, plan) && k in Pushed(t, plan).routes
    requires Pushing.Claims(plan.app.entries, k) || HasFunction(t.functions, Pushed(t, plan).routes[k])
    ensures HasFunction(Pushed(t, plan).functions, Pushed(t, plan).routes[k])
  {
    var p := Pushed(t, plan);
    var row := p.routes[k];
    if Pushing.Claims(plan.app.entries, k) {
      Pushing.PushedRoutesAreServableIff(t, plan, k);
      var id := FnId(ProName(row.handlerName).value, ["json"]);
      assert id in p.functions && "pgweb." + id.name == row.handlerName;
    } else {
      Pushing.RouteKeysMatchTree(t, plan);
      var id :| id in t.functions && "pgweb." + id.name == row.handlerName;
      UnmanagedFunctionStays(t, plan, id);
    }
  }

  lemma UnmanagedFunctionStays(t: Tables, plan: Plan, id: FnId)
    requires id in t.functions && StartsWith("pgweb." + id.name, "pgweb._default_")
    ensures id in Pushed(t, plan).functions
  {
    Pushing.DefinedFunctions(t.functions, plan.app.entries, id);
    assert id.name != "" && id.name[0] == ("pgweb." + id.name)[..15][6] == '_';
    assert !StartsWith(id.name, "pages__") by { if |id.name| >= 7 { assert id.name[..7][0] == '_'; } }
  }

  /** A page's handler that the tree does not have any more is dropped, if the server could call it
      at all: no function of that name takes a request. */
  lemma RemovedHandlersAreDropped(t: Tables, plan: Plan, segs: seq<P.Segment>, stem: P.Stem, id: FnId)
    requires forall i :: 0 <= i < |segs| && segs[i].Capture? ==> P.IsValidCaptureName(segs[i].name)
    requires forall i :: 0 <= i < |segs| ==> HandlerCalls.IsCallable(segs[i])
    requires "pgweb." + id.name == P.BuildHandlerName(segs, P.StemName(stem)) && id.argTypes == ["json"]
    requires forall e :: e in plan.app.entries ==> e.handlerName != "pgweb." + id.name
    requires id in Pushed(t, plan).functions
    ensures var sig := Pushed(t, plan).functions[id];
            sig.argNames != ["req"] || (sig.result != "json" && sig.result != "text")
  {
    var joined := Join(Map(P.HandlerPart, segs) + [P.StemName(stem)], "__");
    P.HandlerNameIsJoin(segs, P.StemName(stem));
    NameInSchema(id.name, joined);
    HandlerCalls.JoinedIsIdentIff(segs, stem, joined);
    ReservedIsSafe(id.name, joined);
  }

  lemma NameInSchema(name: string, joined: string)
    requires "pgweb." + name == "pgweb.pages__" + joined
    ensures name == "pages__" + joined
  {
    assert ("pgweb." + name)[6..] == name && ("pgweb.pages__" + joined)[6..] == "pages__" + joined;
  }

  lemma ReservedIsSafe(name: string, joined: string)
    requires name == "pages__" + joined && HandlerCalls.IsIdentText(joined)
    ensures IsSafeProName(name) && StartsWith(name, "pages__")
  {
    assert HandlerCalls.IsIdentText("pages__");
    HandlerCalls.IdentTextConcat("pages__", joined);
    assert forall i :: 0 <= i < |name| ==> HandlerCalls.IsIdentChar(name[i]);
  }
}
