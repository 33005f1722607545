/** The last step of a request: what of the router's outcome is put on the wire. A bad status, a
    forbidden or malformed header and a malformed cookie are dropped in silence, and development
    pages get a script. */
module HttpResponse {
  import opened Prelude
  import opened Text
  import Rewrite
  import opened Envelope
  import AppName

  // ---- The live-reload script ----

  const MARKER := "data-pgweb-livereload"
  const BODY_CLOSE := "</body>"

  function ScriptTag(): string { "<script src=\"/_pgweb/livereload.js\" async " + MARKER + "></script>" }

  /** `str::rfind`, looking no later than position `i`. */
  function RFindFrom(s: string, p: string, i: nat): (r: Option<nat>)
    requires i <= |s|
    ensures r.Some? ==> r.value <= i && OccursAt(s, p, r.value) && forall k :: r.value < k <= i ==> !OccursAt(s, p, k)
    ensures r.None? ==> forall k :: 0 <= k <= i ==> !OccursAt(s, p, k)
  {
    if OccursAt(s, p, i) then Some(i) else if i == 0 then None else RFindFrom(s, p, i - 1)
  }

  function RFind(s: string, p: string): Option<nat> { RFindFrom(s, p, |s|) }

  /** `inject_script_if_eligible`. */
  function Inject(body: string, development: bool): string {
    if !development || Contains(body, MARKER) then body
    else
      match RFind(body, BODY_CLOSE)
      case Some(i) => body[..i] + ScriptTag() + body[i..]
      case None => body
  }

  /** A body is left alone in production, when it has the marker, and when it is not a whole
      document; no other is. */
  lemma BodyIsLeftAloneIff(body: string, development: bool)
    ensures Inject(body, development) == body
            <==> !development || Contains(body, MARKER) || !Contains(body, BODY_CLOSE)
  {
    var at := RFind(body, BODY_CLOSE);
    if at.Some? { assert |body[..at.value] + ScriptTag() + body[at.value..]| == |body| + |ScriptTag()|; }
  }

  lemma OccursInMiddle(a: string, p: string, b: string)
    ensures Contains(a + p + b, p)
  {
    assert (a + p + b)[|a|..|a| + |p|] == p;
    assert OccursAt(a + p + b, p, |a|);
  }

  /** The script is injected once: a second pass finds the marker. */
  lemma InjectingTwiceIsOnce(body: string, development: bool)
    ensures Inject(Inject(body, development), development) == Inject(body, development)
  {
    if Inject(body, development) != body {
      var i := RFind(body, BODY_CLOSE).value;
      var a, b := body[..i] + "<script src=\"/_pgweb/livereload.js\" async ", "></script>" + body[i..];
      Regrouped(body[..i], "<script src=\"/_pgweb/livereload.js\" async ", MARKER, "></script>", body[i..]);
      OccursInMiddle(a, MARKER, b);
    }
  }

  lemma Regrouped(a: string, b: string, m: string, c: string, d: string)
    ensures a + (b + m + c) + d == a + b + m + (c + d)
  {
  }

  // ---- Headers ----

  /** By wire name, lower-case; only Set-Cookie has several values. */
  type HeaderMap = map<string, seq<string>>

  /** What the HTTP library accepts as a header's name and as its value. */
  datatype Library = Library(isName: string -> bool, isValue: string -> bool)

  datatype HttpResponse = HttpResponse(status: nat, headers: HeaderMap, body: string)

  /** Connection-level headers, and the ones the server computes. */
  predicate IsDisallowed(name: string) {
    var n := ToAsciiLowercase(name);
    n == "connection" || n == "content-length" || n == "content-type" || n == "transfer-encoding" || n == "keep-alive"
    || n == "upgrade" || n == "te" || n == "trailer" || n == "proxy-authenticate" || n == "proxy-authorization"
  }

  /** The header is put on the wire. */
  predicate IsSent(lib: Library, name: string, value: string) {
    !IsDisallowed(name) && lib.isName(name) && lib.isValue(value)
  }

  function WithHeader(h: HeaderMap, lib: Library, kv: (string, string)): HeaderMap {
    if IsSent(lib, kv.0, kv.1) then h[ToAsciiLowercase(kv.0) := [kv.1]] else h
  }

  function WithHeaders(h: HeaderMap, lib: Library, order: seq<(string, string)>): HeaderMap {
    if order == [] then h
    else
      var n := |order| - 1;
      WithHeader(WithHeaders(h, lib, order[..n]), lib, order[n])
  }

  function Values(h: HeaderMap, name: string): seq<string> { if name in h then h[name] else [] }

  function WithCookie(h: HeaderMap, lib: Library, c: string): HeaderMap {
    if lib.isValue(c) then h["set-cookie" := Values(h, "set-cookie") + [c]] else h
  }

  function WithCookies(h: HeaderMap, lib: Library, cookies: seq<string>): HeaderMap {
    if cookies == [] then h
    else
      var n := |cookies| - 1;
      WithCookie(WithCookies(h, lib, cookies[..n]), lib, cookies[n])
  }

  const HTML := "text/html; charset=utf-8"

  function WireStatus(status: nat): nat { if 100 <= status <= 999 then status else 200 }

  function WireType(contentType: Option<string>): string { if contentType.Some? then contentType.value else HTML }

  /** The entity: what is sent unless the request was a HEAD. */
  function WireBody(body: string, contentType: Option<string>, development: bool): string {
    if StartsWith(WireType(contentType), "text/html") then Inject(body, development) else body
  }

  function FirstHeaders(lib: Library, contentType: Option<string>, entity: string, isHead: bool): HeaderMap {
    var ct := WireType(contentType);
    var h := map["content-type" := [if lib.isValue(ct) then ct else HTML]];
    if isHead && lib.isValue(AppName.Decimal(ByteLen(entity)))
    then h["content-length" := [AppName.Decimal(ByteLen(entity))]]
    else h
  }

  /** The response for an outcome whose headers the router lists in this order. */
  function Wire(lib: Library, development: bool, isHead: bool, status: nat, body: string, contentType: Option<string>,
                order: seq<(string, string)>, cookies: seq<string>): HttpResponse
  {
    var entity := WireBody(body, contentType, development);
    HttpResponse(
      WireStatus(status),
      WithCookies(WithHeaders(FirstHeaders(lib, contentType, entity, isHead), lib, order), lib, cookies),
      if isHead then "" else entity)
  }

  /** The response branch of `handle`. */
  method Handle(lib: Library, development: bool, isHead: bool, status: nat, body: string, contentType: Option<string>,
                order: seq<(string, string)>, cookies: seq<string>) returns (r: HttpResponse)
    ensures r == Wire(lib, development, isHead, status, body, contentType, order, cookies)
    ensures if isHead then r.body == "" else IsServedFor(r.body, body, contentType, development)
  {
    var code := if 100 <= status <= 999 then status else 200;
    var ct := if contentType.Some? then contentType.value else HTML;
    var entity := if StartsWith(ct, "text/html") then Inject(body, development) else body;
    var headers: HeaderMap := map["content-type" := [if lib.isValue(ct) then ct else HTML]];
    if isHead && lib.isValue(AppName.Decimal(ByteLen(entity))) {
      headers := headers["content-length" := [AppName.Decimal(ByteLen(entity))]];
    }
    headers := InsertHeaders(headers, lib, order);
    headers := AppendCookies(headers, lib, cookies);
    r := HttpResponse(code, headers, if isHead then "" else entity);
    assert r == Wire(lib, development, isHead, status, body, contentType, order, cookies);
    WireIsServed(lib, development, isHead, status, body, contentType, order, cookies);
  }

  method InsertHeaders(first: HeaderMap, lib: Library, order: seq<(string, string)>) returns (headers: HeaderMap)
    ensures headers == WithHeaders(first, lib, order)
  {
    headers := first;
    for i := 0 to |order|
      invariant headers == WithHeaders(first, lib, order[..i])
    {
      assert order[..i + 1][..i] == order[..i];
      var (k, v) := order[i];
      if !IsDisallowed(k) {
        if lib.isName(k) && lib.isValue(v) {
          headers := headers[ToAsciiLowercase(k) := [v]];
        }
      }
    }
    assert order[..|order|] == order;
  }

  method AppendCookies(first: HeaderMap, lib: Library, cookies: seq<string>) returns (headers: HeaderMap)
    ensures headers == WithCookies(first, lib, cookies)
  {
    headers := first;
    for i := 0 to |cookies|
      invariant headers == WithCookies(first, lib, cookies[..i])
    {
      assert cookies[..i + 1][..i] == cookies[..i];
      if lib.isValue(cookies[i]) {
        headers := headers["set-cookie" := Values(headers, "set-cookie") + [cookies[i]]];
      }
    }
    assert cookies[..|cookies|] == cookies;
  }

  // ---- What arrives ----

  /** The wire names a handler has no say in. */
  const FRAMING := [
    "connection", "content-length", "content-type", "transfer-encoding", "keep-alive", "upgrade", "te", "trailer",
    "proxy-authenticate", "proxy-authorization"]

  lemma DisallowedIsFraming(name: string)
    ensures IsDisallowed(name) <==> ToAsciiLowercase(name) in FRAMING
  {
  }

  /** Some header of the handler's gives the wire name `n` the value `v`. */
  ghost predicate Gives(lib: Library, headers: map<string, string>, n: string, v: string) {
    exists k :: k in headers && ToAsciiLowercase(k) == n && headers[k] == v
                && n !in FRAMING && lib.isName(k) && lib.isValue(v)
  }

  ghost predicate GivesSome(lib: Library, headers: map<string, string>, n: string) {
    exists v :: Gives(lib, headers, n, v)
  }

  /** The handler's headers take the place of the ones before, and exactly those that are sent do. */
  lemma {:induction false} HeadersArrive(h: HeaderMap, lib: Library, order: seq<(string, string)>, n: string)
    requires Rewrite.DistinctKeys(order)
    ensures Arrived(h, WithHeaders(h, lib, order), lib, Rewrite.MapOf(order), n)
  {
    if order != [] {
      var j := |order| - 1;
      HeadersArrive(h, lib, order[..j], n);
      Rewrite.KeysOfOrder(order[..j], order[j].0);
      HeaderArrives(h, WithHeaders(h, lib, order[..j]), lib, Rewrite.MapOf(order[..j]), order[j].0, order[j].1, n);
    }
  }

  /** After these headers of the handler's, `n` has what one of them gives it, or what it had. */
  ghost predicate Arrived(h: HeaderMap, after: HeaderMap, lib: Library, given: map<string, string>, n: string) {
    if GivesSome(lib, given, n) then n in after && |after[n]| == 1 && Gives(lib, given, n, after[n][0])
    else (n in after <==> n in h) && (n in h ==> after[n] == h[n])
  }

  lemma HeaderArrives(h: HeaderMap, after: HeaderMap, lib: Library, given: map<string, string>, k: string, v: string,
                      n: string)
    requires k !in given && Arrived(h, after, lib, given, n)
    ensures Arrived(h, WithHeader(after, lib, (k, v)), lib, given[k := v], n)
  {
    var more := given[k := v];
    OneMoreHeader(lib, given, k, v, n);
    if IsSent(lib, k, v) && ToAsciiLowercase(k) == n {
      assert Gives(lib, more, n, v);
    } else {
      assert forall w :: Gives(lib, more, n, w) <==> Gives(lib, given, n, w);
      SameGives(lib, more, given, n);
    }
  }

  lemma SameGives(lib: Library, a: map<string, string>, b: map<string, string>, n: string)
    requires forall w :: Gives(lib, a, n, w) <==> Gives(lib, b, n, w)
    ensures GivesSome(lib, a, n) <==> GivesSome(lib, b, n)
  {
    if v :| Gives(lib, a, n, v) { assert Gives(lib, b, n, v); }
    if v :| Gives(lib, b, n, v) { assert Gives(lib, a, n, v); }
  }

  lemma OneMoreHeader(lib: Library, given: map<string, string>, k: string, v: string, n: string)
    requires k !in given
    ensures forall w :: Gives(lib, given[k := v], n, w)
                        <==> Gives(lib, given, n, w) || (ToAsciiLowercase(k) == n && w == v && IsSent(lib, k, v))
  {
    var more := given[k := v];
    forall w ensures Gives(lib, more, n, w)
                     <==> Gives(lib, given, n, w) || (ToAsciiLowercase(k) == n && w == v && IsSent(lib, k, v)) {
      DisallowedIsFraming(k);
      if Gives(lib, given, n, w) {
        var x :| x in given && ToAsciiLowercase(x) == n && given[x] == w
                 && n !in FRAMING && lib.isName(x) && lib.isValue(w);
        assert x in more && more[x] == w;
      }
      if ToAsciiLowercase(k) == n && w == v && IsSent(lib, k, v) { assert k in more && more[k] == v; }
    }
  }

  /** The cookies that are valid header values, in order. */
  function ValidCookies(lib: Library, cookies: seq<string>): seq<string> {
    if cookies == [] then []
    else
      var n := |cookies| - 1;
      ValidCookies(lib, cookies[..n]) + (if lib.isValue(cookies[n]) then [cookies[n]] else [])
  }

  lemma {:induction false} CookiesArrive(h: HeaderMap, lib: Library, cookies: seq<string>)
    ensures var after := WithCookies(h, lib, cookies);
            Values(after, "set-cookie") == Values(h, "set-cookie") + ValidCookies(lib, cookies)
            && forall n :: n != "set-cookie" ==> (n in after <==> n in h) && (n in h ==> after[n] == h[n])
  {
    if cookies != [] {
      var j := |cookies| - 1;
      CookiesArrive(h, lib, cookies[..j]);
    }
  }

  lemma ReservedNames()
    ensures "content-type" != "set-cookie" && "content-length" != "set-cookie" && "content-type" != "content-length"
  {
    assert |"content-type"| == 12 && |"set-cookie"| == 10 && |"content-length"| == 14;
  }

  /** The server's own headers are never overridden. */
  lemma DisallowedIsNotGiven(lib: Library, headers: map<string, string>)
    ensures !GivesSome(lib, headers, "content-type") && !GivesSome(lib, headers, "content-length")
  {
  }

  /** A HEAD response announces the length of the body it leaves out. */
  function LengthHeader(lib: Library, entity: string, isHead: bool): seq<string> {
    var n := AppName.Decimal(ByteLen(entity));
    if isHead && lib.isValue(n) then [n] else []
  }

  /** The live-reload script, just before the last place where the document's body is closed. */
  ghost predicate HasScript(entity: string, body: string) {
    exists i :: OccursAt(body, "</body>", i) && (forall k :: i < k ==> !OccursAt(body, "</body>", k))
                && entity == body[..i]
                             + "<script src=\"/_pgweb/livereload.js\" async data-pgweb-livereload></script>"
                             + body[i..]
  }

  /** What is served of a body: the body itself, in production, for every type but HTML, where the
      script is already, and where no document ends; otherwise the body with the script. */
  ghost predicate IsServedFor(entity: string, body: string, contentType: Option<string>, development: bool) {
    if development && (contentType.Some? ==> StartsWith(contentType.value, "text/html"))
       && !Contains(body, "data-pgweb-livereload") && Contains(body, "</body>")
    then HasScript(entity, body)
    else entity == body
  }

  /** Cut out again, the script leaves the body. */
  lemma ScriptCanBeCutOut(entity: string, body: string) returns (i: nat, j: nat)
    requires HasScript(entity, body)
    ensures i <= j <= |entity| && entity[..i] + entity[j..] == body && OccursAt(entity, "</body>", j)
    ensures entity[i..j] == "<script src=\"/_pgweb/livereload.js\" async data-pgweb-livereload></script>"
  {
    var script := "<script src=\"/_pgweb/livereload.js\" async data-pgweb-livereload></script>";
    i :| OccursAt(body, "</body>", i) && entity == body[..i] + script + body[i..];
    j := i + |script|;
    CutOut(entity, body[..i], script, body[i..]);
    assert body[..i] + body[i..] == body;
    assert body[i..][..|"</body>"|] == "</body>" && entity[j..j + |"</body>"|] == entity[j..][..|"</body>"|];
  }

  lemma CutOut(s: string, a: string, b: string, c: string)
    requires s == a + b + c
    ensures s[..|a|] == a && s[|a|..|a| + |b|] == b && s[|a| + |b|..] == c
  {
  }

  lemma HtmlIsHtml()
    ensures StartsWith(HTML, "text/html") && HTML == "text/html; charset=utf-8"
  {
    assert HTML == "text/html" + "; charset=utf-8";
  }

  lemma ScriptIsSpelled()
    ensures ScriptTag() == "<script src=\"/_pgweb/livereload.js\" async data-pgweb-livereload></script>"
  {
  }

  lemma WireBodyIsServed(body: string, contentType: Option<string>, development: bool)
    ensures IsServedFor(WireBody(body, contentType, development), body, contentType, development)
  {
    HtmlIsHtml();
    ScriptIsSpelled();
    var entity := WireBody(body, contentType, development);
    if development && StartsWith(WireType(contentType), "text/html") && !Contains(body, MARKER) {
      match RFind(body, BODY_CLOSE)
      case Some(i) => assert forall k :: |body| < k ==> !OccursAt(body, BODY_CLOSE, k);
      case None =>
    }
  }

  lemma WireIsServed(lib: Library, development: bool, isHead: bool, status: nat, body: string,
                     contentType: Option<string>, order: seq<(string, string)>, cookies: seq<string>)
    ensures var r := Wire(lib, development, isHead, status, body, contentType, order, cookies);
            if isHead then r.body == "" else IsServedFor(r.body, body, contentType, development)
  {
    WireBodyIsServed(body, contentType, development);
  }

  /** What a response has of an outcome: the status if it is one, else 200; the body as it is
      served, or for a HEAD nothing but its length; the content type if it is a header value; of the
      other headers exactly those that are neither denied nor malformed, and of several that differ
      in case only one; and the well-formed cookies in order, after a Set-Cookie header of the
      handler's own. */
  ghost predicate Receives(r: HttpResponse, lib: Library, development: bool, isHead: bool, status: nat, body: string,
                           contentType: Option<string>, headers: map<string, string>, cookies: seq<string>)
  {
    r.status == (if 100 <= status <= 999 then status else 200)
    && (exists entity ::
          IsServedFor(entity, body, contentType, development) && r.body == (if isHead then "" else entity)
          && Values(r.headers, "content-length") == LengthHeader(lib, entity, isHead))
    && Values(r.headers, "content-type")
       == [if contentType.Some? && lib.isValue(contentType.value) then contentType.value
           else "text/html; charset=utf-8"]
    && (forall n :: IsOther(n) ==> ReceivesHeader(r.headers, lib, headers, n))
    && ReceivesCookies(r.headers, lib, headers, cookies)
  }

  /** Not a header the server sets itself, nor the one cookies share. */
  predicate IsOther(n: string) { n != "content-type" && n != "content-length" && n != "set-cookie" }

  ghost predicate ReceivesHeader(h: HeaderMap, lib: Library, headers: map<string, string>, n: string) {
    if GivesSome(lib, headers, n) then n in h && |h[n]| == 1 && Gives(lib, headers, n, h[n][0]) else n !in h
  }

  ghost predicate ReceivesCookies(h: HeaderMap, lib: Library, headers: map<string, string>, cookies: seq<string>) {
    exists own ::
      Values(h, "set-cookie") == own + ValidCookies(lib, cookies)
      && if GivesSome(lib, headers, "set-cookie") then |own| == 1 && Gives(lib, headers, "set-cookie", own[0])
         else own == []
  }

  lemma OutcomeIsReceived(lib: Library, development: bool, isHead: bool, status: nat, body: string,
                          contentType: Option<string>, headers: map<string, string>, order: seq<(string, string)>,
                          cookies: seq<string>)
    requires Rewrite.IsOrderOf(order, headers)
    ensures Receives(Wire(lib, development, isHead, status, body, contentType, order, cookies),
                     lib, development, isHead, status, body, contentType, headers, cookies)
  {
    var entity := WireBody(body, contentType, development);
    var first := FirstHeaders(lib, contentType, entity, isHead);
    ReservedNames();
    EntityIsReceived(lib, development, isHead, status, body, contentType, headers, order, cookies);
    CookiesArrive(WithHeaders(first, lib, order), lib, cookies);
    CookiesAreReceived(first, lib, headers, order, cookies);
    forall n | IsOther(n)
      ensures ReceivesHeader(WithCookies(WithHeaders(first, lib, order), lib, cookies), lib, headers, n)
    {
      HeaderIsReceived(first, lib, headers, order, cookies, n);
    }
  }

  /** The body and the headers the server sets itself. */
  lemma EntityIsReceived(lib: Library, development: bool, isHead: bool, status: nat, body: string,
                         contentType: Option<string>, headers: map<string, string>, order: seq<(string, string)>,
                         cookies: seq<string>)
    requires Rewrite.IsOrderOf(order, headers)
    ensures var r := Wire(lib, development, isHead, status, body, contentType, order, cookies);
            (exists entity ::
               IsServedFor(entity, body, contentType, development) && r.body == (if isHead then "" else entity)
               && Values(r.headers, "content-length") == LengthHeader(lib, entity, isHead))
            && Values(r.headers, "content-type")
               == [if contentType.Some? && lib.isValue(contentType.value) then contentType.value
                   else "text/html; charset=utf-8"]
  {
    var entity := WireBody(body, contentType, development);
    ReservedNames();
    HtmlIsHtml();
    WireBodyIsServed(body, contentType, development);
    CookiesArrive(WithHeaders(FirstHeaders(lib, contentType, entity, isHead), lib, order), lib, cookies);
    OwnHeadersStay(lib, contentType, entity, isHead, headers, order);
  }

  lemma HeaderIsReceived(first: HeaderMap, lib: Library, headers: map<string, string>, order: seq<(string, string)>,
                         cookies: seq<string>, n: string)
    requires Rewrite.IsOrderOf(order, headers) && n !in first && n != "set-cookie"
    ensures ReceivesHeader(WithCookies(WithHeaders(first, lib, order), lib, cookies), lib, headers, n)
  {
    HeadersArrive(first, lib, order, n);
    CookiesArrive(WithHeaders(first, lib, order), lib, cookies);
  }

  lemma CookiesAreReceived(first: HeaderMap, lib: Library, headers: map<string, string>, order: seq<(string, string)>,
                           cookies: seq<string>)
    requires Rewrite.IsOrderOf(order, headers) && "set-cookie" !in first
    ensures ReceivesCookies(WithCookies(WithHeaders(first, lib, order), lib, cookies), lib, headers, cookies)
  {
    var second := WithHeaders(first, lib, order);
    HeadersArrive(first, lib, order, "set-cookie");
    CookiesArrive(second, lib, cookies);
    var own := Values(second, "set-cookie");
    assert Values(WithCookies(second, lib, cookies), "set-cookie") == own + ValidCookies(lib, cookies);
  }

  lemma OwnHeadersStay(lib: Library, contentType: Option<string>, entity: string, isHead: bool,
                       headers: map<string, string>, order: seq<(string, string)>)
    requires Rewrite.IsOrderOf(order, headers)
    ensures var h := WithHeaders(FirstHeaders(lib, contentType, entity, isHead), lib, order);
            Values(h, "content-type") == [if lib.isValue(WireType(contentType)) then WireType(contentType) else HTML]
            && Values(h, "content-length") == LengthHeader(lib, entity, isHead)
  {
    var first := FirstHeaders(lib, contentType, entity, isHead);
    ReservedNames();
    DisallowedIsNotGiven(lib, headers);
    HeadersArrive(first, lib, order, "content-type");
    HeadersArrive(first, lib, order, "content-length");
  }

  /** From the handler to the response: what is received of a call of `respond`, whatever its
      arguments are. */
  lemma RespondReachesClient(
    text: string, parse: Parser, templatePath: Option<string>, render: Renderer, default: nat,
    body: Option<string>, status: Option<int>, headers: Option<Json>, contentType: Option<string>,
    cookies: Option<Json>, lib: Library, development: bool, isHead: bool, order: seq<(string, string)>)
    returns (r: HttpResponse)
    requires parse(text) == Some(Respond(body, status, headers, contentType, cookies))
    requires Rewrite.IsOrderOf(order, GivenHeaders(headers))
    ensures IsSentFor(r, RouteOutcome(text, parse, templatePath, render, default), lib, development, isHead, order)
    ensures Receives(r, lib, development, isHead, StatusOr(status, default), GivenText(body), contentType,
                     GivenHeaders(headers), GivenCookies(cookies))
  {
    var sent, entity, given := StatusOr(status, default), GivenText(body), GivenCookies(cookies);
    RespondIsRouted(text, parse, templatePath, render, default, body, status, headers, contentType, cookies);
    OutcomeIsReceived(lib, development, isHead, sent, entity, contentType, GivenHeaders(headers), order, given);
    r := Wire(lib, development, isHead, sent, entity, contentType, order, given);
  }

  /** The response to this outcome, its headers listed in this order. */
  ghost predicate IsSentFor(
    r: HttpResponse, out: ServeOutcome, lib: Library, development: bool, isHead: bool, order: seq<(string, string)>)
  {
    out.Response? && Rewrite.IsOrderOf(order, out.headers)
    && r == Wire(lib, development, isHead, out.status, out.body, out.contentType, order, out.cookies)
  }

  function RedirectHeaders(location: Option<string>): map<string, string> {
    if location.Some? then map["Location" := location.value] else map[]
  }

  /** A redirect has an empty body, its cookies, its location iff there is one and it is a header
      value, and its status, or the default one, iff that is a status. */
  lemma RedirectReachesClient(
    text: string, parse: Parser, templatePath: Option<string>, render: Renderer, default: nat,
    location: Option<string>, status: Option<int>, cookies: Option<Json>,
    lib: Library, development: bool, isHead: bool, order: seq<(string, string)>)
    returns (r: HttpResponse)
    requires parse(text) == Some(Redirect(location, status, cookies))
    requires lib.isName("Location") && Rewrite.IsOrderOf(order, RedirectHeaders(location))
    ensures IsSentFor(r, RouteOutcome(text, parse, templatePath, render, default), lib, development, isHead, order)
    ensures r.body == ""
    ensures r.status == StatusOr(status, default) <==> 100 <= StatusOr(status, default) <= 999
    ensures Values(r.headers, "location")
            == if location.Some? && lib.isValue(location.value) then [location.value] else []
    ensures Values(r.headers, "set-cookie") == ValidCookies(lib, GivenCookies(cookies))
  {
    var headers := Some(Obj(map["Location" := TextOrNull(location)]));
    assert GivenHeaders(headers) == RedirectHeaders(location);
    r := RespondReachesClient(text, parse, templatePath, render, default, Some(""), status, headers, None, cookies,
                              lib, development, isHead, order);
    RedirectIsReceived(r, lib, development, isHead, location, StatusOr(status, default), GivenCookies(cookies));
  }

  lemma RedirectIsReceived(
    r: HttpResponse, lib: Library, development: bool, isHead: bool, location: Option<string>, status: nat,
    cookies: seq<string>)
    requires lib.isName("Location")
    requires Receives(r, lib, development, isHead, status, "", None, RedirectHeaders(location), cookies)
    ensures r.body == "" && (r.status == status <==> 100 <= status <= 999)
    ensures Values(r.headers, "location")
            == if location.Some? && lib.isValue(location.value) then [location.value] else []
    ensures Values(r.headers, "set-cookie") == ValidCookies(lib, cookies)
  {
    EmptyBodyIsLeftAlone(development);
    LocationIsGivenIff(lib, GivenText(location));
    var own :| Values(r.headers, "set-cookie") == own + ValidCookies(lib, cookies) && own == [];
    assert own + ValidCookies(lib, cookies) == ValidCookies(lib, cookies);
    assert ReceivesHeader(r.headers, lib, RedirectHeaders(location), "location");
    if location.Some? { LocationIsReceived(r, lib, location.value); }
  }

  lemma LocationIsReceived(r: HttpResponse, lib: Library, location: string)
    requires forall v :: Gives(lib, map["Location" := location], "location", v) <==>
                           v == location && lib.isValue(location)
    requires ReceivesHeader(r.headers, lib, map["Location" := location], "location")
    ensures Values(r.headers, "location") == if lib.isValue(location) then [location] else []
  {
    if lib.isValue(location) { assert Gives(lib, map["Location" := location], "location", location); }
  }

  lemma LocationIsGivenIff(lib: Library, location: string)
    requires lib.isName("Location")
    ensures var headers := map["Location" := location];
            (forall v :: Gives(lib, headers, "location", v) <==> v == location && lib.isValue(location))
            && !GivesSome(lib, headers, "set-cookie")
    ensures "location" != "content-type" && "location" != "content-length" && "location" != "set-cookie"
  {
    var n := ToAsciiLowercase("Location");
    assert n == "location";
    assert |n| == 8 && |"connection"| == 10 && |"content-length"| == 14 && |"content-type"| == 12;
    assert |"transfer-encoding"| == 17 && |"keep-alive"| == 10 && |"upgrade"| == 7 && |"te"| == 2 && |"trailer"| == 7;
    assert |"proxy-authenticate"| == 18 && |"proxy-authorization"| == 19 && |"set-cookie"| == 10;
    assert !IsDisallowed("Location");
    if lib.isValue(location) { assert Gives(lib, map["Location" := location], "location", location); }
  }

  lemma EmptyBodyIsLeftAlone(development: bool)
    ensures Inject("", development) == ""
  {
    BodyIsLeftAloneIff("", development);
  }

  /** A JSON payload is sent as its own text, in every environment, even if it contains the sentinel
      or looks like a document. */
  lemma JsonReachesClient(
    text: string, parse: Parser, templatePath: Option<string>, render: Renderer, default: nat,
    payload: Option<string>, status: Option<int>, headers: Option<Json>, cookies: Option<Json>,
    lib: Library, development: bool, isHead: bool, order: seq<(string, string)>)
    returns (r: HttpResponse)
    requires parse(text) == Some(JsonResponse(payload, status, headers, cookies))
    requires lib.isValue("application/json") && Rewrite.IsOrderOf(order, GivenHeaders(headers))
    ensures IsSentFor(r, RouteOutcome(text, parse, templatePath, render, default), lib, development, isHead, order)
    ensures r.body == (if isHead then "" else GivenText(payload))
    ensures Values(r.headers, "content-type") == ["application/json"]
    ensures r.status == StatusOr(status, default) <==> 100 <= StatusOr(status, default) <= 999
  {
    r := RespondReachesClient(text, parse, templatePath, render, default, payload, status, headers,
                              Some("application/json"), cookies, lib, development, isHead, order);
    assert "application/json"[0] == 'a' && "text/html"[0] == 't';
    assert !StartsWith("application/json", "text/html") by { assert "application/json"[..9][0] == 'a'; }
  }
}
