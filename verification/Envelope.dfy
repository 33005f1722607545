/** The response contract between handlers and the router: the SQL constructors of an envelope,
    the router's parser, and what a request is finally answered with. */
module Envelope {
  import opened Prelude
  import opened Text
  import HandlerCalls

  /** A parsed JSON value; object members are keyed by name. */
  datatype Json =
    | Null
    | Bool(b: bool)
    | Int(i: int)
    | Float(r: real)
    | Str(s: string)
    | Arr(items: seq<Json>)
    | Obj(members: map<string, Json>)

  const U16_LIMIT := 0x1_0000
  const SENTINEL := "$pgweb"

  // ---- The constructors, in SQL; `None` is SQL NULL ----

  function TextOrNull(v: Option<string>): Json { match v case None => Null case Some(s) => Str(s) }

  function IntOrNull(v: Option<int>): Json { match v case None => Null case Some(i) => Int(i) }

  function Coalesce(v: Option<Json>, default: Json): Json { match v case None => default case Some(j) => j }

  /** `pgweb.respond`. */
  function Respond(body: Option<string>, status: Option<int>, headers: Option<Json>, contentType: Option<string>,
                   cookies: Option<Json>): Json
  {
    Obj(map[
      SENTINEL := Obj(map[
        "status" := IntOrNull(status),
        "headers" := Coalesce(headers, Obj(map[])),
        "content_type" := TextOrNull(contentType),
        "cookies" := Coalesce(cookies, Arr([]))]),
      "body" := TextOrNull(body)])
  }

  /** `pgweb.redirect`. */
  function Redirect(location: Option<string>, status: Option<int>, cookies: Option<Json>): Json {
    Respond(Some(""), status, Some(Obj(map["Location" := TextOrNull(location)])), None, cookies)
  }

  /** `pgweb.json`, given the payload's text. */
  function JsonResponse(payload: Option<string>, status: Option<int>, headers: Option<Json>,
                        cookies: Option<Json>): Json {
    Respond(payload, status, headers, Some("application/json"), cookies)
  }

  // ---- The parser ----

  datatype ResponseEnvelope = ResponseEnvelope(
    status: Option<nat>, contentType: Option<string>, headers: map<string, string>, cookies: seq<string>,
    body: Option<string>, context: Option<Json>)

  function Member(j: Json, name: string): Option<Json> {
    if j.Obj? && name in j.members then Some(j.members[name]) else None
  }

  function StringMembers(members: map<string, Json>): map<string, string> {
    map k | k in members && members[k].Str? :: members[k].s
  }

  function AsString(j: Json): Option<string> { if j.Str? then Some(j.s) else None }

  /** The envelope carried by a value, if it is an object whose sentinel member is an object. */
  function EnvelopeOf(val: Json): Option<ResponseEnvelope> {
    match Member(val, SENTINEL)
    case Some(Obj(pgweb)) =>
      var attrs := Obj(pgweb);
      Some(ResponseEnvelope(
        match Member(attrs, "status") {
          case Some(Int(i)) => if 0 <= i < U16_LIMIT then Some(i) else None
          case _ => None
        },
        match Member(attrs, "content_type") { case Some(Str(s)) => Some(s) case _ => None },
        match Member(attrs, "headers") { case Some(Obj(h)) => StringMembers(h) case _ => map[] },
        match Member(attrs, "cookies") { case Some(Arr(cs)) => FilterMap(AsString, cs) case _ => [] },
        match Member(val, "body") { case Some(b) => Some(if b.Str? then b.s else "") case None => None },
        match Member(val, "context") { case Some(c) => if c.Obj? || c.Null? then Some(c) else None case None => None }))
    case _ => None
  }

  method ParseResponseEnvelope(val: Option<Json>) returns (r: Option<ResponseEnvelope>)
    ensures r == if val.Some? then EnvelopeOf(val.value) else None
  {
    if val.None? {
      return None;
    }
    var obj := val.value;
    var pgweb := Member(obj, SENTINEL);
    if pgweb.None? || !pgweb.value.Obj? {
      return None;
    }
    var attrs := pgweb.value;
    var env := ResponseEnvelope(None, None, map[], [], None, None);
    env := ReadAttributes(pgweb.value, env);
    match Member(obj, "body") {
      case Some(b) => env := env.(body := Some(if b.Str? then b.s else ""));
      case None =>
    }
    match Member(obj, "context") {
      case Some(c) =>
        if c.Obj? || c.Null? {
          env := env.(context := Some(c));
        }
      case None =>
    }
    r := Some(env);
  }

  /** The attributes under the sentinel; a value of the wrong kind counts as absent. */
  method ReadAttributes(attrs: Json, defaults: ResponseEnvelope) returns (env: ResponseEnvelope)
    ensures env == defaults.(
                     status := match Member(attrs, "status") {
                       case Some(Int(i)) => if 0 <= i < U16_LIMIT then Some(i) else defaults.status
                       case _ => defaults.status },
                     contentType := match Member(attrs, "content_type") {
                                      case Some(Str(s)) => Some(s)
                                      case _ => defaults.contentType
                                    },
                     headers := match Member(attrs, "headers") {
                                  case Some(Obj(h)) => StringMembers(h)
                                  case _ => defaults.headers
                                },
                     cookies := match Member(attrs, "cookies") {
                                  case Some(Arr(cs)) => FilterMap(AsString, cs)
                                  case _ => defaults.cookies
                                })
  {
    env := defaults;
    match Member(attrs, "status") {
      case Some(Int(i)) =>
        if 0 <= i < U16_LIMIT {
          env := env.(status := Some(i));
        }
      case _ =>
    }
    match Member(attrs, "content_type") {
      case Some(Str(s)) => env := env.(contentType := Some(s));
      case _ =>
    }
    match Member(attrs, "headers") {
      case Some(Obj(h)) =>
        var headers := CollectHeaders(h);
        env := env.(headers := headers);
      case _ =>
    }
    match Member(attrs, "cookies") {
      case Some(Arr(cs)) =>
        var cookies := CollectCookies(cs);
        env := env.(cookies := cookies);
      case _ =>
    }
  }

  method CollectHeaders(h: map<string, Json>) returns (headers: map<string, string>)
    ensures headers == StringMembers(h)
  {
    headers := map[];
    var todo := h.Keys;
    while todo != {}
      invariant todo <= h.Keys
      invariant headers == map k | k in h && k !in todo && h[k].Str? :: h[k].s
      decreases todo
    {
      var k :| k in todo;
      if h[k].Str? {
        headers := headers[k := h[k].s];
      }
      todo := todo - {k};
    }
  }

  method CollectCookies(cs: seq<Json>) returns (cookies: seq<string>)
    ensures cookies == FilterMap(AsString, cs)
  {
    cookies := [];
    for i := 0 to |cs|
      invariant cookies == FilterMap(AsString, cs[..i])
    {
      assert cs[..i + 1] == cs[..i] + [cs[i]];
      FilterMapAppend(AsString, cs[..i], cs[i]);
      if cs[i].Str? {
        cookies := cookies + [cs[i].s];
      }
    }
    assert cs[..|cs|] == cs;
  }

  // ---- Rendering ----

  datatype ServeError =
    | RejectedName(handlerName: string)
    | HandlerFailed
    | HandlerReturnNotJson(raw: string)
    | TemplateFailed(path: string)

  datatype ServeOutcome =
    | Response(status: nat, body: string, contentType: Option<string>, headers: map<string, string>,
               cookies: seq<string>)
    | Error(error: ServeError)

  /** How handler text is parsed as JSON. */
  type Parser = string -> Option<Json>

  /** `render_template`: the cached or freshly compiled template, applied to a context. */
  type Renderer = (string, Json) -> Option<string>

  /** `call_handler`: the database is not asked about a name that is not a safe identifier. */
  method CallHandler(handlerName: string, run: string -> Option<string>) returns (r: Result<string, ServeError>)
    ensures r == if !HandlerCalls.IsSafeIdent(handlerName) then Err(RejectedName(handlerName))
                 else match run(handlerName) case None => Err(HandlerFailed) case Some(text) => Ok(text)
  {
    var ok := HandlerCalls.CheckIdent(handlerName);
    if !ok {
      return Err(RejectedName(handlerName));
    }
    match run(handlerName)
    case None => return Err(HandlerFailed);
    case Some(text) => return Ok(text);
  }

  /** `render_route`, given what the database answers, how JSON text is parsed, how templates are
      rendered and the router's default status. */
  method RenderRoute(handlerName: string, run: string -> Option<string>, parse: Parser, templatePath: Option<string>,
                     render: Renderer, status: nat) returns (r: ServeOutcome)
    ensures if !HandlerCalls.IsSafeIdent(handlerName) then r == Error(RejectedName(handlerName))
            else if run(handlerName).None? then r == Error(HandlerFailed)
            else r == RouteOutcome(run(handlerName).value, parse, templatePath, render, status)
    ensures HandlerCalls.IsSafeIdent(handlerName) && run(handlerName).Some?
            && !CarriesEnvelope(parse(run(handlerName).value)) ==>
              var text := run(handlerName).value;
              match templatePath
              case None => r == Response(status, text, None, map[], [])
              case Some(path) =>
                match parse(text)
                case None => r == Error(HandlerReturnNotJson(text))
                case Some(context) =>
                  match render(path, context)
                  case None => r == Error(TemplateFailed(path))
                  case Some(page) => r == Response(status, page, None, map[], [])
  {
    var called := CallHandler(handlerName, run);
    if called.Err? {
      return Error(called.error);
    }
    var handlerText := called.value;
    var envelope := ParseResponseEnvelope(parse(handlerText));
    if envelope.Some? {
      var env := envelope.value;
      var finalStatus := if env.status.Some? then env.status.value else status;
      var finalBody := "";
      if env.body.Some? {
        finalBody := env.body.value;
      } else if templatePath.Some? && env.context.Some? {
        match render(templatePath.value, env.context.value) {
          case Some(body) => finalBody := body;
          case None => return Error(TemplateFailed(templatePath.value));
        }
      }
      return Response(finalStatus, finalBody, env.contentType, env.headers, env.cookies);
    }
    match templatePath {
      case Some(path) =>
        var context := parse(handlerText);
        if context.None? {
          return Error(HandlerReturnNotJson(handlerText));
        }
        match render(path, context.value) {
          case Some(body) => return Response(status, body, None, map[], []);
          case None => return Error(TemplateFailed(path));
        }
      case None => return Response(status, handlerText, None, map[], []);
    }
  }

  // ---- Two contracts ----

  /** The contract from before envelopes: the text itself, or the template on its JSON value. */
  function LegacyOutcome(text: string, parse: Parser, templatePath: Option<string>, render: Renderer,
                         status: nat): ServeOutcome {
    if templatePath.None? then Response(status, text, None, map[], [])
    else if parse(text).None? then Error(HandlerReturnNotJson(text))
    else RenderOr(render, templatePath.value, parse(text).value, body => Response(status, body, None, map[], []))
  }

  function RenderOr(render: Renderer, path: string, context: Json, finish: string -> ServeOutcome): ServeOutcome {
    match render(path, context)
    case None => Error(TemplateFailed(path))
    case Some(body) => finish(body)
  }

  /** What an envelope asks for: its body literally, else the template on its context, else nothing. */
  function EnvelopeOutcome(env: ResponseEnvelope, templatePath: Option<string>, render: Renderer,
                           status: nat): ServeOutcome {
    var finish := (body: string) =>
      Response(if env.status.Some? then env.status.value else status, body, env.contentType, env.headers, env.cookies);
    if env.body.Some? then finish(env.body.value)
    else if templatePath.Some? && env.context.Some? then RenderOr(render, templatePath.value, env.context.value, finish)
    else finish("")
  }

  function RouteOutcome(text: string, parse: Parser, templatePath: Option<string>, render: Renderer,
                        status: nat): ServeOutcome {
    match parse(text)
    case Some(val) =>
      (match EnvelopeOf(val)
       case Some(env) => EnvelopeOutcome(env, templatePath, render, status)
       case None => LegacyOutcome(text, parse, templatePath, render, status))
    case None => LegacyOutcome(text, parse, templatePath, render, status)
  }

  /** The value is an object with an object under the sentinel; members called "status" or "body"
      alone do not make it an envelope. */
  predicate CarriesEnvelope(val: Option<Json>) {
    val.Some? && val.value.Obj? && "$pgweb" in val.value.members && val.value.members["$pgweb"].Obj?
  }

  lemma EnvelopeIffSentinel(val: Json)
    ensures EnvelopeOf(val).Some? <==> CarriesEnvelope(Some(val))
  {
  }

  /** A JSON text is longer than any string member of the object it stands for. */
  ghost predicate IsJsonParser(parse: Parser) {
    forall text: string, m: map<string, Json>, k: string :: parse(text) == Some(Obj(m)) && k in m ==>
      text != "" && (m[k].Str? ==> |m[k].s| < |text|)
  }

  /** On raw routes the two contracts answer a text alike iff it carries no envelope. */
  lemma RawRoutesAnswerAlikeIff(text: string, parse: Parser, render: Renderer, status: nat)
    requires IsJsonParser(parse)
    ensures RouteOutcome(text, parse, None, render, status) == LegacyOutcome(text, parse, None, render, status)
            <==> !CarriesEnvelope(parse(text))
  {
    if parse(text).Some? { EnvelopeIffSentinel(parse(text).value); }
    if CarriesEnvelope(parse(text)) { EnvelopeBodyIsNotText(text, parse); }
  }

  lemma EnvelopeBodyIsNotText(text: string, parse: Parser)
    requires IsJsonParser(parse) && CarriesEnvelope(parse(text))
    ensures text != ""
    ensures var env := EnvelopeOf(parse(text).value);
            env.Some? && (env.value.body.Some? ==> env.value.body.value != text)
  {
    var m := parse(text).value.members;
    assert SENTINEL in m;
    if "body" in m { assert m["body"].Str? ==> |m["body"].s| < |text|; }
  }

  /** On template routes they answer alike with every template iff it carries no envelope. */
  lemma TemplateRoutesAnswerAlikeIff(text: string, parse: Parser, path: string, status: nat)
    ensures (forall render: Renderer ::
               RouteOutcome(text, parse, Some(path), render, status)
               == LegacyOutcome(text, parse, Some(path), render, status))
            <==> !CarriesEnvelope(parse(text))
  {
    if parse(text).Some? { EnvelopeIffSentinel(parse(text).value); }
    if CarriesEnvelope(parse(text)) { var render := TellingTemplate(text, parse, path, status); }
  }

  /** A template that tells the two contracts apart: none at all when the envelope has a body or no
      context, and otherwise one that shows whether it was given the whole value. */
  lemma TellingTemplate(text: string, parse: Parser, path: string, status: nat) returns (render: Renderer)
    requires CarriesEnvelope(parse(text))
    ensures RouteOutcome(text, parse, Some(path), render, status)
            != LegacyOutcome(text, parse, Some(path), render, status)
  {
    var val := parse(text).value;
    var env := EnvelopeOf(val).value;
    if env.body.None? && env.context.Some? {
      ContextIsNotTheValue(val);
      render := (p, c) => if c == val then Some("whole") else None;
    } else {
      render := (p, c) => None;
    }
  }

  lemma ContextIsNotTheValue(val: Json)
    requires EnvelopeOf(val).Some? && EnvelopeOf(val).value.context.Some?
    ensures EnvelopeOf(val).value.context.value != val
  {
    assert val.members["context"] != Obj(val.members);
  }

  // ---- What the constructors' arguments come to; `None` is SQL NULL ----

  /** A status that does not fit sixteen bits counts as none. */
  function GivenStatus(status: Option<int>): Option<nat> {
    if status.Some? && 0 <= status.value <= 65535 then Some(status.value) else None
  }

  function GivenText(body: Option<string>): string { if body.Some? then body.value else "" }

  /** Header values that are not strings are dropped. */
  function GivenHeaders(headers: Option<Json>): map<string, string> {
    if headers.Some? && headers.value.Obj? then StringMembers(headers.value.members) else map[]
  }

  /** So are cookies. */
  function GivenCookies(cookies: Option<Json>): seq<string> {
    if cookies.Some? && cookies.value.Arr? then FilterMap(AsString, cookies.value.items) else []
  }

  /** What `respond` packs, the parser unpacks, whatever the arguments are. */
  lemma RespondParsesBack(
    body: Option<string>, status: Option<int>, headers: Option<Json>, contentType: Option<string>,
    cookies: Option<Json>)
    ensures EnvelopeOf(Respond(body, status, headers, contentType, cookies))
            == Some(ResponseEnvelope(GivenStatus(status), contentType, GivenHeaders(headers), GivenCookies(cookies),
                                     Some(GivenText(body)), None))
  {
    RespondMembers(body, status, headers, contentType, cookies);
    assert StringMembers(map[]) == map[];
  }

  lemma RespondMembers(body: Option<string>, status: Option<int>, headers: Option<Json>, contentType: Option<string>,
                       cookies: Option<Json>)
    ensures var val := Respond(body, status, headers, contentType, cookies);
            Member(val, "body") == Some(TextOrNull(body)) && Member(val, "context") == None
            && match Member(val, SENTINEL)
               case None => false
               case Some(attrs) =>
                 attrs.Obj? && Member(attrs, "status") == Some(IntOrNull(status))
                 && Member(attrs, "headers") == Some(Coalesce(headers, Obj(map[])))
                 && Member(attrs, "content_type") == Some(TextOrNull(contentType))
                 && Member(attrs, "cookies") == Some(Coalesce(cookies, Arr([])))
  {
    AttributeNamesDiffer();
  }

  lemma AttributeNamesDiffer()
    ensures SENTINEL != "body" && SENTINEL != "context" && "body" != "context"
    ensures "status" != "headers" && "status" != "content_type" && "status" != "cookies"
    ensures "headers" != "content_type" && "headers" != "cookies" && "content_type" != "cookies"
  {
    assert SENTINEL[0] == '$' && "status"[0] == 's' && "headers"[0] == 'h';
    assert "content_type"[1] == 'o' && "cookies"[1] == 'o' && "content_type"[2] == 'n' && "cookies"[2] == 'o';
    assert "body"[0] == 'b' && "context"[0] == 'c';
  }

  /** On raw and on template routes alike, what a handler builds with `respond` is what the router
      passes on, whatever the template; without a status that fits, the default is used. */
  lemma RespondIsRouted(
    text: string, parse: Parser, templatePath: Option<string>, render: Renderer, default: nat,
    body: Option<string>, status: Option<int>, headers: Option<Json>, contentType: Option<string>,
    cookies: Option<Json>)
    requires parse(text) == Some(Respond(body, status, headers, contentType, cookies))
    ensures RouteOutcome(text, parse, templatePath, render, default)
            == Response(StatusOr(status, default), GivenText(body), contentType, GivenHeaders(headers),
                        GivenCookies(cookies))
  {
    RespondParsesBack(body, status, headers, contentType, cookies);
  }

  /** An envelope without a body, with a context for the template. */
  function WithContext(c: Json, status: Option<int>, headers: Option<Json>, contentType: Option<string>,
                       cookies: Option<Json>): Json
  {
    Obj(map["$pgweb" := Respond(None, status, headers, contentType, cookies).members["$pgweb"], "context" := c])
  }

  /** Its template is rendered on that context, an object or null; on raw routes, and without such
      a context, the body is empty. Status, headers and cookies are the envelope's in any case. */
  lemma ContextIsRouted(
    text: string, parse: Parser, templatePath: Option<string>, render: Renderer, default: nat,
    c: Json, status: Option<int>, headers: Option<Json>, contentType: Option<string>, cookies: Option<Json>)
    requires parse(text) == Some(WithContext(c, status, headers, contentType, cookies))
    ensures var page := if templatePath.Some? && (c.Obj? || c.Null?) then render(templatePath.value, c) else Some("");
            RouteOutcome(text, parse, templatePath, render, default)
            == if page.None? then Error(TemplateFailed(templatePath.value))
               else Response(StatusOr(status, default), page.value, contentType, GivenHeaders(headers),
                             GivenCookies(cookies))
  {
    ContextParsesBack(c, status, headers, contentType, cookies);
  }

  lemma ContextParsesBack(c: Json, status: Option<int>, headers: Option<Json>, contentType: Option<string>,
                          cookies: Option<Json>)
    ensures EnvelopeOf(WithContext(c, status, headers, contentType, cookies))
            == Some(ResponseEnvelope(GivenStatus(status), contentType, GivenHeaders(headers), GivenCookies(cookies),
                                     None, if c.Obj? || c.Null? then Some(c) else None))
  {
    AttributeNamesDiffer();
    RespondParsesBack(None, status, headers, contentType, cookies);
    var val := WithContext(c, status, headers, contentType, cookies);
    var sent := Respond(None, status, headers, contentType, cookies);
    assert Member(val, SENTINEL) == Member(sent, SENTINEL);
    assert Member(val, "body") == None && Member(val, "context") == Some(c);
  }

  /** On a template route an object without the sentinel is answered like an envelope that has it
      for a context and asks for nothing else. */
  lemma PlainObjectIsAContext(text: string, wrapped: string, parse: Parser, path: string, render: Renderer, status: nat)
    requires parse(text).Some? && parse(text).value.Obj? && !CarriesEnvelope(parse(text))
    requires parse(wrapped) == Some(Obj(map["$pgweb" := Obj(map[]), "context" := parse(text).value]))
    ensures RouteOutcome(text, parse, Some(path), render, status)
            == RouteOutcome(wrapped, parse, Some(path), render, status)
  {
    AttributeNamesDiffer();
    EnvelopeIffSentinel(parse(text).value);
    var val := parse(wrapped).value;
    assert Member(val, SENTINEL) == Some(Obj(map[]));
    assert Member(val, "body") == None && Member(val, "context") == Some(parse(text).value);
  }

  /** On a raw route a text without an envelope is answered like a `respond` of that text that asks
      for nothing else. */
  lemma PlainTextIsABody(text: string, wrapped: string, parse: Parser, render: Renderer, status: nat)
    requires !CarriesEnvelope(parse(text)) && parse(wrapped) == Some(Respond(Some(text), None, None, None, None))
    ensures RouteOutcome(text, parse, None, render, status) == RouteOutcome(wrapped, parse, None, render, status)
  {
    if parse(text).Some? { EnvelopeIffSentinel(parse(text).value); }
    RespondIsRouted(wrapped, parse, None, render, status, Some(text), None, None, None, None);
  }

  function StatusOr(status: Option<int>, default: nat): nat {
    if GivenStatus(status).Some? then GivenStatus(status).value else default
  }

  function Strings(cookies: seq<string>): seq<Json> {
    if cookies == [] then [] else [Str(cookies[0])] + Strings(cookies[1..])
  }

  lemma {:induction false} StringsComeBack(cookies: seq<string>)
    ensures FilterMap(AsString, Strings(cookies)) == cookies
  {
    if cookies != [] {
      StringsComeBack(cookies[1..]);
      assert [cookies[0]] + cookies[1..] == cookies;
    }
  }

  /** Of headers and cookies the strings are given and nothing else. */
  lemma OnlyStringsAreGiven(headers: map<string, Json>, cookies: seq<Json>)
    ensures var given := GivenHeaders(Some(Obj(headers)));
            (forall k :: k in given <==> k in headers && headers[k].Str?)
            && forall k :: k in given ==> Str(given[k]) == headers[k]
    ensures forall c :: c in GivenCookies(Some(Arr(cookies))) <==> Str(c) in cookies
  {
    forall c ensures c in FilterMap(AsString, cookies) <==> Str(c) in cookies { StringsAreKept(cookies, c); }
  }

  lemma {:induction false} StringsAreKept(items: seq<Json>, c: string)
    ensures c in FilterMap(AsString, items) <==> Str(c) in items
  {
    if items != [] {
      StringsAreKept(items[1..], c);
      assert items == [items[0]] + items[1..];
    }
  }

  /** If they are all strings, they come through whole. */
  lemma StringArgumentsAreGiven(headers: map<string, string>, cookies: seq<string>)
    ensures GivenHeaders(Some(Obj(map k | k in headers :: Str(headers[k])))) == headers
    ensures GivenCookies(Some(Arr(Strings(cookies)))) == cookies
  {
    StringsComeBack(cookies);
  }
}
