/** The assets of a production push: the rewrite map it builds from the scanned files, and the rows
    it stores. */
module PublicAssets {
  import opened Prelude
  import opened Text
  import Rewrite
  import Fingerprint
  import opened Push
  import PushProperties

  /** What `scan_public` yields: one asset per file, its URL a slash and a relative path, its
      fingerprint the first eight hex digits of the content's hash. */
  predicate IsScan(assets: seq<Asset>) {
    (forall i :: 0 <= i < |assets| ==>
       StartsWith(assets[i].urlPath, "/") && Fingerprint.IsHexRun(assets[i].fingerprintHex))
    && forall i, j :: 0 <= i < j < |assets| ==> assets[i].urlPath != assets[j].urlPath
  }

  lemma RewriteOf(assets: seq<Asset>, i: nat)
    requires IsScan(assets) && i < |assets|
    ensures assets[i].urlPath in RewritesOf(assets)
            && RewritesOf(assets)[assets[i].urlPath] == Fingerprinted(assets[i]).urlPath
  {
    var ups := Map(Rewriting, assets);
    assert forall j :: 0 <= j < |ups| ==> ups[j].0 == assets[j].urlPath;
    LastUpsertDecides(map[], ups, i);
  }

  lemma RewriteKey(assets: seq<Asset>, url: string) returns (i: nat)
    requires url in RewritesOf(assets)
    ensures i < |assets| && assets[i].urlPath == url
  {
    var ups := Map(Rewriting, assets);
    UpsertAllMeaning(map[], ups);
    i := LastOf(ups, url);
  }

  lemma RewritesAreFingerprints(assets: seq<Asset>)
    requires IsScan(assets) && QuoteFreeNames(assets)
    ensures Fingerprint.IsFingerprintMap(RewritesOf(assets))
  {
    forall url | url in RewritesOf(assets)
      ensures StartsWith(url, "/") && '"' !in url
              && exists hex :: Fingerprint.IsHexRun(hex)
                              && RewritesOf(assets)[url] == Fingerprint.FingerprintUrl(url, hex)
    {
      var i := RewriteKey(assets, url);
      RewriteOf(assets, i);
    }
  }

  /** No asset is fingerprinted to another one's plain URL. */
  predicate NoAssetIsMistaken(assets: seq<Asset>) {
    forall i, j :: 0 <= i < |assets| && 0 <= j < |assets| ==> Fingerprinted(assets[i]).urlPath != assets[j].urlPath
  }

  lemma NoChainsIffNoneMistaken(assets: seq<Asset>)
    requires IsScan(assets)
    ensures Rewrite.NoChains(RewritesOf(assets)) <==> NoAssetIsMistaken(assets)
  {
    var m := RewritesOf(assets);
    if Rewrite.NoChains(m) {
      forall i, j | 0 <= i < |assets| && 0 <= j < |assets|
        ensures Fingerprinted(assets[i]).urlPath != assets[j].urlPath
      {
        RewriteOf(assets, i);
        RewriteOf(assets, j);
      }
    }
    if NoAssetIsMistaken(assets) {
      forall url | url in m ensures m[url] !in m {
        var i := RewriteKey(assets, url);
        RewriteOf(assets, i);
        if m[url] in m { var j := RewriteKey(assets, m[url]); }
      }
    }
  }

  /** The map a production push builds gives the same templates in every iteration order iff no
      asset is fingerprinted to another one's plain URL. */
  lemma PushRewritesAreOrderIndependentIff(assets: seq<Asset>)
    requires IsScan(assets) && QuoteFreeNames(assets)
    ensures Rewrite.OrderIrrelevant(RewritesOf(assets)) <==> NoAssetIsMistaken(assets)
  {
    RewritesAreFingerprints(assets);
    Fingerprint.FingerprintMapsAreOrderIndependentIff(RewritesOf(assets));
    NoChainsIffNoneMistaken(assets);
  }

  // A name with a double quote can make two references overlap, and then the order matters although
  // no asset is mistaken: of "/a" and "/a\"/b", whichever is replaced first hides the other.

  lemma {:induction false} ReplaceNowhere(s: string, from: string, to: string)
    requires from != "" && forall i :: 0 <= i ==> !OccursAt(s, from, i)
    ensures Replace(s, from, to) == s
  {
    if |s| >= |from| {
      assert !OccursAt(s, from, 0);
      assert s[0..|from|] == s[..|from|];
      forall i | 0 <= i ensures !OccursAt(s[1..], from, i) {
        assert !OccursAt(s, from, i + 1);
        if i + 1 + |from| <= |s| { assert s[1..][i..i + |from|] == s[i + 1..i + 1 + |from|]; }
      }
      ReplaceNowhere(s[1..], from, to);
      ReplaceAtMiss(s, from, to);
      assert [s[0]] + s[1..] == s;
    }
  }

  /** `"/a.<hex>"/b"`: the short reference rewritten, the long one no longer there. */
  lemma LongReferenceIsGone(hex: string, x: string)
    requires Fingerprint.IsHexRun(hex) && x == "\"/a." + hex + "\"/b\""
    ensures forall i :: 0 <= i ==> !OccursAt(x, "\"/a\"/b\"", i)
  {
    var p, q := "\"/a\"/b\"", 4 + |hex|;
    assert forall k :: 4 <= k < q ==> x[k] == hex[k - 4];
    assert x[3] == '.' && x[q] == '"' && x[q + 1] == '/' && x[q + 2] == 'b';
    forall i | 0 <= i ensures !OccursAt(x, p, i) {
      if i + |p| <= |x| {
        assert x[i..i + |p|][0] == x[i] && x[i..i + |p|][2] == x[i + 2] && x[i..i + |p|][3] == x[i + 3];
        assert p[0] == '"' && p[2] == 'a' && p[3] == '"';
      }
    }
  }

  lemma ShortReferenceIn(rest: string, h: string)
    requires '"' !in rest
    ensures Rewrite.Pass("\"/a\"" + rest + "\"", "/a", h) == "\"" + h + "\"" + rest + "\""
  {
    JoinOfFour("/a", rest);
    assert "\"" + "/a" + "\"" + rest + "\"" == "\"/a\"" + rest + "\"";
    Rewrite.PassOverSegments(["", "/a", rest, ""], "/a", h);
    RestIsKept(rest, h);
    assert ["", "/a", rest, ""][1..] == ["/a", rest, ""] && [""] + [h, rest, ""] == ["", h, rest, ""];
    JoinOfFour(h, rest);
  }

  lemma JoinOfFour(x: string, rest: string)
    ensures Join(["", x, rest, ""], "\"") == "\"" + x + "\"" + rest + "\""
  {
    var segs := ["", x, rest, ""];
    assert segs[1..] == [x, rest, ""] && [x, rest, ""][1..] == [rest, ""] && [rest, ""][1..] == [""];
    assert Join([rest, ""], "\"") == rest + "\"" + "";
    assert Join([x, rest, ""], "\"") == x + "\"" + (rest + "\"" + "");
  }

  lemma RestIsKept(rest: string, h: string)
    ensures Rewrite.RewriteSegments(["/a", rest, ""], map["/a" := h], None) == [h, rest, ""]
  {
    var m := map["/a" := h];
    assert ["/a", rest, ""][1..] == [rest, ""] && [rest, ""][1..] == [""];
    assert Rewrite.RewriteSegments([""], m, None) == [""];
    assert Rewrite.RewriteSegments([rest, ""], m, Some("/a")) == [rest, ""];
  }

  /** So the condition on names is not idle: two scanned files of which none is mistaken, and two
      orders that store a template differently. */
  lemma QuotedNameMakesOrderMatter(a: Asset, b: Asset)
    requires a.urlPath == "/a" && b.urlPath == "/a\"/b"
    requires Fingerprint.IsHexRun(a.fingerprintHex) && Fingerprint.IsHexRun(b.fingerprintHex)
    ensures IsScan([a, b]) && NoAssetIsMistaken([a, b]) && !Rewrite.OrderIrrelevant(RewritesOf([a, b]))
  {
    var hex, hex' := a.fingerprintHex, b.fingerprintHex;
    NamesAreShort(a.urlPath, b.urlPath);
    TwoNames(a, b, hex, hex');
    ShortNamesDiffer(a, b, Rewrite.Quoted(b.urlPath));
  }

  lemma ShortNamesDiffer(a: Asset, b: Asset, html: string)
    requires StartsWith(a.urlPath, "/") && StartsWith(b.urlPath, "/") && a.urlPath != b.urlPath
    requires Fingerprint.IsHexRun(a.fingerprintHex) && Fingerprint.IsHexRun(b.fingerprintHex)
    requires |a.urlPath| < 8 < |Fingerprinted(a).urlPath| && |b.urlPath| < 8 < |Fingerprinted(b).urlPath|
    requires Rewrite.Passes(html, [Rewriting(a), Rewriting(b)]) != Rewrite.Passes(html, [Rewriting(b), Rewriting(a)])
    ensures IsScan([a, b]) && NoAssetIsMistaken([a, b]) && !Rewrite.OrderIrrelevant(RewritesOf([a, b]))
  {
    TwoFiles(a, b);
    ShortPair(a, b);
    OrderMatters(a, b, html);
  }

  lemma TwoFiles(a: Asset, b: Asset)
    requires StartsWith(a.urlPath, "/") && StartsWith(b.urlPath, "/") && a.urlPath != b.urlPath
    requires Fingerprint.IsHexRun(a.fingerprintHex) && Fingerprint.IsHexRun(b.fingerprintHex)
    ensures IsScan([a, b])
  {
  }

  lemma TwoNames(a: Asset, b: Asset, hex: string, hex': string)
    requires a.urlPath == "/a" && b.urlPath == "/a\"/b" && a.fingerprintHex == hex && b.fingerprintHex == hex'
    requires Fingerprint.IsHexRun(hex) && Fingerprint.IsHexRun(hex')
    ensures 8 < |Fingerprinted(a).urlPath| && 8 < |Fingerprinted(b).urlPath|
    ensures Rewrite.Passes(Rewrite.Quoted(b.urlPath), [Rewriting(a), Rewriting(b)])
            != Rewrite.Passes(Rewrite.Quoted(b.urlPath), [Rewriting(b), Rewriting(a)])
  {
    ShortNameUrl(a.urlPath, hex);
    LongNameUrl(b.urlPath, hex');
    OrdersDiffer(Rewriting(a), Rewriting(b), hex, hex');
  }

  lemma OrderMatters(a: Asset, b: Asset, html: string)
    requires a.urlPath != b.urlPath
    requires Rewrite.Passes(html, [Rewriting(a), Rewriting(b)]) != Rewrite.Passes(html, [Rewriting(b), Rewriting(a)])
    ensures !Rewrite.OrderIrrelevant(RewritesOf([a, b]))
  {
    BothOrders(a, b);
    TwoOrdersTell(html, [Rewriting(a), Rewriting(b)], [Rewriting(b), Rewriting(a)], RewritesOf([a, b]));
  }

  lemma TwoOrdersTell(
    html: string, o1: seq<(string, string)>, o2: seq<(string, string)>, m: map<string, string>)
    requires Rewrite.IsOrderOf(o1, m) && Rewrite.IsOrderOf(o2, m)
    requires Rewrite.Passes(html, o1) != Rewrite.Passes(html, o2)
    ensures !Rewrite.OrderIrrelevant(m)
  {
  }

  lemma ShortNameUrl(url: string, hex: string)
    requires url == "/a"
    ensures Fingerprint.FingerprintUrl(url, hex) == "/a." + hex
    ensures |Fingerprint.FingerprintUrl(url, hex)| > |hex|
  {
    ShortNameText(hex);
    UndottedUrl("", "a", url, hex, "/a." + hex);
  }

  lemma ShortNameText(hex: string)
    ensures "" + "/" + "a" == "/a" && "" + "/" + ("a" + "." + hex) == "/a." + hex
  {
  }

  lemma LongNameUrl(url: string, hex: string)
    requires url == "/a\"/b"
    ensures Fingerprint.FingerprintUrl(url, hex) == "/a\"/b." + hex
    ensures |Fingerprint.FingerprintUrl(url, hex)| > |hex|
  {
    LongNameText(hex);
    UndottedUrl("/a\"", "b", url, hex, "/a\"/b." + hex);
  }

  lemma LongNameText(hex: string)
    ensures "/a\"" + "/" + "b" == "/a\"/b" && "/a\"" + "/" + ("b" + "." + hex) == "/a\"/b." + hex
  {
  }

  lemma UndottedUrl(dir: string, file: string, url: string, hex: string, hashed: string)
    requires url == dir + "/" + file && '/' !in file && '.' !in file && hashed == dir + "/" + (file + "." + hex)
    ensures Fingerprint.FingerprintUrl(url, hex) == hashed
  {
    Fingerprint.NoDot(file);
    Fingerprint.FingerprintUnder(dir, file, hex);
  }

  /** Short names are not taken for fingerprinted ones. */
  lemma ShortIsNotMistaken(assets: seq<Asset>)
    requires forall i :: 0 <= i < |assets| ==> |assets[i].urlPath| < 8 < |Fingerprinted(assets[i]).urlPath|
    ensures NoAssetIsMistaken(assets)
  {
    forall i, j | 0 <= i < |assets| && 0 <= j < |assets| ensures Fingerprinted(assets[i]).urlPath != assets[j].urlPath {
      LongerIsOther(Fingerprinted(assets[i]).urlPath, assets[j].urlPath);
    }
  }

  lemma ShortPair(a: Asset, b: Asset)
    requires |a.urlPath| < 8 < |Fingerprinted(a).urlPath| && |b.urlPath| < 8 < |Fingerprinted(b).urlPath|
    ensures NoAssetIsMistaken([a, b])
  {
    var assets := [a, b];
    assert assets[0] == a && assets[1] == b;
    ShortIsNotMistaken(assets);
  }

  lemma LongerIsOther(s: string, t: string)
    requires |t| < |s|
    ensures s != t
  {
  }

  lemma NamesAreShort(a: string, b: string)
    requires a == "/a" && b == "/a\"/b"
    ensures StartsWith(a, "/") && StartsWith(b, "/") && a != b && |a| < 8 && |b| < 8
  {
    assert |a| == 2 && |b| == 5;
  }

  lemma BothOrders(a: Asset, b: Asset)
    requires a.urlPath != b.urlPath
    ensures Rewrite.IsOrderOf([Rewriting(a), Rewriting(b)], RewritesOf([a, b]))
    ensures Rewrite.IsOrderOf([Rewriting(b), Rewriting(a)], RewritesOf([a, b]))
  {
    TwoUpserts(Rewriting(a), Rewriting(b));
    assert Map(Rewriting, [a, b]) == [Rewriting(a), Rewriting(b)];
    OrderOfTwo(Rewriting(a), Rewriting(b));
    OrderOfTwo(Rewriting(b), Rewriting(a));
    Swapped(map[], Rewriting(a), Rewriting(b));
  }

  lemma OrderOfTwo(one: (string, string), two: (string, string))
    requires one.0 != two.0
    ensures Rewrite.IsOrderOf([one, two], map[one.0 := one.1][two.0 := two.1])
  {
    Rewrite.OrderNext([], one.0, one.1);
    Rewrite.OrderNext([one], two.0, two.1);
    assert [] + [one] == [one] && [one] + [two] == [one, two];
  }

  lemma Swapped(m: map<string, string>, one: (string, string), two: (string, string))
    requires one.0 != two.0
    ensures m[one.0 := one.1][two.0 := two.1] == m[two.0 := two.1][one.0 := one.1]
  {
  }

  lemma OrdersDiffer(one: (string, string), two: (string, string), hex: string, hex': string)
    requires one == ("/a", "/a." + hex) && two == ("/a\"/b", "/a\"/b." + hex')
    requires Fingerprint.IsHexRun(hex) && Fingerprint.IsHexRun(hex')
    ensures Rewrite.Passes(Rewrite.Quoted(two.0), [one, two]) != Rewrite.Passes(Rewrite.Quoted(two.0), [two, one])
  {
    ShortFirst(hex, two.1);
    LongFirst(hex, hex');
    LengthsDiffer(hex, hex');
    assert Rewrite.Quoted(two.0) == "\"/a\"/b\"";
  }

  lemma LengthsDiffer(hex: string, hex': string)
    ensures "\"/a." + hex + "\"/b\"" != "\"/a." + hex + "\"/b." + hex' + "\""
  {
    assert |"\"/a." + hex + "\"/b\""| == 8 + |hex| && |"\"/a." + hex + "\"/b." + hex' + "\""| == 9 + |hex| + |hex'|;
  }

  lemma TwoUpserts(a: (string, string), b: (string, string))
    ensures UpsertAll(map[], [a, b]) == map[a.0 := a.1][b.0 := b.1]
  {
    UpsertNext(map[], [], a);
    UpsertNext(map[], [a], b);
    assert [] + [a] == [a] && [a] + [b] == [a, b];
  }

  lemma ShortFirst(hex: string, h': string)
    requires Fingerprint.IsHexRun(hex)
    ensures Rewrite.Passes("\"/a\"/b\"", [("/a", "/a." + hex), ("/a\"/b", h')]) == "\"/a." + hex + "\"/b\""
  {
    var html, x := "\"/a\"/b\"", "\"/a." + hex + "\"/b\"";
    ShortReferenceIn("/b", "/a." + hex);
    assert "\"/a\"" + "/b" + "\"" == html && "\"" + ("/a." + hex) + "\"" + "/b" + "\"" == x;
    LongReferenceIsGone(hex, x);
    assert Rewrite.Quoted("/a\"/b") == html;
    ReplaceNowhere(x, html, Rewrite.Quoted(h'));
    TwoPasses(html, ("/a", "/a." + hex), ("/a\"/b", h'));
  }

  lemma LongFirst(hex: string, hex': string)
    requires '"' !in hex'
    ensures Rewrite.Passes("\"/a\"/b\"", [("/a\"/b", "/a\"/b." + hex'), ("/a", "/a." + hex)])
            == "\"/a." + hex + "\"/b." + hex' + "\""
  {
    var html, h' := "\"/a\"/b\"", "/a\"/b." + hex';
    assert Rewrite.Quoted("/a\"/b") == html;
    ReplaceAtHit(html, "", Rewrite.Quoted(h'));
    assert html + "" == html && Replace("", html, Rewrite.Quoted(h')) == "";
    assert Rewrite.Quoted(h') + "" == "\"/a\"" + ("/b." + hex') + "\"";
    ShortReferenceIn("/b." + hex', "/a." + hex);
    assert "\"" + ("/a." + hex) + "\"" + ("/b." + hex') + "\"" == "\"/a." + hex + "\"/b." + hex' + "\"";
    TwoPasses(html, ("/a\"/b", h'), ("/a", "/a." + hex));
  }

  lemma TwoPasses(html: string, a: (string, string), b: (string, string))
    ensures Rewrite.Passes(html, [a, b]) == Rewrite.Pass(Rewrite.Pass(html, a.0, a.1), b.0, b.1)
  {
    Rewrite.OrderNext([], a.0, a.1);
    Rewrite.OrderNext([a], b.0, b.1);
    assert [] + [a] == [a] && [a] + [b] == [a, b];
  }

  // ---- Pushing twice ----

  /** The second push changes nothing but the ledger. */
  predicate ChangesOnlyLedger(t: Tables, plan: Plan, plan': Plan) {
    var once := Pushed(t, plan);
    Pushed(once, plan') == once.(deployments := once.deployments + [DeploymentOf(plan')])
  }

  /** The two runs push one tree, the first onto these tables, each with its own hash order. */
  ghost predicate PushedTwice(assets: seq<Asset>, server: ServerSection, t: Tables, plan: Plan, plan': Plan) {
    plan.app.assets == assets && plan.app.server == server && plan'.app == plan.app
    && plan.Valid() && plan'.Valid() && Validates(t, plan)
  }

  predicate QuoteFreeNames(assets: seq<Asset>) { forall i :: 0 <= i < |assets| ==> '"' !in assets[i].urlPath }

  /** Whatever the tables, the pages and the hash orders of two pushes of one tree are, the second
      is accepted and changes only the ledger, iff the push is not a production push or no asset is
      fingerprinted to another one's plain URL. */
  lemma SecondPushChangesOnlyLedgerIff(assets: seq<Asset>, server: ServerSection)
    requires IsScan(assets) && QuoteFreeNames(assets)
    ensures (forall t, plan, plan' :: PushedTwice(assets, server, t, plan, plan') ==>
               Validates(Pushed(t, plan), plan') && ChangesOnlyLedger(t, plan, plan'))
            <==> (IsProduction(server) ==> NoAssetIsMistaken(assets))
  {
    if IsProduction(server) ==> NoAssetIsMistaken(assets) {
      forall t, plan, plan' | PushedTwice(assets, server, t, plan, plan')
        ensures Validates(Pushed(t, plan), plan') && ChangesOnlyLedger(t, plan, plan')
      {
        SecondPushIsQuiet(assets, server, t, plan, plan');
      }
    } else {
      var t, plan, plan' := SecondPushIsNotQuiet(assets, server);
    }
  }

  lemma SecondPushIsQuiet(assets: seq<Asset>, server: ServerSection, t: Tables, plan: Plan, plan': Plan)
    requires IsScan(assets) && QuoteFreeNames(assets) && (IsProduction(server) ==> NoAssetIsMistaken(assets))
    requires PushedTwice(assets, server, t, plan, plan')
    ensures Validates(Pushed(t, plan), plan') && ChangesOnlyLedger(t, plan, plan')
  {
    RewritesAreFingerprints(assets);
    Fingerprint.FingerprintMapsAreOrderIndependentIff(RewritesOf(assets));
    NoChainsIffNoneMistaken(assets);
    PushProperties.RunsStoreTemplatesAlike(plan, plan');
    PushProperties.StoreAlikeIffOnlyLedger(t, plan, plan');
  }

  /** A static page with this template, in a tree of its own. */
  function StaticPage(html: string): Entry {
    Entry("GET", "/", SCHEMA + "pages__index", Some(Template("pages/index.html", html)), None)
  }

  const EMPTY := Tables(map[], map[], map[], map[], map[], [])

  lemma StaticPageValidates(plan: Plan, html: string)
    requires plan.app.entries == [StaticPage(html)]
    ensures Validates(EMPTY, plan)
  {
    var e, name := StaticPage(html), "pages__index";
    assert (SCHEMA + name)[|SCHEMA|..] == name && StartsWith(SCHEMA + name, SCHEMA);
    assert plan.app.entries[..0] == [] && DefineAll(map[], []) == map[] && plan.app.entries[0] == e;
    var functions := DefineAll(map[], plan.app.entries);
    assert functions == map[] + Synthesized(e.handlerName);
    assert Overloads(functions, name) == {FnId(name, ["json"])};
    assert HandlerFault(functions, e) == None;
  }

  /** When an asset is mistaken, some template is stored differently by two runs. */
  lemma SecondPushIsNotQuiet(assets: seq<Asset>, server: ServerSection) returns (t: Tables, plan: Plan, plan': Plan)
    requires IsScan(assets) && QuoteFreeNames(assets) && IsProduction(server) && !NoAssetIsMistaken(assets)
    ensures PushedTwice(assets, server, t, plan, plan') && !ChangesOnlyLedger(t, plan, plan')
  {
    var html, o1, o2 := TellingPage(assets);
    var app := App([StaticPage(html)], assets, server, None);
    t, plan, plan' := EMPTY, Plan(app, o1, 0), Plan(app, o2, 0);
    StaticPageValidates(plan, html);
    assert PushProperties.IsLastTemplate(app.entries, 0);
    assert plan.ContentOf(html) != plan'.ContentOf(html);
    PushProperties.StoreAlikeIffOnlyLedger(t, plan, plan');
  }

  lemma TellingPage(assets: seq<Asset>)
    returns (html: string, o1: seq<(string, string)>, o2: seq<(string, string)>)
    requires IsScan(assets) && QuoteFreeNames(assets) && !NoAssetIsMistaken(assets)
    ensures Rewrite.IsOrderOf(o1, RewritesOf(assets)) && Rewrite.IsOrderOf(o2, RewritesOf(assets))
    ensures Rewrite.Passes(html, o1) != Rewrite.Passes(html, o2)
  {
    PushRewritesAreOrderIndependentIff(assets);
    var m := RewritesOf(assets);
    html, o1, o2 :| Rewrite.IsOrderOf(o1, m) && Rewrite.IsOrderOf(o2, m)
                    && Rewrite.Passes(html, o1) != Rewrite.Passes(html, o2);
  }

  /** The failing trees: next to any asset, a file whose URL is what the asset is fingerprinted to. */
  lemma FingerprintedNeighbourIsMistaken(a: Asset, b: Asset)
    requires StartsWith(a.urlPath, "/") && '"' !in a.urlPath
    requires Fingerprint.IsHexRun(a.fingerprintHex) && Fingerprint.IsHexRun(b.fingerprintHex)
    requires b.urlPath == Fingerprinted(a).urlPath
    ensures IsScan([a, b]) && QuoteFreeNames([a, b]) && !NoAssetIsMistaken([a, b])
  {
    var assets := [a, b];
    Fingerprint.FingerprintChangesUrl(a.urlPath, a.fingerprintHex);
    Fingerprint.FingerprintLeadsWithSlash(a.urlPath, a.fingerprintHex);
    assert Fingerprinted(assets[0]).urlPath == assets[1].urlPath;
  }

  /** For one, `public/a.css` next to `public/a.<hex>.css`, with the digits of its hash. */
  lemma StylesheetIsMistaken(value: AssetValue, value': AssetValue, hex: string, hex': string)
    requires Fingerprint.IsHexRun(hex) && Fingerprint.IsHexRun(hex')
    ensures var assets := [Asset("/a.css", value, hex), Asset("/a." + hex + ".css", value', hex')];
            IsScan(assets) && QuoteFreeNames(assets) && !NoAssetIsMistaken(assets)
  {
    StylesheetUrl("/a.css", "a.css", hex);
    FingerprintedNeighbourIsMistaken(Asset("/a.css", value, hex), Asset("/a." + hex + ".css", value', hex'));
  }

  lemma StylesheetUrl(url: string, file: string, hex: string)
    requires file == "a.css" && url == "/" + file
    ensures Fingerprint.FingerprintUrl(url, hex) == "/a." + hex + ".css"
  {
    StylesheetFile(hex);
    StylesheetText(hex);
    RootUrl("", file, url, hex);
  }

  lemma StylesheetText(hex: string)
    ensures "/" + ("a." + hex + ".css") == "/a." + hex + ".css"
  {
  }

  lemma RootUrl(dir: string, file: string, url: string, hex: string)
    requires dir == "" && url == "/" + file && '/' !in file
    ensures Fingerprint.FingerprintUrl(url, hex) == "/" + Fingerprint.FingerprintFile(file, hex)
  {
    Fingerprint.FingerprintUnder(dir, file, hex);
    assert dir + "/" + file == url;
    assert dir + "/" + Fingerprint.FingerprintFile(file, hex) == "/" + Fingerprint.FingerprintFile(file, hex);
  }

  lemma StylesheetFile(hex: string)
    ensures Fingerprint.FingerprintFile("a.css", hex) == "a." + hex + ".css"
  {
    assert "a.css" == "a" + ['.'] + "css";
    RSplitOnceIs("a", "css", '.');
    assert "a" + "." + hex + "." + "css" == "a." + hex + ".css";
  }

  // ---- One row per asset ----

  lemma PushedUrlsAreDistinct(plan: Plan)
    requires IsScan(plan.app.assets)
    ensures |plan.Assets()| == |plan.app.assets|
    ensures forall i, j :: 0 <= i < j < |plan.Assets()| ==> plan.Assets()[i].urlPath != plan.Assets()[j].urlPath
  {
    var scanned, assets := plan.app.assets, plan.Assets();
    forall i, j | 0 <= i < j < |assets| ensures assets[i].urlPath != assets[j].urlPath {
      if IsProduction(plan.app.server) && assets[i].urlPath == assets[j].urlPath {
        Fingerprint.HexRunIsHash(scanned[i].fingerprintHex);
        Fingerprint.HexRunIsHash(scanned[j].fingerprintHex);
        Fingerprint.FingerprintIsInjective(
          scanned[i].urlPath, scanned[i].fingerprintHex, scanned[j].urlPath, scanned[j].fingerprintHex);
      }
    }
  }

  lemma {:induction false} DistinctKeysCount<V>(ups: seq<(string, V)>)
    requires forall i, j :: 0 <= i < j < |ups| ==> ups[i].0 != ups[j].0
    ensures |KeysOf(ups)| == |ups|
  {
    if ups != [] {
      var n := |ups| - 1;
      DistinctKeysCount(ups[..n]);
      assert ups == ups[..n] + [ups[n]];
      assert KeysOf(ups) == KeysOf(ups[..n]) + {ups[n].0};
    }
  }

  /** No asset overwrites another: a push stores as many rows as files were scanned, fingerprinted
      or not, each with its own content. */
  lemma EveryAssetKeepsItsRow(t: Tables, plan: Plan)
    requires IsScan(plan.app.assets)
    ensures var rows := Pushed(t, plan).assets;
            |rows| == |plan.app.assets|
            && forall a :: a in plan.Assets() ==> a.urlPath in rows && rows[a.urlPath] == a.value
  {
    PushedUrlsAreDistinct(plan);
    AssetRowsAreCounted(t, plan);
    forall a | a in plan.Assets()
      ensures a.urlPath in Pushed(t, plan).assets && Pushed(t, plan).assets[a.urlPath] == a.value
    {
      var i :| 0 <= i < |plan.Assets()| && plan.Assets()[i] == a;
      PushProperties.AssetContentsMatchTree(t, plan, i);
    }
  }

  lemma AssetRowsAreCounted(t: Tables, plan: Plan)
    requires forall i, j :: 0 <= i < j < |plan.Assets()| ==> plan.Assets()[i].urlPath != plan.Assets()[j].urlPath
    ensures |Pushed(t, plan).assets| == |plan.Assets()|
  {
    var ups := AssetUpserts(plan.Assets());
    assert forall i :: 0 <= i < |ups| ==> ups[i].0 == plan.Assets()[i].urlPath;
    DistinctKeysCount(ups);
    ReconciledKeys(t.assets, ups);
  }

  lemma ReconciledKeys<V>(rows: map<string, V>, ups: seq<(string, V)>)
    ensures |Reconciled(UpsertAll(rows, ups), KeysOf(ups))| == |KeysOf(ups)|
  {
    UpsertAllMeaning(rows, ups);
    assert Reconciled(UpsertAll(rows, ups), KeysOf(ups)).Keys == KeysOf(ups);
  }
}
