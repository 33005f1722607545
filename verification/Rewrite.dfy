/** Rewriting asset references in templates. The source replaces one quoted URL after another, in
    the unspecified order of a hash map; the result is that of one simultaneous rewriting of the
    quote-delimited segments, for every order, iff no rewritten URL is itself rewritten. */
module Rewrite {
  import opened Prelude
  import opened Text

  function Quoted(s: string): string { "\"" + s + "\"" }

  /** One turn of the loop. */
  function Pass(html: string, canonical: string, hashed: string): string {
    Replace(html, Quoted(canonical), Quoted(hashed))
  }

  /** The loop, over the map's entries in the order the iterator yields them. */
  function Passes(html: string, order: seq<(string, string)>): string {
    if order == [] then html
    else
      var n := |order| - 1;
      Pass(Passes(html, order[..n]), order[n].0, order[n].1)
  }

  predicate DistinctKeys(order: seq<(string, string)>) {
    forall i, j :: 0 <= i < j < |order| ==> order[i].0 != order[j].0
  }

  function MapOf(order: seq<(string, string)>): map<string, string> {
    if order == [] then map[]
    else
      var n := |order| - 1;
      MapOf(order[..n])[order[n].0 := order[n].1]
  }

  /** An iteration order of the map: every entry once. */
  predicate IsOrderOf(order: seq<(string, string)>, rewrites: map<string, string>) {
    DistinctKeys(order) && MapOf(order) == rewrites
  }

  lemma {:induction false} KeysOfOrder(order: seq<(string, string)>, k: string)
    ensures k in MapOf(order) <==> exists i :: 0 <= i < |order| && order[i].0 == k
  {
    if order != [] {
      var n := |order| - 1;
      KeysOfOrder(order[..n], k);
      assert order == order[..n] + [order[n]];
    }
  }

  lemma OrderNext(order: seq<(string, string)>, k: string, h: string)
    ensures MapOf(order + [(k, h)]) == MapOf(order)[k := h]
    ensures forall html :: Passes(html, order + [(k, h)]) == Pass(Passes(html, order), k, h)
    ensures DistinctKeys(order) && k !in MapOf(order) ==> DistinctKeys(order + [(k, h)])
  {
    assert (order + [(k, h)])[..|order|] == order;
    if k !in MapOf(order) {
      forall i | 0 <= i < |order| ensures order[i].0 != k { KeysOfOrder(order, k); }
    }
  }

  method RewriteAssetRefs(html: string, rewrites: map<string, string>)
    returns (out: string, ghost order: seq<(string, string)>)
    ensures IsOrderOf(order, rewrites) && out == Passes(html, order)
    ensures QuoteFree(rewrites) && NoChains(rewrites) ==> out == RewriteOnce(html, rewrites)
  {
    out := html;
    order := [];
    var todo := rewrites.Keys;
    while todo != {}
      invariant todo <= rewrites.Keys
      invariant DistinctKeys(order) && MapOf(order) == map k | k in rewrites && k !in todo :: rewrites[k]
      invariant out == Passes(html, order)
      decreases todo
    {
      var canonical :| canonical in todo;
      var hashed := rewrites[canonical];
      var from := "\"" + canonical + "\"";
      var to := "\"" + hashed + "\"";
      out := Replace(out, from, to);
      OrderNext(order, canonical, hashed);
      order := order + [(canonical, hashed)];
      todo := todo - {canonical};
    }
    if QuoteFree(rewrites) && NoChains(rewrites) { EveryOrderIsSimultaneous(html, order, rewrites); }
  }

  // ---- The simultaneous rewriting ----

  /** Rewrites the segments after a first one. Two adjacent segments share a quote, so a segment
      equal to the one just rewritten stays; the last segment has no closing quote. */
  function RewriteSegments(segs: seq<string>, rewrites: map<string, string>, blocked: Option<string>): (r: seq<string>)
    ensures |r| == |segs|
  {
    if segs == [] then []
    else if |segs| > 1 && segs[0] in rewrites && blocked != Some(segs[0]) then
      [rewrites[segs[0]]] + RewriteSegments(segs[1..], rewrites, Some(segs[0]))
    else [segs[0]] + RewriteSegments(segs[1..], rewrites, None)
  }

  function RewriteOnce(html: string, rewrites: map<string, string>): string {
    var segs := Split(html, '"');
    Join([segs[0]] + RewriteSegments(segs[1..], rewrites, None), "\"")
  }

  predicate QuoteFree(rewrites: map<string, string>) {
    forall k :: k in rewrites ==> '"' !in k && '"' !in rewrites[k]
  }

  /** No rewritten URL is itself rewritten. */
  predicate NoChains(rewrites: map<string, string>) {
    forall k :: k in rewrites ==> rewrites[k] !in rewrites
  }

  predicate AllQuoteFree(segs: seq<string>) {
    forall i :: 0 <= i < |segs| ==> '"' !in segs[i]
  }

  /** Only whole segments between two quotes change, and only to what the map says; and each
      segment that is a key does change unless it equals the segment before it. */
  lemma {:induction false} OnlyWholeSegmentsChange(segs: seq<string>, rewrites: map<string, string>,
                                                   blocked: Option<string>, i: nat)
    requires i < |segs|
    ensures var r := RewriteSegments(segs, rewrites, blocked)[i];
            r == segs[i] || (segs[i] in rewrites && i < |segs| - 1 && r == rewrites[segs[i]])
    ensures segs[i] in rewrites && i < |segs| - 1
            && (if i == 0 then blocked != Some(segs[0]) else segs[i - 1] != segs[i]) ==>
              RewriteSegments(segs, rewrites, blocked)[i] == rewrites[segs[i]]
  {
    if i > 0 {
      var b := if |segs| > 1 && segs[0] in rewrites && blocked != Some(segs[0]) then Some(segs[0]) else None;
      OnlyWholeSegmentsChange(segs[1..], rewrites, b, i - 1);
    }
  }

  lemma {:induction false} RewrittenAreQuoteFree(segs: seq<string>, rewrites: map<string, string>,
                                                 blocked: Option<string>)
    requires AllQuoteFree(segs) && QuoteFree(rewrites)
    ensures AllQuoteFree(RewriteSegments(segs, rewrites, blocked))
  {
    forall i | 0 <= i < |segs| ensures '"' !in RewriteSegments(segs, rewrites, blocked)[i] {
      OnlyWholeSegmentsChange(segs, rewrites, blocked, i);
    }
  }

  // ---- One pass rewrites one key ----

  /** No match of a pattern that begins with a quote starts in quote-free text. */
  lemma {:induction false} ReplaceSkips(a: string, t: string, from: string, to: string)
    requires '"' !in a && from != "" && from[0] == '"'
    ensures Replace(a + t, from, to) == a + Replace(t, from, to)
  {
    if a == "" {
      assert a + t == t;
    } else {
      var s := a + t;
      assert s[1..] == a[1..] + t;
      ReplaceSkips(a[1..], t, from, to);
      assert |from| <= |s| ==> s[..|from|][0] == a[0];
      assert [a[0]] + (a[1..] + Replace(t, from, to)) == a + Replace(t, from, to);
      ReplaceAtMiss(s, from, to);
    }
  }

  /** At a quote, the quoted key matches only if it is the next segment and that one is closed. */
  lemma QuotedStarts(segs: seq<string>, k: string)
    requires segs != [] && AllQuoteFree(segs) && '"' !in k
    requires StartsWith("\"" + Join(segs, "\""), Quoted(k))
    ensures |segs| > 1 && segs[0] == k
  {
    var joined := Join(segs, "\"");
    AfterOpeningQuote(joined, k);
    OnlySplitting(segs, k, joined[|k| + 1..]);
  }

  lemma AfterOpeningQuote(joined: string, k: string)
    requires StartsWith("\"" + joined, Quoted(k))
    ensures |joined| > |k| && joined == k + ['"'] + joined[|k| + 1..]
  {
    var t, q := "\"" + joined, Quoted(k);
    assert forall i :: 0 <= i < |q| ==> t[i] == t[..|q|][i] == q[i];
    assert forall i :: 0 <= i < |k| ==> joined[i] == t[i + 1] == q[i + 1] == k[i];
    assert joined[|k|] == t[|k| + 1] == q[|k| + 1] == '"';
  }

  lemma OnlySplitting(segs: seq<string>, k: string, after: string)
    requires segs != [] && AllQuoteFree(segs) && '"' !in k
    requires Join(segs, "\"") == k + ['"'] + after
    ensures |segs| > 1 && segs[0] == k
  {
    assert ['"'] == "\"";
    SplitHead(k, after, '"');
    SplitOfJoin(segs, '"');
  }

  lemma JoinCons(a: string, parts: seq<string>, sep: string)
    requires parts != []
    ensures Join([a] + parts, sep) == a + sep + Join(parts, sep)
  {
    assert ([a] + parts)[1..] == parts;
  }

  /** The key is the segment after the next quote: both are consumed. */
  lemma PassHit(segs: seq<string>, k: string, h: string)
    requires |segs| > 1 && AllQuoteFree(segs) && segs[0] == k
    requires Replace(Join(segs[1..], "\""), Quoted(k), Quoted(h))
             == Join([segs[1]] + RewriteSegments(segs[2..], map[k := h], None), "\"")
    ensures Replace("\"" + Join(segs, "\""), Quoted(k), Quoted(h))
            == "\"" + Join(RewriteSegments(segs, map[k := h], None), "\"")
  {
    var r := [segs[1]] + RewriteSegments(segs[2..], map[k := h], None);
    var after := Join(segs[1..], "\"");
    QuotedThen(segs);
    ReplaceAtHit(Quoted(k), after, Quoted(h));
    HitThenKept(segs, k, h);
    JoinCons(h, r, "\"");
    QuotedAppend(h, Join(r, "\""));
  }

  lemma QuotedAppend(h: string, rest: string)
    ensures Quoted(h) + rest == "\"" + (h + "\"" + rest)
  {
  }

  lemma HitThenKept(segs: seq<string>, k: string, h: string)
    requires |segs| > 1 && segs[0] == k
    ensures RewriteSegments(segs, map[k := h], None)
            == [h] + ([segs[1]] + RewriteSegments(segs[2..], map[k := h], None))
  {
    assert segs[1..][1..] == segs[2..];
    assert RewriteSegments(segs[1..], map[k := h], Some(k))
           == [segs[1]] + RewriteSegments(segs[2..], map[k := h], None);
  }

  lemma QuotedThen(segs: seq<string>)
    requires |segs| > 1
    ensures "\"" + Join(segs, "\"") == Quoted(segs[0]) + Join(segs[1..], "\"")
  {
  }

  lemma PassMiss(segs: seq<string>, k: string, h: string)
    requires segs != [] && AllQuoteFree(segs) && '"' !in k && !(|segs| > 1 && segs[0] == k)
    requires Replace(Join(segs, "\""), Quoted(k), Quoted(h))
             == Join([segs[0]] + RewriteSegments(segs[1..], map[k := h], None), "\"")
    ensures Replace("\"" + Join(segs, "\""), Quoted(k), Quoted(h))
            == "\"" + Join(RewriteSegments(segs, map[k := h], None), "\"")
  {
    if StartsWith("\"" + Join(segs, "\""), Quoted(k)) { QuotedStarts(segs, k); }
    ReplaceSkipsQuote(Join(segs, "\""), Quoted(k), Quoted(h));
  }

  lemma ReplaceSkipsQuote(rest: string, from: string, to: string)
    requires from != "" && !StartsWith("\"" + rest, from)
    ensures Replace("\"" + rest, from, to) == "\"" + Replace(rest, from, to)
  {
    assert ("\"" + rest)[1..] == rest;
    ReplaceAtMiss("\"" + rest, from, to);
  }

  lemma {:induction false} PassOverSegments(segs: seq<string>, k: string, h: string)
    requires segs != [] && AllQuoteFree(segs) && '"' !in k
    ensures Replace(Join(segs, "\""), Quoted(k), Quoted(h))
            == Join([segs[0]] + RewriteSegments(segs[1..], map[k := h], None), "\"")
    decreases |segs|
  {
    var from, to := Quoted(k), Quoted(h);
    var a, rest := segs[0], segs[1..];
    if rest == [] {
      ReplaceSkips(a, "", from, to);
      assert a + "" == a;
    } else {
      if |rest| > 1 && rest[0] == k {
        PassOverSegments(rest[1..], k, h);
        assert rest[1..][1..] == rest[2..];
        PassHit(rest, k, h);
      } else {
        PassOverSegments(rest, k, h);
        PassMiss(rest, k, h);
      }
      PassFirst(a, rest, RewriteSegments(rest, map[k := h], None), from, to);
    }
  }

  lemma PassFirst(a: string, rest: seq<string>, rewritten: seq<string>, from: string, to: string)
    requires '"' !in a && rest != [] && rewritten != [] && StartsWith(from, "\"")
    requires Replace("\"" + Join(rest, "\""), from, to) == "\"" + Join(rewritten, "\"")
    ensures Replace(Join([a] + rest, "\""), from, to) == Join([a] + rewritten, "\"")
  {
    JoinCons(a, rest, "\"");
    JoinCons(a, rewritten, "\"");
    ReplaceSkips(a, "\"" + Join(rest, "\""), from, to);
    assert a + ("\"" + Join(rest, "\"")) == a + "\"" + Join(rest, "\"");
    assert a + ("\"" + Join(rewritten, "\"")) == a + "\"" + Join(rewritten, "\"");
  }

  lemma PassIsRewriteOfOne(html: string, k: string, h: string)
    requires '"' !in k
    ensures Pass(html, k, h) == RewriteOnce(html, map[k := h])
  {
    JoinOfSplit(html, '"');
    PassOverSegments(Split(html, '"'), k, h);
  }

  // ---- Passes compose ----

  /** What each pass has just rewritten, and what the composed rewriting has. */
  predicate BlocksAgree(b1: Option<string>, b2: Option<string>, b: Option<string>, k: string) {
    (b1.None? && b2.None? && b.None?)
    || (b1.Some? && b1.value != k && b2.None? && b == b1)
    || (b1.None? && b2 == Some(k) && b == Some(k))
  }

  lemma {:induction false} RewritesCompose(segs: seq<string>, m: map<string, string>, k: string, h: string,
                                           b1: Option<string>, b2: Option<string>, b: Option<string>)
    requires k !in m && (forall x :: x in m ==> m[x] != k) && BlocksAgree(b1, b2, b, k)
    ensures RewriteSegments(RewriteSegments(segs, m, b1), map[k := h], b2) == RewriteSegments(segs, m[k := h], b)
  {
    if segs != [] {
      var x, rest := segs[0], segs[1..];
      var first := RewriteSegments(segs, m, b1);
      if |segs| > 1 && x in m && b1 != Some(x) {
        RewritesCompose(rest, m, k, h, Some(x), None, Some(x));
        assert first[1..] == RewriteSegments(rest, m, Some(x));
      } else if |segs| > 1 && x == k && b2 != Some(k) {
        RewritesCompose(rest, m, k, h, None, Some(k), Some(k));
        assert first[1..] == RewriteSegments(rest, m, None);
      } else {
        RewritesCompose(rest, m, k, h, None, None, None);
        assert first[1..] == RewriteSegments(rest, m, None);
      }
    }
  }

  lemma {:induction false} NothingToRewrite(segs: seq<string>, b: Option<string>)
    ensures RewriteSegments(segs, map[], b) == segs
  {
    if segs != [] { NothingToRewrite(segs[1..], None); }
  }

  lemma SegmentsOfRewritten(html: string, m: map<string, string>)
    requires QuoteFree(m)
    ensures var segs := Split(html, '"');
            Split(RewriteOnce(html, m), '"') == [segs[0]] + RewriteSegments(segs[1..], m, None)
  {
    var segs := Split(html, '"');
    var r := RewriteSegments(segs[1..], m, None);
    RewrittenAreQuoteFree(segs[1..], m, None);
    assert AllQuoteFree([segs[0]] + r);
    SplitOfJoin([segs[0]] + r, '"');
    assert "\"" == ['"'];
  }

  lemma {:induction false} PassesAreSimultaneous(html: string, order: seq<(string, string)>)
    requires QuoteFree(MapOf(order)) && NoChains(MapOf(order)) && DistinctKeys(order)
    ensures Passes(html, order) == RewriteOnce(html, MapOf(order))
  {
    var segs := Split(html, '"');
    if order == [] {
      NothingToRewrite(segs[1..], None);
      assert [segs[0]] + segs[1..] == segs;
      JoinOfSplit(html, '"');
    } else {
      var n := |order| - 1;
      var (k, h) := order[n];
      var m := MapOf(order[..n]);
      FrontIsSmaller(order);
      PassesAreSimultaneous(html, order[..n]);
      ComposeOne(html, m, k, h);
    }
  }

  /** Dropping the last entry keeps the conditions, and its key is new. */
  lemma FrontIsSmaller(order: seq<(string, string)>)
    requires order != [] && QuoteFree(MapOf(order)) && NoChains(MapOf(order)) && DistinctKeys(order)
    ensures var n := |order| - 1;
            var (k, h) := order[n];
            var m := MapOf(order[..n]);
            MapOf(order) == m[k := h] && k !in m && QuoteFree(m) && NoChains(m) && DistinctKeys(order[..n])
            && '"' !in k && forall x :: x in m ==> m[x] != k
  {
    var n := |order| - 1;
    var (k, h) := order[n];
    var m, whole := MapOf(order[..n]), MapOf(order);
    KeysOfOrder(order[..n], k);
    assert forall x :: x in m ==> x in whole && whole[x] == m[x];
    assert k in whole;
  }

  lemma ComposeOne(html: string, m: map<string, string>, k: string, h: string)
    requires QuoteFree(m) && k !in m && '"' !in k && forall x :: x in m ==> m[x] != k
    ensures Pass(RewriteOnce(html, m), k, h) == RewriteOnce(html, m[k := h])
  {
    var segs := Split(html, '"');
    PassIsRewriteOfOne(RewriteOnce(html, m), k, h);
    SegmentsOfRewritten(html, m);
    RewritesCompose(segs[1..], m, k, h, None, None, None);
    var r := RewriteSegments(segs[1..], m, None);
    assert ([segs[0]] + r)[1..] == r;
  }

  lemma EveryOrderIsSimultaneous(html: string, order: seq<(string, string)>, m: map<string, string>)
    requires QuoteFree(m) && NoChains(m) && IsOrderOf(order, m)
    ensures Passes(html, order) == RewriteOnce(html, m)
  {
    PassesAreSimultaneous(html, order);
  }

  // ---- Exactly when the order does not matter ----

  ghost predicate OrderIrrelevant(m: map<string, string>) {
    forall html, o1, o2 :: IsOrderOf(o1, m) && IsOrderOf(o2, m) ==> Passes(html, o1) == Passes(html, o2)
  }

  /** A pass over one quoted segment. */
  lemma PassOverOne(x: string, k: string, h: string)
    requires '"' !in x && '"' !in k
    ensures Pass(Quoted(x), k, h) == Quoted(if x == k then h else x)
  {
    var segs := ["", x, ""];
    assert segs[1..] == [x, ""] && segs[1..][1..] == [""];
    assert Join(segs[1..], "\"") == x + "\"" + "";
    assert Join(segs, "\"") == Quoted(x);
    PassOverSegments(segs, k, h);
    var r := RewriteSegments(segs[1..], map[k := h], None);
    assert r == [if x == k then h else x, ""];
    assert r[1..] == [""];
    JoinCons("", r, "\"");
  }

  lemma {:induction false} PassesOverOther(x: string, order: seq<(string, string)>)
    requires '"' !in x && forall i :: 0 <= i < |order| ==> '"' !in order[i].0 && order[i].0 != x
    ensures Passes(Quoted(x), order) == Quoted(x)
  {
    if order != [] {
      var n := |order| - 1;
      PassesOverOther(x, order[..n]);
      PassOverOne(x, order[n].0, order[n].1);
    }
  }

  lemma {:induction false} SomeOrder(m: map<string, string>) returns (order: seq<(string, string)>)
    ensures IsOrderOf(order, m)
    decreases |m|
  {
    order := [];
    if k :| k in m {
      order := SomeOrder(m - {k});
      OrderNext(order, k, m[k]);
      assert (m - {k})[k := m[k]] == m;
      order := order + [(k, m[k])];
    }
  }

  lemma {:induction false} PassesAppend(html: string, a: seq<(string, string)>, b: seq<(string, string)>)
    ensures Passes(html, a + b) == Passes(Passes(html, a), b)
  {
    if b == [] {
      assert a + b == a;
    } else {
      var n := |b| - 1;
      assert (a + b)[..|a| + n] == a + b[..n];
      PassesAppend(html, a, b[..n]);
    }
  }

  lemma EntriesAreOf(order: seq<(string, string)>, m: map<string, string>)
    requires IsOrderOf(order, m)
    ensures forall i :: 0 <= i < |order| ==> order[i].0 in m
  {
    forall i | 0 <= i < |order| ensures order[i].0 in m { KeysOfOrder(order, order[i].0); }
  }

  /** Rewriting the end of a chain before its start leaves the middle. */
  lemma StartOfChainLast(m: map<string, string>, k: string, others: seq<(string, string)>)
    requires QuoteFree(m) && k in m && forall i :: 0 <= i < |others| ==> others[i].0 in m && others[i].0 != k
    ensures Passes(Quoted(k), others + [(k, m[k])]) == Quoted(m[k])
  {
    PassesOverOther(k, others);
    OrderNext(others, k, m[k]);
    PassOverOne(k, k, m[k]);
  }

  /** Rewriting the start of a chain first rewrites its middle later. */
  lemma StartOfChainFirst(m: map<string, string>, k: string, others: seq<(string, string)>)
    requires QuoteFree(m) && k in m && m[k] in m
    requires forall i :: 0 <= i < |others| ==> others[i].0 in m && others[i].0 != m[k]
    ensures Passes(Quoted(k), [(k, m[k])] + (others + [(m[k], m[m[k]])])) == Quoted(m[m[k]])
  {
    var l := m[k];
    PassesAppend(Quoted(k), [(k, l)], others + [(l, m[l])]);
    OrderNext([], k, l);
    assert [] + [(k, l)] == [(k, l)];
    PassOverOne(k, k, l);
    StartOfChainLast(m, l, others);
  }

  lemma QuotedIsInjective(x: string, y: string)
    requires Quoted(x) == Quoted(y)
    ensures x == y
  {
    assert Quoted(x)[1..|x| + 1] == x && Quoted(y)[1..|y| + 1] == y;
  }

  /** Moving the first entry to the end makes another order of the same map. */
  lemma {:induction false} RotatedOrder(k: string, h: string, rest: seq<(string, string)>)
    requires forall i :: 0 <= i < |rest| ==> rest[i].0 != k
    ensures MapOf([(k, h)] + rest) == MapOf(rest)[k := h]
    ensures DistinctKeys(rest) ==> DistinctKeys([(k, h)] + rest)
  {
    if rest == [] {
      assert [(k, h)] + rest == [] + [(k, h)];
      OrderNext([], k, h);
    } else {
      var n := |rest| - 1;
      RotatedOrder(k, h, rest[..n]);
      assert ([(k, h)] + rest)[..n + 1] == [(k, h)] + rest[..n];
    }
  }

  lemma ChainMakesOrderMatter(m: map<string, string>, k: string)
    requires QuoteFree(m) && k in m && m[k] in m && m[k] != k && m[m[k]] != m[k]
    ensures !OrderIrrelevant(m)
  {
    var l := m[k];
    var others := SomeOrder(m - {k, l});
    EntriesAreOf(others, m - {k, l});
    OrderNext(others, l, m[l]);
    var rest := others + [(l, m[l])];
    var kFirst, kLast := [(k, l)] + rest, rest + [(k, l)];
    forall i | 0 <= i < |rest| ensures rest[i].0 != k && rest[i].0 in m {}
    RotatedOrder(k, l, rest);
    OrderNext(rest, k, l);
    assert (m - {k, l})[l := m[l]][k := l] == m;
    assert k !in MapOf(rest) by { KeysOfOrder(rest, k); }
    StartOfChainLast(m, k, rest);
    StartOfChainFirst(m, k, others);
    if Quoted(l) == Quoted(m[l]) { QuotedIsInjective(l, m[l]); }
    assert Passes(Quoted(k), kLast) != Passes(Quoted(k), kFirst);
  }

  /** For maps that change every URL, as fingerprinting does: all orders agree on all templates
      iff no fingerprinted URL is itself a key. */
  lemma OrderIrrelevantIffNoChains(m: map<string, string>)
    requires QuoteFree(m) && forall k :: k in m ==> m[k] != k
    ensures OrderIrrelevant(m) <==> NoChains(m)
  {
    if NoChains(m) {
      forall html, o1, o2 | IsOrderOf(o1, m) && IsOrderOf(o2, m) ensures Passes(html, o1) == Passes(html, o2) {
        EveryOrderIsSimultaneous(html, o1, m);
        EveryOrderIsSimultaneous(html, o2, m);
      }
    } else {
      var k :| k in m && m[k] in m;
      ChainMakesOrderMatter(m, k);
    }
  }
}
