/** First match in the sorted table is the most specific match among the stored rows. */
module RoutingProperties {
  import opened Prelude
  import opened Text
  import opened Sorting
  import opened Router

  /** The row could answer the request: its method and its pattern fit. */
  predicate Matching(row: RouteRow, m: string, req: seq<string>) {
    row.method_ == m && ParsePattern(row.pathPattern).Ok? && Fits(ParsePattern(row.pathPattern).value.segments, req)
  }

  function Specificity(row: RouteRow): nat
    requires ParsePattern(row.pathPattern).Ok?
  {
    ParsePattern(row.pathPattern).value.staticCount
  }

  /** What the row answers with when it is chosen. */
  function Answer(row: RouteRow, req: seq<string>): MatchedRoute
    requires ParsePattern(row.pathPattern).Ok? && Fits(ParsePattern(row.pathPattern).value.segments, req)
  {
    MatchedRoute(row.meta, Captures(ParsePattern(row.pathPattern).value.segments, req, |req|))
  }

  /** Row `i` matches with as many static segments as any row, and is the first such row. */
  ghost predicate IsMostSpecific(rows: seq<RouteRow>, m: string, req: seq<string>, i: int) {
    0 <= i < |rows| && Matching(rows[i], m, req)
    && (forall j :: 0 <= j < |rows| && Matching(rows[j], m, req) ==> Specificity(rows[j]) <= Specificity(rows[i]))
    && (forall j :: 0 <= j < i && Matching(rows[j], m, req) ==> Specificity(rows[j]) < Specificity(rows[i]))
  }

  lemma EntryOfMatching(row: RouteRow, m: string, req: seq<string>)
    ensures Matching(row, m, req)
            <==> EntryFor(m, row).Some? && Fits(EntryFor(m, row).value.0.segments, req)
    ensures Matching(row, m, req) ==>
              Specificity(row) == EntryFor(m, row).value.0.staticCount
              && LookupIn([EntryFor(m, row).value], req) == Some(Answer(row, req))
  {
  }

  /** Among entries that fit one request only the static counts can differ. */
  lemma FittingEntriesCompare(
    row: RouteRow, row': RouteRow, m: string, req: seq<string>,
    e: (ParsedPattern, RouteMeta), e': (ParsedPattern, RouteMeta))
    requires Matching(row, m, req) && Matching(row', m, req)
    requires EntryFor(m, row) == Some(e) && EntryFor(m, row') == Some(e')
    ensures SpecificFirst(e, e') <==> Specificity(row') <= Specificity(row)
  {
  }

  /** Lookup finds a row iff one matches, and then the most specific one: the fast scan of the
      sorted table agrees with comparing all matches. */
  lemma LookupIsMostSpecific(rows: seq<RouteRow>, m: string, path: string) returns (i: int)
    ensures var req := Segments(path);
            (Lookup(rows, m, path).Some? <==> exists j :: 0 <= j < |rows| && Matching(rows[j], m, req))
            && (Lookup(rows, m, path).Some? ==>
                  IsMostSpecific(rows, m, req, i) && Lookup(rows, m, path) == Some(Answer(rows[i], req)))
  {
    var req := Segments(path);
    i := MostSpecificRow(rows, m, req);
  }

  lemma MostSpecificRow(rows: seq<RouteRow>, m: string, req: seq<string>) returns (i: int)
    ensures var hit := LookupIn(StableSort(EntriesFor(m, rows), SpecificFirst), req);
            (hit.Some? <==> exists j :: 0 <= j < |rows| && Matching(rows[j], m, req))
            && (hit.Some? ==> IsMostSpecific(rows, m, req, i) && hit == Some(Answer(rows[i], req)))
  {
    var entries := EntriesFor(m, rows);
    var fits := (e: (ParsedPattern, RouteMeta)) => Fits(e.0.segments, req);
    SpecificFirstIsTotalPreorder();
    var k := FirstOfSorted(entries, SpecificFirst, fits);
    var at := FilterMapOrigins(row => EntryFor(m, row), rows);
    i := 0;
    forall j | 0 <= j < |rows| && Matching(rows[j], m, req) ensures exists e :: e in entries && fits(e) {
      var l := EntryOfRow(m, rows, at, req, j);
      assert entries[l] in entries && fits(entries[l]);
    }
    if FirstWhere(StableSort(entries, SpecificFirst), fits).Some? {
      i := at[k];
      assert fits(entries[k]);
      EntryOfMatching(rows[i], m, req);
      EarliestLeastIsMostSpecific(m, rows, at, req, fits, k);
    }
  }

  /** Where each table entry comes from. */
  ghost predicate IsEntryMap(at: seq<nat>, m: string, rows: seq<RouteRow>) {
    AreOrigins(at, row => EntryFor(m, row), rows, EntriesFor(m, rows))
  }

  lemma EntryOfRow(m: string, rows: seq<RouteRow>, at: seq<nat>, req: seq<string>, j: nat) returns (l: nat)
    requires IsEntryMap(at, m, rows) && j < |rows| && Matching(rows[j], m, req)
    ensures l < |at| && at[l] == j && Fits(EntriesFor(m, rows)[l].0.segments, req)
  {
    EntryOfMatching(rows[j], m, req);
    assert j in at;
    l :| 0 <= l < |at| && at[l] == j;
  }

  lemma EarliestLeastIsMostSpecific(
    m: string, rows: seq<RouteRow>, at: seq<nat>, req: seq<string>, fits: ((ParsedPattern, RouteMeta)) -> bool, k: nat)
    requires IsEntryMap(at, m, rows) && forall e :: fits(e) <==> Fits(e.0.segments, req)
    requires IsEarliestLeast(EntriesFor(m, rows), SpecificFirst, fits, k)
    ensures IsMostSpecific(rows, m, req, at[k])
  {
    var i := at[k];
    EntryOfMatching(rows[i], m, req);
    forall j | 0 <= j < |rows| && Matching(rows[j], m, req)
      ensures Specificity(rows[j]) <= Specificity(rows[i])
      ensures j < i ==> Specificity(rows[j]) < Specificity(rows[i])
    {
      EarliestLeastBeats(m, rows, at, req, fits, k, j);
    }
  }

  lemma EarliestLeastBeats(
    m: string, rows: seq<RouteRow>, at: seq<nat>, req: seq<string>, fits: ((ParsedPattern, RouteMeta)) -> bool, k: nat,
    j: nat)
    requires IsEntryMap(at, m, rows) && forall e :: fits(e) <==> Fits(e.0.segments, req)
    requires IsEarliestLeast(EntriesFor(m, rows), SpecificFirst, fits, k)
    requires j < |rows| && Matching(rows[j], m, req) && Matching(rows[at[k]], m, req)
    ensures Specificity(rows[j]) <= Specificity(rows[at[k]])
    ensures j < at[k] ==> Specificity(rows[j]) < Specificity(rows[at[k]])
  {
    var entries := EntriesFor(m, rows);
    var l := EntryOfRow(m, rows, at, req, j);
    assert fits(entries[l]);
    FittingEntriesCompare(rows[at[k]], rows[j], m, req, entries[k], entries[l]);
    if j < at[k] {
      assert l < k;
      FittingEntriesCompare(rows[j], rows[at[k]], m, req, entries[l], entries[k]);
    }
  }

  lemma MostSpecificIsUnique(rows: seq<RouteRow>, m: string, req: seq<string>, i: int, j: int)
    requires IsMostSpecific(rows, m, req, i) && IsMostSpecific(rows, m, req, j)
    ensures i == j
  {
  }

  /** The answer is pinned down by the specification alone. */
  lemma MostSpecificIsTheAnswer(rows: seq<RouteRow>, m: string, path: string, i: int)
    requires IsMostSpecific(rows, m, Segments(path), i)
    ensures Lookup(rows, m, path) == Some(Answer(rows[i], Segments(path)))
  {
    var j := LookupIsMostSpecific(rows, m, path);
    MostSpecificIsUnique(rows, m, Segments(path), i, j);
  }

  // ---- Shadowing ----

  /** Pointwise at least as specific, and somewhere static where the other captures. */
  ghost predicate MoreSpecific(p: seq<PatSeg>, q: seq<PatSeg>) {
    |p| == |q|
    && (forall i :: 0 <= i < |q| && q[i].Static? ==> p[i].Static?)
    && (exists i :: 0 <= i < |q| && p[i].Static? && q[i].Capture?)
  }

  lemma {:induction false} MoreStatics(p: seq<PatSeg>, q: seq<PatSeg>)
    requires |p| == |q| && forall i :: 0 <= i < |q| && q[i].Static? ==> p[i].Static?
    ensures StaticCount(p) >= StaticCount(q)
    ensures (exists i :: 0 <= i < |q| && p[i].Static? && q[i].Capture?) ==> StaticCount(p) > StaticCount(q)
  {
    if p != [] {
      MoreStatics(p[1..], q[1..]);
      if i :| 0 <= i < |q| && p[i].Static? && q[i].Capture? {
        if i > 0 { assert p[1..][i - 1].Static? && q[1..][i - 1].Capture?; }
      }
    }
  }

  /** A pattern is never answered by a pointwise less specific one while it matches itself. */
  lemma NeverShadowed(rows: seq<RouteRow>, m: string, path: string, i: nat, j: nat)
    requires i < |rows| && j < |rows|
    requires Matching(rows[i], m, Segments(path)) && Matching(rows[j], m, Segments(path))
    requires MoreSpecific(ParsePattern(rows[i].pathPattern).value.segments,
                          ParsePattern(rows[j].pathPattern).value.segments)
    ensures !IsMostSpecific(rows, m, Segments(path), j)
  {
    MoreStatics(ParsePattern(rows[i].pathPattern).value.segments, ParsePattern(rows[j].pathPattern).value.segments);
  }

  // ---- Row order ----

  /** Every matching row with the greatest specificity answers alike. */
  ghost predicate BestAgree(rows: seq<RouteRow>, m: string, req: seq<string>) {
    forall i, j :: 0 <= i < |rows| && 0 <= j < |rows| && Matching(rows[i], m, req) && Matching(rows[j], m, req)
      && Specificity(rows[i]) == Specificity(rows[j])
      && (forall k :: 0 <= k < |rows| && Matching(rows[k], m, req) ==> Specificity(rows[k]) <= Specificity(rows[i]))
      ==> Answer(rows[i], req) == Answer(rows[j], req)
  }

  lemma SameElements(xs: seq<RouteRow>, ys: seq<RouteRow>, i: nat) returns (j: nat)
    requires multiset(xs) == multiset(ys) && i < |xs|
    ensures j < |ys| && ys[j] == xs[i]
  {
    MemberOfPermutation(xs, ys, xs[i]);
    j :| 0 <= j < |ys| && ys[j] == xs[i];
  }

  /** What one ordering of the rows answers, no matching row of another ordering beats. */
  lemma BestOfOtherOrder(rows: seq<RouteRow>, rows': seq<RouteRow>, m: string, req: seq<string>, j: nat)
    returns (j': nat)
    requires multiset(rows) == multiset(rows') && IsMostSpecific(rows', m, req, j)
    ensures j' < |rows| && rows[j'] == rows'[j] && Matching(rows[j'], m, req)
    ensures forall k :: 0 <= k < |rows| && Matching(rows[k], m, req) ==> Specificity(rows[k]) <= Specificity(rows[j'])
  {
    j' := SameElements(rows', rows, j);
    forall k | 0 <= k < |rows| && Matching(rows[k], m, req) ensures Specificity(rows[k]) <= Specificity(rows[j']) {
      var k' := SameElements(rows, rows', k);
    }
  }

  lemma SameMatches(rows: seq<RouteRow>, rows': seq<RouteRow>, m: string, req: seq<string>)
    requires multiset(rows) == multiset(rows')
    requires exists i :: 0 <= i < |rows| && Matching(rows[i], m, req)
    ensures exists i :: 0 <= i < |rows'| && Matching(rows'[i], m, req)
  {
    var i :| 0 <= i < |rows| && Matching(rows[i], m, req);
    var i' := SameElements(rows, rows', i);
  }

  lemma AgreeingBestsMakeOrderIrrelevant(rows: seq<RouteRow>, rows': seq<RouteRow>, m: string, path: string)
    requires multiset(rows) == multiset(rows') && BestAgree(rows, m, Segments(path))
    ensures Lookup(rows, m, path) == Lookup(rows', m, path)
  {
    var req := Segments(path);
    var i := LookupIsMostSpecific(rows, m, path);
    var j := LookupIsMostSpecific(rows', m, path);
    if exists k :: 0 <= k < |rows| && Matching(rows[k], m, req) {
      SameMatches(rows, rows', m, req);
      var j' := BestOfOtherOrder(rows, rows', m, req, j);
      assert Answer(rows[i], req) == Answer(rows[j'], req);
    } else if exists k :: 0 <= k < |rows'| && Matching(rows'[k], m, req) {
      SameMatches(rows', rows, m, req);
    }
  }

  function MovedToFront(rows: seq<RouteRow>, j: nat): seq<RouteRow>
    requires j < |rows|
  {
    [rows[j]] + rows[..j] + rows[j + 1..]
  }

  lemma MovedToFrontIsPermutation(rows: seq<RouteRow>, j: nat)
    requires j < |rows|
    ensures multiset(MovedToFront(rows, j)) == multiset(rows)
    ensures MovedToFront(rows, j) != [] && MovedToFront(rows, j)[0] == rows[j]
  {
    assert rows == rows[..j] + [rows[j]] + rows[j + 1..];
  }

  lemma MovedToFrontWins(rows: seq<RouteRow>, m: string, path: string, j: nat)
    requires j < |rows| && Matching(rows[j], m, Segments(path))
    requires forall k :: 0 <= k < |rows| && Matching(rows[k], m, Segments(path)) ==>
               Specificity(rows[k]) <= Specificity(rows[j])
    ensures Lookup(MovedToFront(rows, j), m, path) == Some(Answer(rows[j], Segments(path)))
  {
    var moved, req := MovedToFront(rows, j), Segments(path);
    MovedToFrontIsPermutation(rows, j);
    forall k | 0 <= k < |moved| && Matching(moved[k], m, req) ensures Specificity(moved[k]) <= Specificity(moved[0]) {
      var k' := SameElements(moved, rows, k);
    }
    MostSpecificIsTheAnswer(moved, m, path, 0);
  }

  /** The answer is the same for every order in which the database returns the rows iff the
      most specific matches agree. */
  lemma OrderIrrelevantIffBestsAgree(rows: seq<RouteRow>, m: string, path: string)
    ensures BestAgree(rows, m, Segments(path))
            <==> forall rows' :: multiset(rows') == multiset(rows) ==> Lookup(rows', m, path) == Lookup(rows, m, path)
  {
    var req := Segments(path);
    if BestAgree(rows, m, req) {
      forall rows' | multiset(rows') == multiset(rows) ensures Lookup(rows', m, path) == Lookup(rows, m, path) {
        AgreeingBestsMakeOrderIrrelevant(rows, rows', m, path);
      }
    } else {
      var i, j :| 0 <= i < |rows| && 0 <= j < |rows| && Matching(rows[i], m, req) && Matching(rows[j], m, req)
        && Specificity(rows[i]) == Specificity(rows[j])
        && (forall k :: 0 <= k < |rows| && Matching(rows[k], m, req) ==> Specificity(rows[k]) <= Specificity(rows[i]))
        && Answer(rows[i], req) != Answer(rows[j], req);
      MovedToFrontWins(rows, m, path, i);
      MovedToFrontWins(rows, m, path, j);
      MovedToFrontIsPermutation(rows, i);
      MovedToFrontIsPermutation(rows, j);
      assert Lookup(MovedToFront(rows, i), m, path) != Lookup(MovedToFront(rows, j), m, path);
    }
  }
}
