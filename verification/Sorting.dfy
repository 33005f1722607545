/** `slice::sort_by`: a stable sort, and what a scan of its result finds. */
module Sorting {
  import opened Prelude

  ghost predicate IsTotalPreorder<T(!new)>(le: (T, T) -> bool) {
    (forall x, y :: le(x, y) || le(y, x))
    && (forall x, y, z :: le(x, y) && le(y, z) ==> le(x, z))
  }

  ghost predicate IsSorted<T>(xs: seq<T>, le: (T, T) -> bool) {
    forall i, j :: 0 <= i < j < |xs| ==> le(xs[i], xs[j])
  }

  /** Puts `x` before everything it does not come strictly after. */
  function Insert<T>(x: T, xs: seq<T>, le: (T, T) -> bool): seq<T> {
    if xs == [] || le(x, xs[0]) then [x] + xs else [xs[0]] + Insert(x, xs[1..], le)
  }

  function StableSort<T>(xs: seq<T>, le: (T, T) -> bool): seq<T> {
    if xs == [] then [] else Insert(xs[0], StableSort(xs[1..], le), le)
  }

  lemma {:induction false} InsertKeepsElements<T>(x: T, xs: seq<T>, le: (T, T) -> bool)
    ensures multiset(Insert(x, xs, le)) == multiset{x} + multiset(xs)
  {
    if !(xs == [] || le(x, xs[0])) {
      InsertKeepsElements(x, xs[1..], le);
      assert xs == [xs[0]] + xs[1..];
    }
  }

  lemma {:induction false} SortKeepsElements<T>(xs: seq<T>, le: (T, T) -> bool)
    ensures multiset(StableSort(xs, le)) == multiset(xs)
  {
    if xs != [] {
      SortKeepsElements(xs[1..], le);
      InsertKeepsElements(xs[0], StableSort(xs[1..], le), le);
      assert xs == [xs[0]] + xs[1..];
    }
  }

  lemma MemberOfPermutation<T>(xs: seq<T>, ys: seq<T>, x: T)
    requires multiset(xs) == multiset(ys) && x in xs
    ensures x in ys
  {
    assert x in multiset(ys);
  }

  lemma {:induction false} InsertSorts<T(!new)>(x: T, xs: seq<T>, le: (T, T) -> bool)
    requires IsTotalPreorder(le) && IsSorted(xs, le)
    ensures IsSorted(Insert(x, xs, le), le)
  {
    if xs == [] || le(x, xs[0]) {
      forall j | 0 <= j < |xs| ensures le(x, xs[j]) {
        if j > 0 { assert le(xs[0], xs[j]); }
      }
    } else {
      var rest := Insert(x, xs[1..], le);
      InsertSorts(x, xs[1..], le);
      InsertKeepsElements(x, xs[1..], le);
      forall j | 0 <= j < |rest| ensures le(xs[0], rest[j]) {
        assert rest[j] in multiset(rest);
        if rest[j] in xs[1..] {
          var k :| 0 <= k < |xs| - 1 && xs[1..][k] == rest[j];
          assert le(xs[0], xs[k + 1]);
        }
      }
    }
  }

  lemma {:induction false} SortSorts<T(!new)>(xs: seq<T>, le: (T, T) -> bool)
    requires IsTotalPreorder(le)
    ensures IsSorted(StableSort(xs, le), le)
  {
    if xs != [] {
      SortSorts(xs[1..], le);
      InsertSorts(xs[0], StableSort(xs[1..], le), le);
    }
  }

  /** `iter().find(p)`. */
  function FirstWhere<T>(xs: seq<T>, p: T -> bool): (r: Option<T>)
    ensures r.Some? ==> r.value in xs && p(r.value)
    ensures r.None? ==> forall x :: x in xs ==> !p(x)
  {
    if xs == [] then None else if p(xs[0]) then Some(xs[0]) else FirstWhere(xs[1..], p)
  }

  /** Position `i` holds the earliest of the least elements satisfying `p`. */
  ghost predicate IsEarliestLeast<T>(xs: seq<T>, le: (T, T) -> bool, p: T -> bool, i: int) {
    0 <= i < |xs| && p(xs[i])
    && (forall j :: 0 <= j < |xs| && p(xs[j]) ==> le(xs[i], xs[j]))
    && (forall j :: 0 <= j < i && p(xs[j]) ==> !le(xs[j], xs[i]))
  }

  lemma {:induction false} FirstAfterInsert<T(!new)>(x: T, xs: seq<T>, le: (T, T) -> bool, p: T -> bool)
    requires IsTotalPreorder(le) && IsSorted(xs, le)
    ensures var f := FirstWhere(xs, p);
            FirstWhere(Insert(x, xs, le), p)
            == (if p(x) && (f.None? || le(x, f.value)) then Some(x) else f)
  {
    var f := FirstWhere(xs, p);
    if xs == [] || le(x, xs[0]) {
      assert ([x] + xs)[1..] == xs;
      if f.Some? {
        var k :| 0 <= k < |xs| && xs[k] == f.value;
        assert k > 0 ==> le(xs[0], xs[k]);
      }
    } else {
      FirstAfterInsert(x, xs[1..], le, p);
      var rest := Insert(x, xs[1..], le);
      assert ([xs[0]] + rest)[1..] == rest;
    }
  }

  /** Scanning the sorted sequence for the first hit finds, in the unsorted one, the earliest of
      the least hits; and finds nothing only when there is no hit. */
  lemma {:induction false} FirstOfSorted<T(!new)>(xs: seq<T>, le: (T, T) -> bool, p: T -> bool) returns (i: int)
    requires IsTotalPreorder(le)
    ensures FirstWhere(StableSort(xs, le), p).None? <==> forall x :: x in xs ==> !p(x)
    ensures FirstWhere(StableSort(xs, le), p).Some? ==>
              IsEarliestLeast(xs, le, p, i) && FirstWhere(StableSort(xs, le), p) == Some(xs[i])
  {
    i := 0;
    if xs != [] {
      var x, rest := xs[0], xs[1..];
      var k := FirstOfSorted(rest, le, p);
      SortSorts(rest, le);
      FirstAfterInsert(x, StableSort(rest, le), le, p);
      var f := FirstWhere(StableSort(rest, le), p);
      assert forall y :: y in xs <==> y == x || y in rest;
      if p(x) && (f.None? || le(x, f.value)) {
        HeadIsEarliestLeast(xs, le, p, f, k);
      } else if f.Some? {
        i := k + 1;
        TailHasEarliestLeast(xs, le, p, k);
      }
    }
  }

  lemma HeadIsEarliestLeast<T(!new)>(xs: seq<T>, le: (T, T) -> bool, p: T -> bool, f: Option<T>, k: int)
    requires IsTotalPreorder(le) && xs != [] && p(xs[0])
    requires if f.None? then forall y :: y in xs[1..] ==> !p(y)
             else IsEarliestLeast(xs[1..], le, p, k) && xs[1..][k] == f.value && le(xs[0], f.value)
    ensures IsEarliestLeast(xs, le, p, 0)
  {
    forall j | 0 <= j < |xs| && p(xs[j]) ensures le(xs[0], xs[j]) {
      if j > 0 { assert xs[j] == xs[1..][j - 1]; }
    }
  }

  lemma TailHasEarliestLeast<T(!new)>(xs: seq<T>, le: (T, T) -> bool, p: T -> bool, k: int)
    requires IsTotalPreorder(le) && xs != [] && IsEarliestLeast(xs[1..], le, p, k)
    requires p(xs[0]) ==> !le(xs[0], xs[1..][k])
    ensures IsEarliestLeast(xs, le, p, k + 1)
  {
    var rest := xs[1..];
    forall j | 0 <= j < |xs| && p(xs[j]) ensures le(xs[k + 1], xs[j]) && (j < k + 1 ==> !le(xs[j], xs[k + 1])) {
      if j > 0 { assert xs[j] == rest[j - 1]; }
    }
  }

  lemma FirstIsLeast<T(!new)>(xs: seq<T>, le: (T, T) -> bool, y: T)
    requires IsTotalPreorder(le) && IsSorted(xs, le) && y in xs
    ensures le(xs[0], y)
  {
    var k :| 0 <= k < |xs| && xs[k] == y;
  }

  ghost predicate NoTies<T>(xs: seq<T>, le: (T, T) -> bool) {
    forall x, y :: x in xs && y in xs && le(x, y) && le(y, x) ==> x == y
  }

  /** When distinct elements never tie, a sorted sequence is determined by what is in it. */
  lemma {:induction false} SortedIsUnique<T(!new)>(xs: seq<T>, ys: seq<T>, le: (T, T) -> bool)
    requires IsTotalPreorder(le) && IsSorted(xs, le) && IsSorted(ys, le)
    requires multiset(xs) == multiset(ys)
    requires NoTies(xs, le)
    ensures xs == ys
  {
    assert |xs| == |multiset(xs)| == |multiset(ys)| == |ys|;
    if xs != [] {
      var x, y := xs[0], ys[0];
      MemberOfPermutation(xs, ys, x);
      MemberOfPermutation(ys, xs, y);
      FirstIsLeast(xs, le, y);
      FirstIsLeast(ys, le, x);
      assert x == y;
      TailsAgree(xs, ys);
      SortedIsUnique(xs[1..], ys[1..], le);
    }
  }

  lemma TailsAgree<T>(xs: seq<T>, ys: seq<T>)
    requires xs != [] && ys != [] && xs[0] == ys[0] && multiset(xs) == multiset(ys)
    ensures multiset(xs[1..]) == multiset(ys[1..])
  {
    assert xs == [xs[0]] + xs[1..] && ys == [ys[0]] + ys[1..];
    assert multiset(xs[1..]) == multiset(xs) - multiset{xs[0]};
    assert multiset(ys[1..]) == multiset(ys) - multiset{ys[0]};
  }
}
