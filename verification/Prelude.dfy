/** Rust's `Option` and `Result`, and the two iterator adaptors the models use. */
module Prelude {
  datatype Option<+T> = None | Some(value: T)

  datatype Result<+T, +E> = Ok(value: T) | Err(error: E)
  {
    predicate IsFailure() { Err? }

    function PropagateFailure<U>(): Result<U, E>
      requires Err?
    {
      Err(error)
    }

    function Extract(): T
      requires Ok?
    {
      value
    }
  }

  /** `Iterator::map`. */
  function Map<A, B>(f: A -> B, xs: seq<A>): (r: seq<B>)
    ensures |r| == |xs| && forall i :: 0 <= i < |r| ==> r[i] == f(xs[i])
  {
    if xs == [] then [] else Map(f, xs[..|xs| - 1]) + [f(xs[|xs| - 1])]
  }

  /** Mapping one element more. */
  lemma MapNext<A, B>(f: A -> B, xs: seq<A>, i: nat)
    requires i < |xs|
    ensures Map(f, xs[..i + 1]) == Map(f, xs[..i]) + [f(xs[i])]
  {
    assert xs[..i + 1][..i] == xs[..i];
  }

  /** Mapping in place, one element more. */
  lemma MapInPlace<A>(f: A -> A, xs: seq<A>, i: nat)
    requires i < |xs|
    ensures (Map(f, xs[..i]) + xs[i..])[i] == xs[i]
    ensures (Map(f, xs[..i]) + xs[i..])[i := f(xs[i])] == Map(f, xs[..i + 1]) + xs[i + 1..]
  {
    MapNext(f, xs, i);
  }

  /** `Iterator::filter_map`. */
  function FilterMap<A, B>(f: A -> Option<B>, xs: seq<A>): seq<B> {
    if |xs| == 0 then []
    else
      (match f(xs[0])
       case None => []
       case Some(y) => [y]) + FilterMap(f, xs[1..])
  }

  lemma {:induction false} FilterMapAppend<A, B>(f: A -> Option<B>, xs: seq<A>, x: A)
    ensures FilterMap(f, xs + [x]) == FilterMap(f, xs) + (match f(x) case None => [] case Some(y) => [y])
  {
    if xs == [] {
      assert xs + [x] == [x] && [x][1..] == [];
    } else {
      assert (xs + [x])[1..] == xs[1..] + [x];
      FilterMapAppend(f, xs[1..], x);
    }
  }

  /** Where the elements kept by `FilterMap` come from: positions grow with positions. */
  ghost predicate AreOrigins<A, B>(at: seq<nat>, f: A -> Option<B>, xs: seq<A>, kept: seq<B>) {
    |at| == |kept|
    && (forall k :: 0 <= k < |at| ==> at[k] < |xs| && f(xs[at[k]]) == Some(kept[k]))
    && (forall k, l :: 0 <= k < l < |at| ==> at[k] < at[l])
    && forall i :: 0 <= i < |xs| && f(xs[i]).Some? ==> i in at
  }

  lemma {:induction false} FilterMapOrigins<A, B>(f: A -> Option<B>, xs: seq<A>) returns (at: seq<nat>)
    ensures AreOrigins(at, f, xs, FilterMap(f, xs))
  {
    at := [];
    if xs != [] {
      var n := |xs| - 1;
      at := FilterMapOrigins(f, xs[..n]);
      FilterMapAppend(f, xs[..n], xs[n]);
      assert xs == xs[..n] + [xs[n]];
      if f(xs[n]).Some? {
        assert forall k :: k in at + [n] <==> k in at || k == n;
        at := at + [n];
      }
    }
  }
}
