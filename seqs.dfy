/**
 * The LINQ operators the core applies to query results: Where, FirstOrDefault,
 * Any, Count, Select and Distinct, over sequences in query order.
 */
module Seqs {
  import opened Wrappers

  /** Where: the elements satisfying `p`, in their original order. */
  function Filter<T>(xs: seq<T>, p: T -> bool): (r: seq<T>)
    ensures |r| <= |xs|
    ensures forall i :: 0 <= i < |r| ==> r[i] in xs && p(r[i])
    ensures forall i :: 0 <= i < |xs| && p(xs[i]) ==> xs[i] in r
  {
    if xs == [] then []
    else if p(xs[0]) then [xs[0]] + Filter(xs[1..], p)
    else Filter(xs[1..], p)
  }

  /** An element is kept exactly when it is in the input and satisfies `p`. */
  lemma {:induction false} FilterMembers<T>(xs: seq<T>, p: T -> bool)
    ensures forall x :: x in Filter(xs, p) <==> x in xs && p(x)
  {
    forall x | x in xs && p(x) ensures x in Filter(xs, p) {
      var i :| 0 <= i < |xs| && xs[i] == x;
    }
  }

  /** Nothing is kept when no element satisfies `p`. */
  lemma {:induction false} FilterNone<T>(xs: seq<T>, p: T -> bool)
    requires forall i :: 0 <= i < |xs| ==> !p(xs[i])
    ensures Filter(xs, p) == []
  {
    if xs != [] {
      FilterNone(xs[1..], p);
    }
  }

  /** Appending an element `p` rejects does not change the filter. */
  lemma {:induction false} FilterAppendRejected<T>(xs: seq<T>, y: T, p: T -> bool)
    requires !p(y)
    ensures Filter(xs + [y], p) == Filter(xs, p)
    decreases |xs|
  {
    if xs == [] {
      assert [] + [y] == [y];
      assert [y][1..] == [];
    } else {
      assert (xs + [y])[0] == xs[0];
      assert (xs + [y])[1..] == xs[1..] + [y];
      FilterAppendRejected(xs[1..], y, p);
    }
  }

  /** Sequences that differ only at elements `p` rejects on both sides filter alike. */
  lemma {:induction false} FilterPointwise<T>(xs: seq<T>, ys: seq<T>, p: T -> bool)
    requires |xs| == |ys|
    requires forall i :: 0 <= i < |xs| ==> xs[i] == ys[i] || (!p(xs[i]) && !p(ys[i]))
    ensures Filter(xs, p) == Filter(ys, p)
    decreases |xs|
  {
    if xs != [] {
      assert forall i :: 0 <= i < |xs[1..]| ==> xs[1..][i] == xs[i + 1] && ys[1..][i] == ys[i + 1];
      FilterPointwise(xs[1..], ys[1..], p);
    }
  }

  /** Filtering twice is filtering once by the conjunction. */
  lemma {:induction false} FilterFilter<T>(xs: seq<T>, p: T -> bool, q: T -> bool)
    ensures Filter(Filter(xs, p), q) == Filter(xs, x => p(x) && q(x))
  {
    if xs != [] {
      FilterFilter(xs[1..], p, q);
    }
  }

  /** Filters by pointwise-equal predicates agree. */
  lemma {:induction false} FilterSame<T>(xs: seq<T>, p: T -> bool, q: T -> bool)
    requires forall x :: p(x) == q(x)
    ensures Filter(xs, p) == Filter(xs, q)
  {
    if xs != [] {
      FilterSame(xs[1..], p, q);
    }
  }

  /**
   * One conditional Where of a pipeline that so far equals filtering `all`
   * by `before`: applied or skipped, the pipeline equals filtering by `after`.
   */
  lemma {:induction false} WhereStep<T>(all: seq<T>, xs: seq<T>, before: T -> bool, after: T -> bool, w: T -> bool, applied: bool)
    requires xs == Filter(all, before)
    requires forall x :: after(x) == (before(x) && (!applied || w(x)))
    ensures (if applied then Filter(xs, w) else xs) == Filter(all, after)
  {
    if applied {
      FilterFilter(all, before, w);
      FilterSame(all, x => before(x) && w(x), after);
    } else {
      FilterSame(all, before, after);
    }
  }

  /** A stronger condition keeps no more elements. */
  lemma {:induction false} FilterStronger<T>(xs: seq<T>, p: T -> bool, q: T -> bool)
    requires forall x :: p(x) ==> q(x)
    ensures |Filter(xs, p)| <= |Filter(xs, q)|
  {
    if xs != [] {
      FilterStronger(xs[1..], p, q);
    }
  }

  /** A filter that keeps everything is the identity. */
  lemma {:induction false} FilterAll<T>(xs: seq<T>, p: T -> bool)
    requires forall i :: 0 <= i < |xs| ==> p(xs[i])
    ensures Filter(xs, p) == xs
  {
    if xs != [] {
      FilterAll(xs[1..], p);
    }
  }

  /** Filtering keeps distinct elements distinct. */
  lemma {:induction false} FilterNoDuplicates<T>(xs: seq<T>, p: T -> bool)
    requires NoDuplicates(xs)
    ensures NoDuplicates(Filter(xs, p))
  {
    if xs != [] {
      FilterNoDuplicates(xs[1..], p);
      if p(xs[0]) {
        var rest := Filter(xs[1..], p);
        assert xs[0] !in xs[1..];
        forall i | 0 <= i < |rest| ensures rest[i] != xs[0] {
          assert rest[i] in xs[1..];
        }
      }
    }
  }

  /** FirstOrDefault(p): the earliest element satisfying `p`, or None. */
  function First<T>(xs: seq<T>, p: T -> bool): (r: Option<T>)
    ensures r.Some? ==> r.value in xs && p(r.value)
    ensures r.None? <==> forall i :: 0 <= i < |xs| ==> !p(xs[i])
  {
    if xs == [] then None
    else if p(xs[0]) then Some(xs[0])
    else First(xs[1..], p)
  }

  /** The first match is the head of the filtered sequence. */
  lemma {:induction false} FirstIsFilterHead<T>(xs: seq<T>, p: T -> bool)
    ensures First(xs, p) == if Filter(xs, p) == [] then None else Some(Filter(xs, p)[0])
  {
    if xs != [] && !p(xs[0]) {
      FirstIsFilterHead(xs[1..], p);
    }
  }

  /** Any(p). */
  predicate Any<T>(xs: seq<T>, p: T -> bool) {
    exists i :: 0 <= i < |xs| && p(xs[i])
  }

  lemma {:induction false} AnyIffFirst<T>(xs: seq<T>, p: T -> bool)
    ensures Any(xs, p) <==> First(xs, p).Some?
  {
    if xs != [] && !p(xs[0]) {
      AnyIffFirst(xs[1..], p);
      assert forall i :: 1 <= i < |xs| ==> xs[i] == xs[1..][i - 1];
    }
  }

  /** Select(f). */
  function Map<T, U>(xs: seq<T>, f: T -> U): (r: seq<U>)
    ensures |r| == |xs|
    ensures forall i :: 0 <= i < |xs| ==> r[i] == f(xs[i])
  {
    if xs == [] then [] else [f(xs[0])] + Map(xs[1..], f)
  }

  /** Mapping one more element appends its image. */
  lemma {:induction false} MapSnoc<T, U>(xs: seq<T>, x: T, f: T -> U)
    ensures Map(xs + [x], f) == Map(xs, f) + [f(x)]
  {
    assert |Map(xs + [x], f)| == |Map(xs, f) + [f(x)]|;
    forall i | 0 <= i < |xs| + 1 ensures Map(xs + [x], f)[i] == (Map(xs, f) + [f(x)])[i] {
      if i < |xs| {
        assert (xs + [x])[i] == xs[i];
      }
    }
  }

  ghost predicate NoDuplicates<T>(xs: seq<T>) {
    forall i, j :: 0 <= i < j < |xs| ==> xs[i] != xs[j]
  }

  /** Distinct(): first occurrences kept, in order. */
  function Distinct<T(==)>(xs: seq<T>): (r: seq<T>)
    ensures NoDuplicates(r)
    ensures forall i :: 0 <= i < |r| ==> r[i] in xs
    ensures forall i :: 0 <= i < |xs| ==> xs[i] in r
    ensures |r| <= |xs|
  {
    var r := DistinctAfter(xs, []);
    assert [] + r == r;
    r
  }

  function DistinctAfter<T(==)>(xs: seq<T>, seen: seq<T>): (r: seq<T>)
    requires NoDuplicates(seen)
    ensures NoDuplicates(seen + r)
    ensures forall i :: 0 <= i < |r| ==> r[i] in xs
    ensures forall i :: 0 <= i < |xs| ==> xs[i] in seen + r
    ensures |r| <= |xs|
  {
    if xs == [] then []
    else if xs[0] in seen then DistinctAfter(xs[1..], seen)
    else
      var rest := DistinctAfter(xs[1..], seen + [xs[0]]);
      assert seen + ([xs[0]] + rest) == (seen + [xs[0]]) + rest;
      [xs[0]] + rest
  }
}
