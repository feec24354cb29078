/**
 * OrderBy / OrderByDescending with one key selector, as the listing queries
 * use them. Keys are strings or instants. Strings compare ordinally, character
 * by character, a shorter prefix first.
 */
module Sorting {

  datatype SortKey = TextKey(s: string) | TimeKey(t: int)

  /** Ordinal string comparison: a <= b. */
  predicate LexLe(a: string, b: string) {
    a == [] || (b != [] && (a[0] < b[0] || (a[0] == b[0] && LexLe(a[1..], b[1..]))))
  }

  lemma {:induction false} LexLeTotal(a: string, b: string)
    ensures LexLe(a, b) || LexLe(b, a)
  {
    if a != [] && b != [] && a[0] == b[0] {
      LexLeTotal(a[1..], b[1..]);
    }
  }

  lemma {:induction false} LexLeTrans(a: string, b: string, c: string)
    requires LexLe(a, b) && LexLe(b, c)
    ensures LexLe(a, c)
  {
    if a != [] && b != [] && c != [] && a[0] == b[0] && b[0] == c[0] {
      LexLeTrans(a[1..], b[1..], c[1..]);
    }
  }

  lemma {:induction false} LexLeAntisymmetric(a: string, b: string)
    requires LexLe(a, b) && LexLe(b, a)
    ensures a == b
  {
    if a != [] && b != [] {
      LexLeAntisymmetric(a[1..], b[1..]);
      assert a == [a[0]] + a[1..] && b == [b[0]] + b[1..];
    }
  }

  /** Keys of one listing are all of one kind; text keys are put first otherwise. */
  predicate KeyLe(a: SortKey, b: SortKey) {
    match (a, b)
    case (TextKey(x), TextKey(y)) => LexLe(x, y)
    case (TimeKey(x), TimeKey(y)) => x <= y
    case (TextKey(_), TimeKey(_)) => true
    case (TimeKey(_), TextKey(_)) => false
  }

  /** `a` may come before `b` in an ascending (OrderBy) or descending (OrderByDescending) listing. */
  predicate InOrder(a: SortKey, b: SortKey, ascending: bool) {
    if ascending then KeyLe(a, b) else KeyLe(b, a)
  }

  lemma {:induction false} InOrderTotal(a: SortKey, b: SortKey, ascending: bool)
    ensures InOrder(a, b, ascending) || InOrder(b, a, ascending)
  {
    if a.TextKey? && b.TextKey? {
      LexLeTotal(a.s, b.s);
    }
  }

  lemma {:induction false} InOrderTrans(a: SortKey, b: SortKey, c: SortKey, ascending: bool)
    requires InOrder(a, b, ascending) && InOrder(b, c, ascending)
    ensures InOrder(a, c, ascending)
  {
    if a.TextKey? && b.TextKey? && c.TextKey? {
      if ascending { LexLeTrans(a.s, b.s, c.s); } else { LexLeTrans(c.s, b.s, a.s); }
    }
  }

  ghost predicate SortedBy<T>(xs: seq<T>, key: T -> SortKey, ascending: bool) {
    forall i, j :: 0 <= i < j < |xs| ==> InOrder(key(xs[i]), key(xs[j]), ascending)
  }

  /**
   * Insert `x` before the first element it may precede. Every element it then
   * follows must strictly precede it, so among equal keys the earlier input
   * element stays first (OrderBy is a stable sort).
   */
  function Insert<T>(x: T, xs: seq<T>, key: T -> SortKey, ascending: bool): seq<T> {
    if xs == [] || InOrder(key(x), key(xs[0]), ascending) then [x] + xs
    else [xs[0]] + Insert(x, xs[1..], key, ascending)
  }

  /** The listing's order: xs sorted by `key`, ascending or descending. */
  function SortBy<T>(xs: seq<T>, key: T -> SortKey, ascending: bool): seq<T> {
    if xs == [] then [] else Insert(xs[0], SortBy(xs[1..], key, ascending), key, ascending)
  }

  lemma {:induction false} SortedCons<T>(h: T, tail: seq<T>, key: T -> SortKey, ascending: bool)
    requires SortedBy(tail, key, ascending)
    requires forall k :: 0 <= k < |tail| ==> InOrder(key(h), key(tail[k]), ascending)
    ensures SortedBy([h] + tail, key, ascending)
  {
    var r := [h] + tail;
    forall i, j | 0 <= i < j < |r| ensures InOrder(key(r[i]), key(r[j]), ascending) {
      if i > 0 {
        assert r[i] == tail[i - 1] && r[j] == tail[j - 1];
      }
    }
  }

  lemma {:induction false} InsertPermutes<T>(x: T, xs: seq<T>, key: T -> SortKey, ascending: bool)
    ensures multiset(Insert(x, xs, key, ascending)) == multiset([x] + xs)
    ensures |Insert(x, xs, key, ascending)| == |xs| + 1
  {
    if !(xs == [] || InOrder(key(x), key(xs[0]), ascending)) {
      InsertPermutes(x, xs[1..], key, ascending);
      assert xs == [xs[0]] + xs[1..];
    }
  }

  lemma {:induction false} InsertSorted<T>(x: T, xs: seq<T>, key: T -> SortKey, ascending: bool)
    requires SortedBy(xs, key, ascending)
    ensures SortedBy(Insert(x, xs, key, ascending), key, ascending)
  {
    if xs == [] || InOrder(key(x), key(xs[0]), ascending) {
      forall k | 0 <= k < |xs| ensures InOrder(key(x), key(xs[k]), ascending) {
        if k > 0 {
          InOrderTrans(key(x), key(xs[0]), key(xs[k]), ascending);
        }
      }
      SortedCons(x, xs, key, ascending);
    } else {
      InsertSorted(x, xs[1..], key, ascending);
      InsertPermutes(x, xs[1..], key, ascending);
      InOrderTotal(key(x), key(xs[0]), ascending);
      var tail := Insert(x, xs[1..], key, ascending);
      forall k | 0 <= k < |tail| ensures InOrder(key(xs[0]), key(tail[k]), ascending) {
        assert tail[k] in multiset([x] + xs[1..]);
        if tail[k] != x {
          var m :| 0 <= m < |xs[1..]| && xs[1..][m] == tail[k];
          assert xs[m + 1] == tail[k];
        }
      }
      SortedCons(xs[0], tail, key, ascending);
    }
  }

  /** SortBy yields a permutation of its input in the requested order. */
  lemma {:induction false} SortBySorted<T>(xs: seq<T>, key: T -> SortKey, ascending: bool)
    ensures SortedBy(SortBy(xs, key, ascending), key, ascending)
    ensures multiset(SortBy(xs, key, ascending)) == multiset(xs)
    ensures |SortBy(xs, key, ascending)| == |xs|
  {
    if xs != [] {
      SortBySorted(xs[1..], key, ascending);
      InsertSorted(xs[0], SortBy(xs[1..], key, ascending), key, ascending);
      InsertPermutes(xs[0], SortBy(xs[1..], key, ascending), key, ascending);
      assert xs == [xs[0]] + xs[1..];
    }
  }

  /** Sorting keeps exactly the elements it is given. */
  lemma {:induction false} SortByMembers<T>(xs: seq<T>, key: T -> SortKey, ascending: bool)
    ensures forall x :: x in SortBy(xs, key, ascending) <==> x in xs
  {
    SortBySorted(xs, key, ascending);
    forall x ensures x in SortBy(xs, key, ascending) <==> x in xs {
      assert x in SortBy(xs, key, ascending) <==> x in multiset(SortBy(xs, key, ascending));
      assert x in xs <==> x in multiset(xs);
    }
  }

  /** An input already in order is returned as it is. */
  lemma {:induction false} SortBySortedInput<T>(xs: seq<T>, key: T -> SortKey, ascending: bool)
    requires SortedBy(xs, key, ascending)
    ensures SortBy(xs, key, ascending) == xs
  {
    if xs != [] {
      SortBySortedInput(xs[1..], key, ascending);
      assert SortBy(xs[1..], key, ascending) == xs[1..];
      if xs[1..] != [] {
        assert InOrder(key(xs[0]), key(xs[1..][0]), ascending);
      }
    }
  }
  /** The rows holding key `k`, in their order in `xs`. */
  function WithKey<T>(xs: seq<T>, key: T -> SortKey, k: SortKey): seq<T> {
    if xs == [] then [] else (if key(xs[0]) == k then [xs[0]] else []) + WithKey(xs[1..], key, k)
  }

  lemma {:induction false} LexLeRefl(a: string)
    ensures LexLe(a, a)
  {
    if a != [] {
      LexLeRefl(a[1..]);
    }
  }

  lemma {:induction false} InOrderRefl(a: SortKey, ascending: bool)
    ensures InOrder(a, a, ascending)
  {
    if a.TextKey? { LexLeRefl(a.s); }
  }

  lemma {:induction false} WithKeyCons<T>(h: T, xs: seq<T>, key: T -> SortKey, k: SortKey)
    ensures WithKey([h] + xs, key, k) == (if key(h) == k then [h] else []) + WithKey(xs, key, k)
  {
    assert ([h] + xs)[0] == h && ([h] + xs)[1..] == xs;
  }

  /** Inserting places the new element ahead of every element with an equal key. */
  lemma {:induction false} InsertWithKey<T>(x: T, xs: seq<T>, key: T -> SortKey, ascending: bool, k: SortKey)
    ensures WithKey(Insert(x, xs, key, ascending), key, k)
         == (if key(x) == k then [x] else []) + WithKey(xs, key, k)
  {
    if xs == [] || InOrder(key(x), key(xs[0]), ascending) {
      WithKeyCons(x, xs, key, k);
    } else {
      InOrderRefl(key(x), ascending);
      var rest := Insert(x, xs[1..], key, ascending);
      InsertWithKey(x, xs[1..], key, ascending, k);
      WithKeyCons(xs[0], rest, key, k);
      WithKeyCons(xs[0], xs[1..], key, k);
      assert [xs[0]] + xs[1..] == xs;
    }
  }

  /**
   * OrderBy is stable: the elements holding any one key come out in the
   * order they went in.
   */
  lemma {:induction false} SortByStable<T>(xs: seq<T>, key: T -> SortKey, ascending: bool, k: SortKey)
    ensures WithKey(SortBy(xs, key, ascending), key, k) == WithKey(xs, key, k)
  {
    if xs != [] {
      SortByStable(xs[1..], key, ascending, k);
      InsertWithKey(xs[0], SortBy(xs[1..], key, ascending), key, ascending, k);
    }
  }
}
