/**
 * Generic list operations the ledger's views are built from: JavaScript's
 * `filter`, a numeric `reduce`, and the stable `sort` with a numeric
 * comparator. Sorting is always DESCENDING by a real-valued key; an ascending
 * JS comparator `(a, b) => k(a) - k(b)` is the descending sort by `-k`.
 */
module Lists {

  /** JS `filter`: the elements satisfying `p`, in their original order. */
  function Filter<T(==)>(s: seq<T>, p: T -> bool): (r: seq<T>)
    ensures |r| <= |s|
    ensures multiset(r) <= multiset(s)
    ensures forall k :: 0 <= k < |r| ==> p(r[k])
    ensures forall k :: 0 <= k < |s| && p(s[k]) ==> s[k] in r
  {
    if |s| == 0 then []
    else
      assert s == [s[0]] + s[1..];
      if p(s[0]) then [s[0]] + Filter(s[1..], p)
      else Filter(s[1..], p)
  }

  /** `r` is `s` with some elements left out and the rest in their original order. */
  predicate Subsequence<T(==)>(r: seq<T>, s: seq<T>)
    decreases |s|
  {
    && |r| <= |s|
    && (|r| == 0 || (r[0] == s[0] && Subsequence(r[1..], s[1..])) || Subsequence(r, s[1..]))
  }

  /**
   * What filtering `s` by `p` must give: a subsequence of `s` holding every
   * element that satisfies `p` as often as `s` does, and nothing else.
   */
  ghost predicate FilterOf<T(!new)>(r: seq<T>, s: seq<T>, p: T -> bool) {
    && Subsequence(r, s)
    && forall x :: multiset(r)[x] == if p(x) then multiset(s)[x] else 0
  }

  /** A subsequence holds no element more often than the sequence does. */
  lemma {:induction false} SubsequenceMultiset<T>(r: seq<T>, s: seq<T>)
    requires Subsequence(r, s)
    ensures multiset(r) <= multiset(s)
    decreases |s|
  {
    if |r| > 0 {
      assert s == [s[0]] + s[1..];
      if r[0] == s[0] && Subsequence(r[1..], s[1..]) {
        SubsequenceMultiset(r[1..], s[1..]);
        assert r == [r[0]] + r[1..];
      } else {
        SubsequenceMultiset(r, s[1..]);
      }
    }
  }

  /** `Filter` is exactly the filter of its input. */
  lemma {:induction false} FilterExact<T(!new)>(s: seq<T>, p: T -> bool)
    ensures FilterOf(Filter(s, p), s, p)
  {
    if |s| > 0 {
      FilterExact(s[1..], p);
      var t := Filter(s[1..], p);
      assert s == [s[0]] + s[1..];
      if p(s[0]) {
        assert ([s[0]] + t)[1..] == t;
      }
    }
  }

  /** Anything that is the filter of `s` by `p` is `Filter(s, p)`: the filter is unique. */
  lemma {:induction false} FilterUnique<T(!new)>(r: seq<T>, s: seq<T>, p: T -> bool)
    requires FilterOf(r, s, p)
    ensures r == Filter(s, p)
    decreases |s|
  {
    if |s| == 0 {
      assert |r| == 0;
    } else {
      var x := s[0];
      assert s == [x] + s[1..];
      if p(x) {
        assert multiset(r)[x] == multiset(s[1..])[x] + 1;
        if !(r[0] == x && Subsequence(r[1..], s[1..])) {
          SubsequenceMultiset(r, s[1..]);
          assert false;
        }
        assert r == [x] + r[1..];
        forall y ensures multiset(r[1..])[y] == if p(y) then multiset(s[1..])[y] else 0 {
          assert multiset(r)[y] == multiset(r[1..])[y] + (if y == x then 1 else 0);
        }
        FilterUnique(r[1..], s[1..], p);
      } else {
        assert multiset(r)[x] == 0;
        if |r| > 0 {
          assert r[0] in multiset(r);
        }
        assert Subsequence(r, s[1..]);
        forall y ensures multiset(r)[y] == if p(y) then multiset(s[1..])[y] else 0 {
          assert multiset(s)[y] == multiset(s[1..])[y] + (if y == x then 1 else 0);
        }
        FilterUnique(r, s[1..], p);
      }
    }
  }

  /** Filtering a concatenation filters each part. */
  lemma {:induction false} FilterAppend<T>(a: seq<T>, b: seq<T>, p: T -> bool)
    ensures Filter(a + b, p) == Filter(a, p) + Filter(b, p)
  {
    if |a| > 0 {
      var x, a' := a[0], a[1..];
      assert a == [x] + a';
      assert a + b == [x] + (a' + b);
      FilterAppend(a', b, p);
      FilterCons(x, a' + b, p);
      FilterCons(x, a', p);
      var fa, fb := Filter(a', p), Filter(b, p);
      if p(x) {
        assert [x] + (fa + fb) == ([x] + fa) + fb;
      }
    } else {
      assert a + b == b;
    }
  }

  /** A filter every element passes keeps the whole list. */
  lemma {:induction false} FilterKeepsAll<T>(s: seq<T>, p: T -> bool)
    requires forall k :: 0 <= k < |s| ==> p(s[k])
    ensures Filter(s, p) == s
  {
    if |s| > 0 {
      FilterKeepsAll(s[1..], p);
      assert s == [s[0]] + s[1..];
    }
  }

  /** Filtering keeps the relative order of what it keeps. */
  lemma {:induction false} FilterRankIncreasing<T>(s: seq<T>, p: T -> bool, rank: T -> int)
    requires RankIncreasing(s, rank)
    ensures RankIncreasing(Filter(s, p), rank)
  {
    if |s| > 0 {
      FilterRankIncreasing(s[1..], p, rank);
      var t := Filter(s[1..], p);
      forall y | y in t ensures rank(s[0]) < rank(y) {
        assert y in multiset(t);
        var c :| 0 <= c < |s[1..]| && s[1..][c] == y;
        assert s[c + 1] == y;
      }
    }
  }

  /** JS `reduce((sum, x) => sum + f(x), 0)`. */
  function SumOf<T>(s: seq<T>, f: T -> real): real {
    if |s| == 0 then 0.0 else f(s[0]) + SumOf(s[1..], f)
  }

  lemma {:induction false} SumOfAppend<T>(a: seq<T>, b: seq<T>, f: T -> real)
    ensures SumOf(a + b, f) == SumOf(a, f) + SumOf(b, f)
  {
    if |a| == 0 {
      assert a + b == b;
    } else {
      assert (a + b)[1..] == a[1..] + b;
      SumOfAppend(a[1..], b, f);
    }
  }

  lemma {:induction false} SumOfTwo<T>(s: seq<T>, f: T -> real)
    requires |s| == 2
    ensures SumOf(s, f) == f(s[0]) + f(s[1])
  {
    assert s[1..][0] == s[1] && s[1..][1..] == [];
    assert SumOf(s[1..], f) == f(s[1]) + SumOf(s[1..][1..], f);
  }

  /** Keys never increase along the list. */
  predicate NonIncreasing<T>(s: seq<T>, key: T -> real) {
    forall a, b :: 0 <= a < b < |s| ==> key(s[a]) >= key(s[b])
  }

  /**
   * Ordered by key, descending, and among equal keys by `rank`, ascending:
   * the order a STABLE descending sort gives a list whose ranks increase.
   */
  predicate LexSorted<T>(s: seq<T>, key: T -> real, rank: T -> int) {
    forall a, b :: 0 <= a < b < |s| ==>
      key(s[a]) > key(s[b]) || (key(s[a]) == key(s[b]) && rank(s[a]) < rank(s[b]))
  }

  /** Ranks strictly increase along the list (e.g. the rank is the original position). */
  predicate RankIncreasing<T>(s: seq<T>, rank: T -> int) {
    forall a, b :: 0 <= a < b < |s| ==> rank(s[a]) < rank(s[b])
  }

  /** Inserts `x` before the first element whose key is not larger than `x`'s. */
  function Insert<T(==)>(x: T, s: seq<T>, key: T -> real): (r: seq<T>)
    ensures |r| == |s| + 1
    ensures multiset(r) == multiset(s) + multiset{x}
  {
    if |s| == 0 then [x]
    else if key(s[0]) <= key(x) then [x] + s
    else
      assert s == [s[0]] + s[1..];
      [s[0]] + Insert(x, s[1..], key)
  }

  lemma {:induction false} InsertSorted<T>(x: T, s: seq<T>, key: T -> real)
    requires NonIncreasing(s, key)
    ensures NonIncreasing(Insert(x, s, key), key)
  {
    if |s| > 0 && key(s[0]) > key(x) {
      var t := Insert(x, s[1..], key);
      InsertSorted(x, s[1..], key);
      forall b | 0 <= b < |t| ensures key(s[0]) >= key(t[b]) {
        assert t[b] in multiset(t);
        assert t[b] in multiset(s[1..]) || t[b] == x;
        if t[b] != x {
          var c :| 0 <= c < |s[1..]| && s[1..][c] == t[b];
          assert s[c + 1] == t[b];
        }
      }
    }
  }

  /**
   * JS `sort` with a numeric comparator ordering by `key` descending. Since
   * ES2019 `sort` is stable; this insertion sort keeps equal keys in input order.
   */
  function SortBy<T(==)>(s: seq<T>, key: T -> real): (r: seq<T>)
    ensures |r| == |s|
    ensures multiset(r) == multiset(s)
    ensures NonIncreasing(r, key)
  {
    if |s| == 0 then []
    else
      var t := SortBy(s[1..], key);
      assert s == [s[0]] + s[1..];
      InsertSorted(s[0], t, key);
      Insert(s[0], t, key)
  }

  /** Inserting adds `x` and nothing else. */
  lemma InsertMember<T>(x: T, s: seq<T>, key: T -> real, y: T)
    ensures y in Insert(x, s, key) <==> y == x || y in s
  {
    var r := Insert(x, s, key);
    assert y in r <==> y in multiset(r);
    assert y in s <==> y in multiset(s);
  }

  /** A head that precedes everything after it keeps the list `LexSorted`. */
  lemma LexSortedCons<T>(h: T, t: seq<T>, key: T -> real, rank: T -> int)
    requires LexSorted(t, key, rank)
    requires forall b :: 0 <= b < |t| ==> key(h) > key(t[b]) || (key(h) == key(t[b]) && rank(h) < rank(t[b]))
    ensures LexSorted([h] + t, key, rank)
  {
    var r := [h] + t;
    forall a, b | 0 <= a < b < |r|
      ensures key(r[a]) > key(r[b]) || (key(r[a]) == key(r[b]) && rank(r[a]) < rank(r[b]))
    {
      assert r[b] == t[b - 1];
      if a > 0 {
        assert r[a] == t[a - 1];
      }
    }
  }

  lemma {:induction false} InsertStable<T>(x: T, s: seq<T>, key: T -> real, rank: T -> int)
    requires LexSorted(s, key, rank)
    requires forall y :: y in s ==> rank(x) < rank(y)
    ensures LexSorted(Insert(x, s, key), key, rank)
  {
    if |s| > 0 && key(s[0]) > key(x) {
      var h, t := s[0], Insert(x, s[1..], key);
      InsertStable(x, s[1..], key, rank);
      forall b | 0 <= b < |t|
        ensures key(h) > key(t[b]) || (key(h) == key(t[b]) && rank(h) < rank(t[b]))
      {
        var y := t[b];
        InsertMember(x, s[1..], key, y);
        if y != x {
          var c :| 0 <= c < |s[1..]| && s[1..][c] == y;
          assert s[c + 1] == y;
        }
      }
      LexSortedCons(h, t, key, rank);
    }
  }

  /** The sort keeps exactly the elements it was given. */
  lemma {:induction false} SortMembers<T>(s: seq<T>, key: T -> real)
    ensures forall x :: x in SortBy(s, key) <==> x in s
  {
    var r := SortBy(s, key);
    forall x ensures x in r <==> x in s {
      assert x in r <==> x in multiset(r);
      assert x in s <==> x in multiset(s);
    }
  }

  /** The sort is stable: among equal keys, ranks stay increasing. */
  lemma {:induction false} SortStable<T>(s: seq<T>, key: T -> real, rank: T -> int)
    requires RankIncreasing(s, rank)
    ensures LexSorted(SortBy(s, key), key, rank)
  {
    if |s| > 0 {
      var t := SortBy(s[1..], key);
      SortStable(s[1..], key, rank);
      forall y | y in t ensures rank(s[0]) < rank(y) {
        assert y in multiset(t);
        var c :| 0 <= c < |s[1..]| && s[1..][c] == y;
        assert s[c + 1] == y;
      }
      InsertStable(s[0], t, key, rank);
    }
  }

  /** The elements whose key is `v`. */
  function WithKey<T>(key: T -> real, v: real): T -> bool {
    x => key(x) == v
  }

  /** Inserting `x` puts it before every element with its key. */
  lemma {:induction false} InsertTies<T>(x: T, s: seq<T>, key: T -> real, v: real)
    ensures Filter(Insert(x, s, key), WithKey(key, v)) ==
              if key(x) == v then [x] + Filter(s, WithKey(key, v)) else Filter(s, WithKey(key, v))
  {
    var p := WithKey(key, v);
    if |s| == 0 {
      FilterCons(x, [], p);
    } else if key(s[0]) <= key(x) {
      FilterCons(x, s, p);
    } else {
      var h, t := s[0], s[1..];
      assert s == [h] + t;
      assert Insert(x, s, key) == [h] + Insert(x, t, key);
      InsertTies(x, t, key, v);
      FilterCons(h, Insert(x, t, key), p);
      FilterCons(h, t, p);
    }
  }

  /**
   * The sort is stable: for every key value, the elements with that key
   * appear in the sorted list in the same order, and as often, as in the input.
   */
  lemma {:induction false} SortKeepsTies<T>(s: seq<T>, key: T -> real)
    ensures forall v :: Filter(SortBy(s, key), WithKey(key, v)) == Filter(s, WithKey(key, v))
  {
    forall v ensures Filter(SortBy(s, key), WithKey(key, v)) == Filter(s, WithKey(key, v)) {
      SortTies(s, key, v);
    }
  }

  lemma {:induction false} SortTies<T>(s: seq<T>, key: T -> real, v: real)
    ensures Filter(SortBy(s, key), WithKey(key, v)) == Filter(s, WithKey(key, v))
  {
    if |s| > 0 {
      SortTies(s[1..], key, v);
      InsertTies(s[0], SortBy(s[1..], key), key, v);
      FilterCons(s[0], s[1..], WithKey(key, v));
      assert s == [s[0]] + s[1..];
    }
  }

  lemma {:induction false} InsertSum<T>(x: T, s: seq<T>, key: T -> real, f: T -> real)
    ensures SumOf(Insert(x, s, key), f) == f(x) + SumOf(s, f)
  {
    if |s| > 0 && key(s[0]) > key(x) {
      InsertSum(x, s[1..], key, f);
      assert ([s[0]] + Insert(x, s[1..], key))[1..] == Insert(x, s[1..], key);
    } else if |s| > 0 {
      assert ([x] + s)[1..] == s;
    }
  }

  /** Sorting never changes a sum over the list. */
  lemma {:induction false} SortSum<T>(s: seq<T>, key: T -> real, f: T -> real)
    ensures SumOf(SortBy(s, key), f) == SumOf(s, f)
  {
    if |s| > 0 {
      SortSum(s[1..], key, f);
      InsertSum(s[0], SortBy(s[1..], key), key, f);
    }
  }

  /** Filtering a list one element at a time. */
  lemma {:induction false} FilterCons<T>(x: T, s: seq<T>, p: T -> bool)
    ensures Filter([x] + s, p) == if p(x) then [x] + Filter(s, p) else Filter(s, p)
  {
    assert ([x] + s)[1..] == s;
  }

  /** Sorting two elements keeps them in place unless the second has the larger key. */
  lemma {:induction false} SortTwo<T>(x: T, y: T, key: T -> real)
    ensures SortBy([x], key) == [x]
    ensures SortBy([x, y], key) == if key(y) <= key(x) then [x, y] else [y, x]
  {
    assert [x][1..] == [];
    assert [x, y][1..] == [y];
    assert [y][1..] == [];
    assert SortBy([y], key) == [y];
    assert Insert(x, [], key) == [x];
  }
}
