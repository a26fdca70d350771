/** Order-preserving filtering and stable sorting of sequences: the in-memory
    meaning of a repository's WHERE and ORDER BY clauses. */
module Seqs {
  import opened Results

  /** The elements of `xs` that satisfy `p`, in their original order. */
  function Filter<T>(p: T -> bool, xs: seq<T>): (r: seq<T>)
    ensures |r| <= |xs|
    ensures forall i :: 0 <= i < |r| ==> r[i] in xs && p(r[i])
    ensures forall i :: 0 <= i < |xs| && p(xs[i]) ==> xs[i] in r
  {
    if xs == [] then []
    else if p(xs[0]) then
      var rest := Filter(p, xs[1..]);
      assert forall i :: 1 <= i < |xs| ==> xs[i] == xs[1..][i - 1];
      [xs[0]] + rest
    else
      var rest := Filter(p, xs[1..]);
      assert forall i :: 1 <= i < |xs| ==> xs[i] == xs[1..][i - 1];
      rest
  }

  /** Filtering keeps a sorted list sorted. */
  lemma {:induction false} FilterKeepsSorted<T>(p: T -> bool, xs: seq<T>, key: T -> int)
    requires SortedBy(xs, key)
    ensures SortedBy(Filter(p, xs), key)
  {
    if xs != [] {
      var xs' := xs[1..];
      assert SortedBy(xs', key);
      FilterKeepsSorted(p, xs', key);
      var rest := Filter(p, xs');
      forall i | 0 <= i < |rest| ensures key(xs[0]) <= key(rest[i]) {
        var k :| 0 <= k < |xs'| && xs'[k] == rest[i];
        assert xs'[k] == xs[k + 1];
      }
    }
  }

  /** Filtering keeps every accepted element as often as it occurs and
      drops every other one: the result is a permutation of the accepted
      elements (indeed, in their original order). */
  lemma {:induction false} FilterCount<T>(p: T -> bool, xs: seq<T>)
    ensures forall x :: multiset(Filter(p, xs))[x] == if p(x) then multiset(xs)[x] else 0
  {
    if xs != [] {
      FilterCount(p, xs[1..]);
      FilterCons(p, xs[0], xs[1..]);
      assert xs == [xs[0]] + xs[1..];
    }
  }

  /** No two positions of `xs` share a key. */
  ghost predicate DistinctBy<T, K>(xs: seq<T>, key: T -> K) {
    forall i, j :: 0 <= i < j < |xs| ==> key(xs[i]) != key(xs[j])
  }

  /** Filtering keeps the keys of a list distinct. */
  lemma {:induction false} FilterKeepsDistinct<T, K>(p: T -> bool, xs: seq<T>, key: T -> K)
    requires DistinctBy(xs, key)
    ensures DistinctBy(Filter(p, xs), key)
  {
    if xs != [] {
      var xs' := xs[1..];
      assert DistinctBy(xs', key);
      FilterKeepsDistinct(p, xs', key);
      var rest := Filter(p, xs');
      forall i | 0 <= i < |rest| ensures key(xs[0]) != key(rest[i]) {
        var k :| 0 <= k < |xs'| && xs'[k] == rest[i];
        assert xs'[k] == xs[k + 1];
      }
    }
  }

  /** `f` applied to each element, in order (a stream's `map`). */
  function Map<T, U>(f: T -> U, xs: seq<T>): (r: seq<U>)
    ensures |r| == |xs|
    ensures forall i :: 0 <= i < |xs| ==> r[i] == f(xs[i])
  {
    if xs == [] then [] else [f(xs[0])] + Map(f, xs[1..])
  }

  /** Membership in a filtered list, element-wise. */
  lemma FilterMembers<T>(p: T -> bool, xs: seq<T>)
    ensures forall x :: x in Filter(p, xs) <==> x in xs && p(x)
  {
    var r := Filter(p, xs);
    forall x ensures x in r <==> x in xs && p(x) {
      if x in r {
        var i :| 0 <= i < |r| && r[i] == x;
      }
      if x in xs && p(x) {
        var i :| 0 <= i < |xs| && xs[i] == x;
      }
    }
  }

  /** Keys never decrease along `xs`. */
  ghost predicate SortedBy<T>(xs: seq<T>, key: T -> int) {
    forall i, j :: 0 <= i < j < |xs| ==> key(xs[i]) <= key(xs[j])
  }

  /** Puts `x` in front of the first element whose key is not smaller. */
  function Insert<T>(x: T, ys: seq<T>, key: T -> int): (r: seq<T>)
    ensures SortedBy(ys, key) ==> SortedBy(r, key)
    ensures multiset(r) == multiset(ys) + multiset{x}
  {
    if ys == [] || key(x) <= key(ys[0]) then [x] + ys
    else
      var rest := Insert(x, ys[1..], key);
      assert ys == [ys[0]] + ys[1..];
      assert SortedBy(ys, key) ==> SortedBy([ys[0]] + rest, key) by {
        if SortedBy(ys, key) {
          forall i | 0 <= i < |rest| ensures key(ys[0]) <= key(rest[i]) {
            assert rest[i] in multiset(rest);
            if rest[i] != x {
              assert rest[i] in multiset(ys[1..]);
              var k :| 0 <= k < |ys[1..]| && ys[1..][k] == rest[i];
              assert ys[1..][k] == ys[k + 1];
            }
          }
        }
      }
      [ys[0]] + rest
  }

  /** Stable insertion sort by ascending key: equal keys keep their order. */
  function SortBy<T>(xs: seq<T>, key: T -> int): (r: seq<T>)
    ensures SortedBy(r, key)
    ensures multiset(r) == multiset(xs)
  {
    if xs == [] then []
    else
      assert xs == [xs[0]] + xs[1..];
      Insert(xs[0], SortBy(xs[1..], key), key)
  }

  /** Sorting neither adds nor drops elements. */
  lemma SortByMembers<T>(xs: seq<T>, key: T -> int)
    ensures forall x :: x in SortBy(xs, key) <==> x in xs
  {
    var r := SortBy(xs, key);
    forall x ensures x in r <==> x in xs {
      assert x in r <==> x in multiset(r);
      assert x in xs <==> x in multiset(xs);
    }
  }

  /** Filtering a list with a new head. */
  lemma FilterCons<T>(p: T -> bool, x: T, ys: seq<T>)
    ensures Filter(p, [x] + ys) == if p(x) then [x] + Filter(p, ys) else Filter(p, ys)
  {
    assert ([x] + ys)[1..] == ys;
  }

  /** Inserting a key larger than the head's keeps the head in front. */
  lemma InsertBehindHead<T>(x: T, y: T, ys: seq<T>, key: T -> int)
    requires key(y) < key(x)
    ensures Insert(x, [y] + ys, key) == [y] + Insert(x, ys, key)
  {
    assert ([y] + ys)[1..] == ys;
  }

  /** Filtering after inserting equals inserting into the filtered list. */
  lemma {:induction false} FilterInsert<T>(p: T -> bool, x: T, ys: seq<T>, key: T -> int)
    requires SortedBy(ys, key)
    ensures Filter(p, Insert(x, ys, key))
         == if p(x) then Insert(x, Filter(p, ys), key) else Filter(p, ys)
  {
    if ys == [] || key(x) <= key(ys[0]) {
      assert Insert(x, ys, key) == [x] + ys;
      FilterCons(p, x, ys);
      var fy := Filter(p, ys);
      if p(x) && fy != [] {
        var k :| 0 <= k < |ys| && ys[k] == fy[0];
        assert key(ys[0]) <= key(ys[k]);
      }
    } else {
      var y, ys' := ys[0], ys[1..];
      assert ys == [y] + ys';
      assert SortedBy(ys', key);
      FilterInsert(p, x, ys', key);
      assert Insert(x, ys, key) == [y] + Insert(x, ys', key);
      FilterCons(p, y, Insert(x, ys', key));
      FilterCons(p, y, ys');
      if p(x) && p(y) {
        InsertBehindHead(x, y, Filter(p, ys'), key);
      }
    }
  }

  /** Sorting and filtering commute: a WHERE clause may be applied before or
      after a stable ORDER BY with the same outcome, order included. */
  lemma {:induction false} SortFilterCommute<T>(p: T -> bool, xs: seq<T>, key: T -> int)
    ensures SortBy(Filter(p, xs), key) == Filter(p, SortBy(xs, key))
  {
    if xs != [] {
      var x, xs' := xs[0], xs[1..];
      assert xs == [x] + xs';
      SortFilterCommute(p, xs', key);
      FilterInsert(p, x, SortBy(xs', key), key);
      FilterCons(p, x, xs');
      if p(x) {
        assert ([x] + Filter(p, xs'))[1..] == Filter(p, xs');
      }
    }
  }

  /** Filtering by a stronger predicate makes a prior weaker filter redundant. */
  lemma {:induction false} FilterOfFilter<T>(p: T -> bool, q: T -> bool, xs: seq<T>)
    requires forall x :: x in xs && p(x) ==> q(x)
    ensures Filter(p, Filter(q, xs)) == Filter(p, xs)
  {
    if xs != [] {
      assert xs == [xs[0]] + xs[1..];
      FilterOfFilter(p, q, xs[1..]);
      if q(xs[0]) {
        assert Filter(q, xs) == [xs[0]] + Filter(q, xs[1..]);
        assert ([xs[0]] + Filter(q, xs[1..]))[1..] == Filter(q, xs[1..]);
      }
    }
  }

  /** Filtering twice keeps what both predicates accept. */
  lemma {:induction false} FilterTwice<T>(p: T -> bool, q: T -> bool, both: T -> bool, xs: seq<T>)
    requires forall x :: both(x) == (p(x) && q(x))
    ensures Filter(p, Filter(q, xs)) == Filter(both, xs)
  {
    if xs != [] {
      assert xs == [xs[0]] + xs[1..];
      FilterTwice(p, q, both, xs[1..]);
      if q(xs[0]) {
        assert ([xs[0]] + Filter(q, xs[1..]))[1..] == Filter(q, xs[1..]);
      }
    }
  }

  /** Filters with pointwise-equal predicates agree. */
  lemma {:induction false} FilterExt<T>(p: T -> bool, q: T -> bool, xs: seq<T>)
    requires forall x :: p(x) == q(x)
    ensures Filter(p, xs) == Filter(q, xs)
  {
    if xs != [] {
      FilterExt(p, q, xs[1..]);
    }
  }

  /** Accepts the elements whose key is `k`. */
  function KeyIs<T>(key: T -> Option<nat>, k: nat): T -> bool {
    (x: T) => key(x) == Some(k)
  }

  lemma KeyIsMeans<T>(key: T -> Option<nat>, k: nat)
    ensures forall x :: KeyIs(key, k)(x) == (key(x) == Some(k))
  {
  }

  /** Collectors.groupingBy: the elements of `xs` bucketed by key, each bucket
      in encounter order. A missing key would throw, so every key is present. */
  function GroupBy<T>(xs: seq<T>, key: T -> Option<nat>): (g: map<nat, seq<T>>)
    requires forall i :: 0 <= i < |xs| ==> key(xs[i]).Some?
    ensures forall k :: k in g <==> exists i :: 0 <= i < |xs| && key(xs[i]) == Some(k)
    ensures forall k :: k in g ==> g[k] == Filter(KeyIs(key, k), xs)
  {
    if xs == [] then map[]
    else
      var x, xs' := xs[0], xs[1..];
      assert xs == [x] + xs';
      var g' := GroupBy(xs', key);
      var k := key(x).value;
      FilterCons(KeyIs(key, k), x, xs');
      assert forall k' :: k' != k ==> Filter(KeyIs(key, k'), xs) == Filter(KeyIs(key, k'), xs') by {
        forall k' | k' != k ensures Filter(KeyIs(key, k'), xs) == Filter(KeyIs(key, k'), xs') {
          FilterCons(KeyIs(key, k'), x, xs');
        }
      }
      assert k !in g' ==> Filter(KeyIs(key, k), xs') == [] by {
        if k !in g' {
          NoKeyEmptyFilter(xs', key, k);
        }
      }
      g'[k := [x] + (if k in g' then g'[k] else [])]
  }

  /** No element carries key `k`, so its bucket is empty. */
  lemma NoKeyEmptyFilter<T>(xs: seq<T>, key: T -> Option<nat>, k: nat)
    requires forall i :: 0 <= i < |xs| ==> key(xs[i]) != Some(k)
    ensures Filter(KeyIs(key, k), xs) == []
  {
    var r := Filter(KeyIs(key, k), xs);
    if r != [] {
      var i :| 0 <= i < |xs| && xs[i] == r[0];
      assert false;
    }
  }

  /** Map.getOrDefault(k, empty list) on a grouping is the filter by key `k`. */
  lemma GroupByLookup<T>(xs: seq<T>, key: T -> Option<nat>, k: nat)
    requires forall i :: 0 <= i < |xs| ==> key(xs[i]).Some?
    ensures (if k in GroupBy(xs, key) then GroupBy(xs, key)[k] else []) == Filter(KeyIs(key, k), xs)
  {
    if k !in GroupBy(xs, key) {
      NoKeyEmptyFilter(xs, key, k);
    }
  }
}
