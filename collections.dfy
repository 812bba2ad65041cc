/**
 * Generic sequence helpers shared by the store and the analysis engine:
 * ordering a finite set by a strict total order (SQL's ORDER BY and LINQ's
 * OrderBy over distinct keys), sums (SQL's SUM, LINQ's Sum) and sums per
 * group (GROUP BY / GroupBy), and a stable descending sort
 * (OrderByDescending).
 */
module Collections {

  /** `lt` is irreflexive and transitive. */
  ghost predicate StrictOrder<T(!new)>(lt: (T, T) -> bool) {
    && (forall x :: !lt(x, x))
    && (forall x, y, z :: lt(x, y) && lt(y, z) ==> lt(x, z))
  }

  /** A strict order that is also total on distinct values. */
  ghost predicate StrictTotalOrder<T(!new)>(lt: (T, T) -> bool) {
    && StrictOrder(lt)
    && (forall x, y :: x != y ==> lt(x, y) || lt(y, x))
  }

  ghost predicate StrictlyAscending<T>(xs: seq<T>, lt: (T, T) -> bool) {
    forall i, j :: 0 <= i < j < |xs| ==> lt(xs[i], xs[j])
  }

  /** `m` is an element of `s` below every other element. */
  predicate IsLeast<T(==)>(m: T, s: set<T>, lt: (T, T) -> bool) {
    m in s && forall y :: y in s && y != m ==> lt(m, y)
  }

  lemma {:induction false} MinimumExists<T(!new)>(s: set<T>, lt: (T, T) -> bool)
    requires s != {} && StrictTotalOrder(lt)
    ensures exists m :: IsLeast(m, s, lt)
  {
    var x :| x in s;
    if s == {x} {
      assert IsLeast(x, s, lt);
    } else {
      MinimumExists(s - {x}, lt);
      var m :| IsLeast(m, s - {x}, lt);
      if lt(x, m) {
        NewMinimum(s, lt, x, m);
        assert IsLeast(x, s, lt);
      } else {
        OldMinimum(s, lt, x, m);
        assert IsLeast(m, s, lt);
      }
    }
  }

  lemma {:induction false} NewMinimum<T(!new)>(s: set<T>, lt: (T, T) -> bool, x: T, m: T)
    requires StrictTotalOrder(lt) && x in s && lt(x, m)
    requires IsLeast(m, s - {x}, lt)
    ensures IsLeast(x, s, lt)
  {
    forall y | y in s && y != x ensures lt(x, y) {
      if y != m {
        assert y in s - {x};
        assert lt(m, y);
      }
    }
  }

  lemma {:induction false} OldMinimum<T(!new)>(s: set<T>, lt: (T, T) -> bool, x: T, m: T)
    requires StrictTotalOrder(lt) && x in s && !lt(x, m)
    requires IsLeast(m, s - {x}, lt)
    ensures IsLeast(m, s, lt)
  {
    forall y | y in s && y != m ensures lt(m, y) {
      if y != x {
        assert y in s - {x};
      }
    }
  }

  /** The least element of a non-empty finite set. */
  function Minimum<T(==,!new)>(s: set<T>, lt: (T, T) -> bool): (m: T)
    requires s != {} && StrictTotalOrder(lt)
    ensures m in s && forall y :: y in s && y != m ==> lt(m, y)
  {
    MinimumExists(s, lt);
    var m :| IsLeast(m, s, lt);
    m
  }

  /** The elements of `s` in ascending order, each once. */
  function SortSet<T(==,!new)>(s: set<T>, lt: (T, T) -> bool): (xs: seq<T>)
    requires StrictTotalOrder(lt)
    ensures |xs| == |s|
    ensures forall x :: x in xs <==> x in s
    ensures StrictlyAscending(xs, lt)
    decreases |s|
  {
    if s == {} then []
    else
      var m := Minimum(s, lt);
      var rest := SortSet(s - {m}, lt);
      assert forall i :: 0 <= i < |rest| ==> lt(m, rest[i]) by {
        forall i | 0 <= i < |rest| ensures lt(m, rest[i]) {
          assert rest[i] in s - {m};
        }
      }
      [m] + rest
  }

  /** Two ascending sequences with the same elements are the same sequence. */
  lemma {:induction false} AscendingUnique<T(!new)>(xs: seq<T>, ys: seq<T>, lt: (T, T) -> bool)
    requires StrictOrder(lt) && StrictlyAscending(xs, lt) && StrictlyAscending(ys, lt)
    requires forall x :: x in xs <==> x in ys
    ensures xs == ys
  {
    if xs != [] && ys != [] {
      var x0, y0 := xs[0], ys[0];
      assert y0 in ys && x0 in xs;
      var i :| 0 <= i < |xs| && xs[i] == y0;
      var j :| 0 <= j < |ys| && ys[j] == x0;
      assert i > 0 ==> lt(x0, y0);
      assert j > 0 ==> lt(y0, x0);
      assert x0 == y0;
      forall x | x in xs[1..] ensures x in ys[1..] {
        var i :| 1 <= i < |xs| && xs[i] == x;
        assert lt(xs[0], x);
        assert x in xs;
        var j :| 0 <= j < |ys| && ys[j] == x;
        assert j != 0;
      }
      forall y | y in ys[1..] ensures y in xs[1..] {
        var j :| 1 <= j < |ys| && ys[j] == y;
        assert lt(ys[0], y);
        assert y in ys;
        var i :| 0 <= i < |xs| && xs[i] == y;
        assert i != 0;
      }
      AscendingUnique(xs[1..], ys[1..], lt);
      assert xs == [xs[0]] + xs[1..] && ys == [ys[0]] + ys[1..];
    } else {
      HasMember(xs);
      HasMember(ys);
    }
  }

  lemma {:induction false} HasMember<T>(xs: seq<T>)
    ensures xs != [] ==> exists x :: x in xs
  {
    if xs != [] {
      assert xs[0] in xs;
    }
  }

  /** The elements of `xs` that satisfy `p`, in their original order. */
  function Filter<T(!new)>(xs: seq<T>, p: T -> bool): (ys: seq<T>)
    ensures |ys| <= |xs|
    ensures forall y :: y in ys <==> y in xs && p(y)
  {
    if xs == [] then []
    else if p(xs[0]) then [xs[0]] + Filter(xs[1..], p)
    else Filter(xs[1..], p)
  }

  lemma {:induction false} FilterAscending<T(!new)>(xs: seq<T>, p: T -> bool, lt: (T, T) -> bool)
    requires StrictlyAscending(xs, lt)
    ensures StrictlyAscending(Filter(xs, p), lt)
  {
    if xs != [] {
      FilterAscending(xs[1..], p, lt);
      var rest := Filter(xs[1..], p);
      forall y | y in rest ensures lt(xs[0], y) {
        var j :| 0 <= j < |xs[1..]| && xs[1..][j] == y;
        assert xs[j + 1] == y;
      }
    }
  }

  function Sum<T>(xs: seq<T>, f: T -> real): real {
    if xs == [] then 0.0 else f(xs[0]) + Sum(xs[1..], f)
  }

  lemma {:induction false} SumAppend<T>(xs: seq<T>, ys: seq<T>, f: T -> real)
    ensures Sum(xs + ys, f) == Sum(xs, f) + Sum(ys, f)
  {
    if xs != [] {
      assert (xs + ys)[1..] == xs[1..] + ys;
      SumAppend(xs[1..], ys, f);
    } else {
      assert xs + ys == ys;
    }
  }

  lemma {:induction false} SumNonNegative<T>(xs: seq<T>, f: T -> real)
    ensures (forall x :: x in xs ==> f(x) >= 0.0) ==> Sum(xs, f) >= 0.0
  {
    if xs != [] {
      SumNonNegative(xs[1..], f);
      assert forall x :: x in xs[1..] ==> x in xs;
    }
  }

  /** Splitting a sequence by a predicate and its negation splits its sum. */
  lemma {:induction false} SumPartition<T(!new)>(xs: seq<T>, f: T -> real, p: T -> bool, q: T -> bool)
    requires forall x :: q(x) <==> !p(x)
    ensures Sum(xs, f) == Sum(Filter(xs, p), f) + Sum(Filter(xs, q), f)
  {
    if xs != [] {
      SumPartition(xs[1..], f, p, q);
    }
  }

  /** Sum of `f` over the elements of `xs` whose key is `k`. */
  function SumWhere<T, K(==)>(xs: seq<T>, f: T -> real, key: T -> K, k: K): real {
    if xs == [] then 0.0
    else (if key(xs[0]) == k then f(xs[0]) else 0.0) + SumWhere(xs[1..], f, key, k)
  }

  /** A key that no element carries sums to zero. */
  lemma {:induction false} SumWhereAbsent<T, K>(xs: seq<T>, f: T -> real, key: T -> K, k: K)
    requires forall x :: x in xs ==> key(x) != k
    ensures SumWhere(xs, f, key, k) == 0.0
  {
    if xs != [] {
      SumWhereAbsent(xs[1..], f, key, k);
    }
  }

  /** Sum over the keys `ks` of the per-key sums. */
  function SumOfGroups<T, K(==)>(xs: seq<T>, f: T -> real, key: T -> K, ks: seq<K>): real {
    if ks == [] then 0.0 else SumWhere(xs, f, key, ks[0]) + SumOfGroups(xs, f, key, ks[1..])
  }

  ghost predicate Distinct<K>(ks: seq<K>) {
    forall i, j :: 0 <= i < j < |ks| ==> ks[i] != ks[j]
  }

  lemma {:induction false} AscendingDistinct<T(!new)>(xs: seq<T>, lt: (T, T) -> bool)
    requires StrictOrder(lt) && StrictlyAscending(xs, lt)
    ensures Distinct(xs)
  {
    forall i, j | 0 <= i < j < |xs| ensures xs[i] != xs[j] {
      assert lt(xs[i], xs[j]);
    }
  }

  lemma {:induction false} SumOfGroupsCons<T, K>(x: T, xs: seq<T>, f: T -> real, key: T -> K, ks: seq<K>)
    requires Distinct(ks)
    ensures SumOfGroups([x] + xs, f, key, ks)
         == SumOfGroups(xs, f, key, ks) + (if key(x) in ks then f(x) else 0.0)
  {
    var xs' := [x] + xs;
    assert xs'[1..] == xs;
    if ks != [] {
      SumOfGroupsCons(x, xs, f, key, ks[1..]);
      assert key(x) in ks <==> key(x) == ks[0] || key(x) in ks[1..];
    }
  }

  /**
   * Grouping loses nothing and counts nothing twice: when every key of
   * `xs` occurs exactly once in `ks`, the group sums add up to the sum.
   */
  lemma {:induction false} SumByGroups<T, K>(xs: seq<T>, f: T -> real, key: T -> K, ks: seq<K>)
    requires Distinct(ks)
    requires forall x :: x in xs ==> key(x) in ks
    ensures SumOfGroups(xs, f, key, ks) == Sum(xs, f)
  {
    if xs == [] {
      SumOfGroupsEmpty(f, key, ks);
    } else {
      assert xs == [xs[0]] + xs[1..];
      SumOfGroupsCons(xs[0], xs[1..], f, key, ks);
      SumByGroups(xs[1..], f, key, ks);
    }
  }

  /**
   * Group sums over the keys `ks` add up to the sum over an outer key `j`
   * when, among the elements, the key lies in `ks` exactly when the outer key is `j`.
   */
  lemma {:induction false} SumWhereByGroups<T, K, J>(xs: seq<T>, f: T -> real, key: T -> K, ks: seq<K>, outer: T -> J, j: J)
    requires Distinct(ks)
    requires forall x :: x in xs ==> (key(x) in ks <==> outer(x) == j)
    ensures SumOfGroups(xs, f, key, ks) == SumWhere(xs, f, outer, j)
  {
    if xs == [] {
      SumOfGroupsEmpty(f, key, ks);
    } else {
      assert xs == [xs[0]] + xs[1..];
      SumOfGroupsCons(xs[0], xs[1..], f, key, ks);
      assert forall x :: x in xs[1..] ==> x in xs;
      SumWhereByGroups(xs[1..], f, key, ks, outer, j);
    }
  }

  /** Two keys that pick out the same elements give the same sum. */
  lemma {:induction false} SumWhereSameSelection<T, K, J>(xs: seq<T>, f: T -> real, key: T -> K, k: K, other: T -> J, j: J)
    requires forall x :: x in xs ==> (key(x) == k <==> other(x) == j)
    ensures SumWhere(xs, f, key, k) == SumWhere(xs, f, other, j)
  {
    if xs != [] {
      assert forall x :: x in xs[1..] ==> x in xs;
      SumWhereSameSelection(xs[1..], f, key, k, other, j);
    }
  }

  lemma {:induction false} SumOfGroupsEmpty<T, K>(f: T -> real, key: T -> K, ks: seq<K>)
    ensures SumOfGroups([], f, key, ks) == 0.0
  {
    if ks != [] {
      SumOfGroupsEmpty(f, key, ks[1..]);
    }
  }

  /** Inserts `x` before the first element whose key is not greater than its own. */
  function InsertDescending<T>(x: T, xs: seq<T>, key: T -> real): (r: seq<T>)
    ensures multiset(r) == multiset(xs) + multiset{x}
    ensures |r| == |xs| + 1
  {
    if xs == [] || key(xs[0]) <= key(x) then [x] + xs
    else
      assert xs == [xs[0]] + xs[1..];
      [xs[0]] + InsertDescending(x, xs[1..], key)
  }

  ghost predicate NonIncreasing<T>(xs: seq<T>, key: T -> real) {
    forall i, j :: 0 <= i < j < |xs| ==> key(xs[i]) >= key(xs[j])
  }

  /** Sorts by non-increasing key; among equal keys the original order is kept. */
  function SortDescending<T>(xs: seq<T>, key: T -> real): (r: seq<T>)
    ensures multiset(r) == multiset(xs)
    ensures NonIncreasing(r, key)
  {
    if xs == [] then []
    else
      var rest := SortDescending(xs[1..], key);
      InsertKeepsNonIncreasing(xs[0], rest, key);
      assert xs == [xs[0]] + xs[1..];
      InsertDescending(xs[0], rest, key)
  }

  lemma {:induction false} InsertKeepsNonIncreasing<T>(x: T, xs: seq<T>, key: T -> real)
    requires NonIncreasing(xs, key)
    ensures NonIncreasing(InsertDescending(x, xs, key), key)
  {
    if xs == [] || key(xs[0]) <= key(x) {
      ConsNonIncreasing(x, xs, key);
    } else {
      var rest := xs[1..];
      assert NonIncreasing(rest, key) by {
        forall i, j | 0 <= i < j < |rest| ensures key(rest[i]) >= key(rest[j]) {
          assert rest[i] == xs[i + 1] && rest[j] == xs[j + 1];
        }
      }
      InsertKeepsNonIncreasing(x, rest, key);
      var r := InsertDescending(x, rest, key);
      forall y | y in r ensures key(xs[0]) >= key(y) {
        assert y in multiset(r);
        if y != x {
          assert y in multiset(rest);
          var j :| 0 <= j < |rest| && rest[j] == y;
          assert xs[j + 1] == y;
        }
      }
      ConsNonIncreasing(xs[0], r, key);
    }
  }

  /** An element no smaller than every element of a non-increasing sequence can go in front. */
  lemma {:induction false} ConsNonIncreasing<T>(y: T, r: seq<T>, key: T -> real)
    requires NonIncreasing(r, key)
    requires forall z :: z in r ==> key(y) >= key(z)
    ensures NonIncreasing([y] + r, key)
  {
    var out := [y] + r;
    forall i, j | 0 <= i < j < |out| ensures key(out[i]) >= key(out[j]) {
      assert out[j] == r[j - 1];
      if i > 0 {
        assert out[i] == r[i - 1];
      }
    }
  }
}
