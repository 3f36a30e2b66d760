/**
 * Array and dictionary operations the blog code uses: `Array.prototype.filter`
 * and `map`, the order a filter keeps, and the sum of a dictionary's counts.
 */
module Collections {

  /** `s.filter(keep)`: the elements that pass `keep`, in their original order. */
  function Filter<T(!new)>(s: seq<T>, keep: T -> bool): (r: seq<T>)
    ensures |r| <= |s|
    ensures forall x :: x in r <==> x in s && keep(x)
    ensures forall x :: multiset(r)[x] == if keep(x) then multiset(s)[x] else 0
  {
    if s == [] then []
    else
      assert s == [s[0]] + s[1..];
      (if keep(s[0]) then [s[0]] else []) + Filter(s[1..], keep)
  }

  /** Two predicates that agree everywhere filter alike. */
  lemma {:induction false} FilterExtensional<T(!new)>(s: seq<T>, f: T -> bool, g: T -> bool)
    requires forall x :: f(x) == g(x)
    ensures Filter(s, f) == Filter(s, g)
  {
    if s != [] {
      FilterExtensional(s[1..], f, g);
    }
  }

  /** `s.map(f)`. */
  function Map<A, B>(s: seq<A>, f: A -> B): (r: seq<B>)
    ensures |r| == |s|
    ensures forall i :: 0 <= i < |s| ==> r[i] == f(s[i])
  {
    seq(|s|, i requires 0 <= i < |s| => f(s[i]))
  }

  /** What `s.filter(keep).map(f)` holds: the images of the kept elements. */
  lemma MapFilterMembers<A(!new), B>(s: seq<A>, keep: A -> bool, f: A -> B, y: B)
    ensures y in Map(Filter(s, keep), f) <==> exists x :: x in s && keep(x) && y == f(x)
  {
    var kept := Filter(s, keep);
    var ys := Map(kept, f);
    if y in ys {
      var i :| 0 <= i < |ys| && ys[i] == y;
      assert kept[i] in kept;
    }
    if exists x :: x in s && keep(x) && y == f(x) {
      var x :| x in s && keep(x) && y == f(x);
      var i :| 0 <= i < |kept| && kept[i] == x;
      assert ys[i] == y;
    }
  }

  /** `a` is obtained from `b` by deleting elements, keeping the order of the rest. */
  predicate Subsequence<T(==)>(a: seq<T>, b: seq<T>)
    decreases |b|
  {
    if a == [] then true
    else if b == [] then false
    else (a[0] == b[0] && Subsequence(a[1..], b[1..])) || Subsequence(a, b[1..])
  }

  lemma {:induction false} FilterIsSubsequence<T(!new)>(s: seq<T>, keep: T -> bool)
    ensures Subsequence(Filter(s, keep), s)
  {
    if s != [] {
      var rest := Filter(s[1..], keep);
      FilterIsSubsequence(s[1..], keep);
      if keep(s[0]) {
        assert Filter(s, keep) == [s[0]] + rest;
        assert ([s[0]] + rest)[1..] == rest;
      } else {
        assert Filter(s, keep) == rest;
      }
    }
  }

  /** `rel` holds between every element and every later one. */
  ghost predicate Pairwise<T>(s: seq<T>, rel: (T, T) -> bool) {
    forall i, j :: 0 <= i < j < |s| ==> rel(s[i], s[j])
  }

  /** Putting in front an element related to every later one keeps a list pairwise related. */
  lemma PairwiseCons<T>(x: T, rest: seq<T>, rel: (T, T) -> bool)
    requires Pairwise(rest, rel)
    requires forall y :: y in rest ==> rel(x, y)
    ensures Pairwise([x] + rest, rel)
  {
    var r := [x] + rest;
    forall i, j | 0 <= i < j < |r|
      ensures rel(r[i], r[j])
    {
      assert r[j] == rest[j - 1];
      if i > 0 {
        assert r[i] == rest[i - 1];
      }
    }
  }

  /** A filter keeps every pairwise relation of its input, so a filtered sorted list is sorted. */
  lemma {:induction false} FilterPairwise<T(!new)>(s: seq<T>, keep: T -> bool, rel: (T, T) -> bool)
    requires Pairwise(s, rel)
    ensures Pairwise(Filter(s, keep), rel)
  {
    if s != [] {
      var tail := s[1..];
      var rest := Filter(tail, keep);
      assert Pairwise(tail, rel);
      FilterPairwise(tail, keep, rel);
      if keep(s[0]) {
        forall y | y in rest
          ensures rel(s[0], y)
        {
          var k :| 0 <= k < |tail| && tail[k] == y;
          assert s[k + 1] == y;
        }
        PairwiseCons(s[0], rest, rel);
      }
    }
  }

  /** The sum of all values of a dictionary. */
  ghost function SumValues<K>(m: map<K, int>): int
    decreases |m|
  {
    if |m| == 0 then 0
    else
      var k := AnyKey(m);
      m[k] + SumValues(m - {k})
  }

  /** Some key of a non-empty dictionary. */
  ghost function AnyKey<K>(m: map<K, int>): (k: K)
    requires |m| > 0
    ensures k in m
  {
    var k :| k in m; k
  }

  /** The sum does not depend on which key is taken out first. */
  lemma {:induction false} SumValuesRemove<K>(m: map<K, int>, k: K)
    requires k in m
    ensures SumValues(m) == m[k] + SumValues(m - {k})
    decreases |m|
  {
    var j := AnyKey(m);
    assert SumValues(m) == m[j] + SumValues(m - {j});
    if j != k {
      var withoutJ, withoutK := m - {j}, m - {k};
      assert withoutJ.Keys == m.Keys - {j} && withoutK.Keys == m.Keys - {k};
      assert |withoutJ| == |m| - 1 && |withoutK| == |m| - 1;
      assert k in withoutJ && withoutJ[k] == m[k];
      assert j in withoutK && withoutK[j] == m[j];
      var withoutBoth := withoutJ - {k};
      assert withoutBoth == withoutK - {j};
      SumValuesRemove(withoutJ, k);
      SumValuesRemove(withoutK, j);
    }
  }

  /** Setting `k` to `v` changes the sum by `v` minus the old value of `k` (zero when absent). */
  lemma SumValuesUpdate<K>(m: map<K, int>, k: K, v: int)
    ensures SumValues(m[k := v]) == SumValues(m) - (if k in m then m[k] else 0) + v
  {
    var m' := m[k := v];
    SumValuesRemove(m', k);
    assert m' - {k} == m - {k};
    if k in m {
      SumValuesRemove(m, k);
    } else {
      assert m - {k} == m;
    }
  }

  /** Counting one more occurrence of `k` adds one to the total. */
  lemma SumValuesBump<K>(m: map<K, int>, k: K)
    ensures SumValues(if k in m then m[k := m[k] + 1] else m[k := 1]) == SumValues(m) + 1
  {
    if k in m {
      SumValuesUpdate(m, k, m[k] + 1);
    } else {
      SumValuesUpdate(m, k, 1);
    }
  }
}
