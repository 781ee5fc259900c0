/**
 * Ordering and limiting of query results: the `sort` and `limit` steps
 * that the database applies to listing, text search and geo queries.
 */
module Ranking {
  import opened Types

  /** s is in non-decreasing order of key. */
  predicate SortedBy<T>(s: seq<T>, key: T -> real) {
    forall i, j :: 0 <= i < j < |s| ==> key(s[i]) <= key(s[j])
  }

  /** Every element of s has a key of at least b. */
  predicate Bounded<T>(b: real, s: seq<T>, key: T -> real) {
    forall i :: 0 <= i < |s| ==> b <= key(s[i])
  }

  function Insert<T(==)>(x: T, s: seq<T>, key: T -> real): (r: seq<T>)
    requires SortedBy(s, key)
    ensures SortedBy(r, key)
    ensures multiset(r) == multiset(s) + multiset{x}
    ensures forall b :: b <= key(x) && Bounded(b, s, key) ==> Bounded(b, r, key)
    decreases |s|
  {
    if s == [] || key(x) <= key(s[0]) then [x] + s
    else
      assert s == [s[0]] + s[1..];
      assert Bounded(key(s[0]), s[1..], key);
      var rest := Insert(x, s[1..], key);
      ConsSorted(s[0], rest, key);
      [s[0]] + rest
  }

  /** Putting an element no larger than any of a sorted sequence in front keeps it sorted. */
  lemma ConsSorted<T>(a: T, s: seq<T>, key: T -> real)
    requires SortedBy(s, key) && Bounded(key(a), s, key)
    ensures SortedBy([a] + s, key)
    ensures forall b :: b <= key(a) ==> Bounded(b, [a] + s, key)
  {
    forall i, j | 0 <= i < j < |[a] + s|
      ensures key(([a] + s)[i]) <= key(([a] + s)[j])
    {
      if i > 0 {
        assert ([a] + s)[i] == s[i - 1];
      }
      assert ([a] + s)[j] == s[j - 1];
    }
  }

  /** Insertion sort by key, smallest key first. */
  function SortBy<T(==)>(s: seq<T>, key: T -> real): (r: seq<T>)
    ensures SortedBy(r, key)
    ensures multiset(r) == multiset(s)
    ensures |r| == |s|
    decreases |s|
  {
    if s == [] then []
    else
      assert s == [s[0]] + s[1..];
      Insert(s[0], SortBy(s[1..], key), key)
  }

  /** Every element of a sorted sequence before position m is at most every element from m on. */
  lemma SplitSorted<T>(s: seq<T>, key: T -> real, m: nat, x: T)
    requires SortedBy(s, key)
    requires m <= |s|
    requires x in multiset(s[m..])
    ensures forall i :: 0 <= i < m ==> key(s[i]) <= key(x)
  {
    var j :| 0 <= j < |s[m..]| && s[m..][j] == x;
    assert s[m + j] == x;
  }

  /**
   * The first `k` elements by key (`sort` followed by `limit(k)`): as many
   * as there are, up to k, in order, taken from s, and none of the elements
   * left out has a smaller key than any element kept.
   */
  function TopK<T(==,!new)>(s: seq<T>, key: T -> real, k: nat): (r: seq<T>)
    ensures |r| == Min(k, |s|)
    ensures SortedBy(r, key)
    ensures multiset(r) <= multiset(s)
    ensures forall x :: multiset(r)[x] < multiset(s)[x] ==>
              forall i :: 0 <= i < |r| ==> key(r[i]) <= key(x)
  {
    var sorted := SortBy(s, key);
    var m := Min(k, |sorted|);
    PrefixIsTop(sorted, key, m);
    sorted[..m]
  }

  /** The first m elements of a sorted sequence are sorted, and nothing after them ranks before them. */
  lemma PrefixIsTop<T(!new)>(sorted: seq<T>, key: T -> real, m: nat)
    requires SortedBy(sorted, key)
    requires m <= |sorted|
    ensures SortedBy(sorted[..m], key)
    ensures multiset(sorted[..m]) <= multiset(sorted)
    ensures forall x :: multiset(sorted[..m])[x] < multiset(sorted)[x] ==>
              forall i :: 0 <= i < m ==> key(sorted[..m][i]) <= key(x)
  {
    assert sorted == sorted[..m] + sorted[m..];
    assert multiset(sorted) == multiset(sorted[..m]) + multiset(sorted[m..]);
    forall x | multiset(sorted[..m])[x] < multiset(sorted)[x]
      ensures forall i :: 0 <= i < m ==> key(sorted[..m][i]) <= key(x)
    {
      assert x in multiset(sorted[m..]);
      SplitSorted(sorted, key, m, x);
    }
  }

  /**
   * The slice of a sequence that `skip(skip).limit(limit)` returns: at most
   * `limit` elements, starting at position `skip`.
   */
  function Window<T>(s: seq<T>, skip: nat, limit: nat): (r: seq<T>)
    ensures |r| <= limit
    ensures |r| == if skip >= |s| then 0 else Min(limit, |s| - skip)
    ensures forall i :: 0 <= i < |r| ==> skip + i < |s| && r[i] == s[skip + i]
  {
    if skip >= |s| then [] else s[skip..Min(skip + limit, |s|)]
  }

  lemma {:induction false} WindowSorted<T>(s: seq<T>, key: T -> real, skip: nat, limit: nat)
    requires SortedBy(s, key)
    ensures SortedBy(Window(s, skip, limit), key)
  {
    var r := Window(s, skip, limit);
    forall i, j | 0 <= i < j < |r|
      ensures key(r[i]) <= key(r[j])
    {
      assert r[i] == s[skip + i] && r[j] == s[skip + j];
    }
  }

  /** Every element of a sub-multiset is an element of the larger sequence. */
  lemma SubMultisetMembers<T>(r: seq<T>, s: seq<T>)
    requires multiset(r) <= multiset(s)
    ensures forall x :: x in r ==> x in s
  {
    forall x | x in r
      ensures x in s
    {
      assert x in multiset(r);
    }
  }

  /** A window holds elements of the sequence it is cut from. */
  lemma WindowSubMultiset<T>(s: seq<T>, skip: nat, limit: nat)
    ensures multiset(Window(s, skip, limit)) <= multiset(s)
  {
    if skip < |s| {
      var hi := Min(skip + limit, |s|);
      assert s == s[..skip] + s[skip..hi] + s[hi..];
    }
  }

  /** No two elements of s agree on f. */
  predicate DistinctOn<T, K(==)>(s: seq<T>, f: T -> K) {
    forall i, j :: 0 <= i < j < |s| ==> f(s[i]) != f(s[j])
  }

  lemma {:induction false} DistinctOnCount<T, K>(s: seq<T>, f: T -> K, x: T)
    requires DistinctOn(s, f)
    ensures multiset(s)[x] <= 1
  {
    if s != [] {
      assert s == [s[0]] + s[1..];
      assert DistinctOn(s[1..], f);
      DistinctOnCount(s[1..], f, x);
      if s[0] == x {
        assert x !in s[1..];
      }
    }
  }

  /** A sub-multiset of a sequence whose elements differ on f also differs on f. */
  lemma DistinctOnSub<T, K>(r: seq<T>, s: seq<T>, f: T -> K)
    requires multiset(r) <= multiset(s)
    requires DistinctOn(s, f)
    ensures DistinctOn(r, f)
  {
    forall i, j | 0 <= i < j < |r|
      ensures f(r[i]) != f(r[j])
    {
      if r[i] == r[j] {
        var x := r[i];
        assert r == r[..j] + r[j..];
        assert x in r[..j] && x in r[j..];
        assert multiset(r)[x] == multiset(r[..j])[x] + multiset(r[j..])[x];
        DistinctOnCount(s, f, x);
      } else {
        assert r[i] in multiset(s) && r[j] in multiset(s);
        var p :| 0 <= p < |s| && s[p] == r[i];
        var q :| 0 <= q < |s| && s[q] == r[j];
        assert p != q;
        if p < q {
          assert f(s[p]) != f(s[q]);
        } else {
          assert f(s[q]) != f(s[p]);
        }
      }
    }
  }
}
