/**
 * Sorting by a real-valued key and keeping a prefix: the model of a Java stream's
 * `sorted(comparing(key)).limit(n)` and of SQL's `ORDER BY ... LIMIT n`. When keys tie,
 * the stream sort is stable, as this insertion sort is; SQL's ORDER BY leaves ties open, and
 * every property stated about this sort holds for any order of the tied rows.
 */
module Sorting {

  ghost predicate SortedBy<T>(s: seq<T>, key: T -> real) {
    forall i, j :: 0 <= i < j < |s| ==> key(s[i]) <= key(s[j])
  }

  function Insert<T>(x: T, s: seq<T>, key: T -> real): (r: seq<T>)
    requires SortedBy(s, key)
    ensures SortedBy(r, key)
    ensures multiset(r) == multiset(s) + multiset{x}
    ensures |r| == |s| + 1
  {
    if s == [] then [x]
    else if key(x) <= key(s[0]) then [x] + s
    else
      var rest := Insert(x, s[1..], key);
      assert s == [s[0]] + s[1..];
      InsertAboveHead(x, s, key, rest);
      [s[0]] + rest
  }

  /** Every element of the sorted tail, and the inserted one, has a key no smaller than the head's. */
  lemma InsertAboveHead<T>(x: T, s: seq<T>, key: T -> real, rest: seq<T>)
    requires s != [] && SortedBy(s, key) && key(s[0]) < key(x)
    requires multiset(rest) == multiset(s[1..]) + multiset{x}
    ensures forall y :: y in rest ==> key(s[0]) <= key(y)
  {
    forall y | y in rest ensures key(s[0]) <= key(y) {
      assert y in multiset(rest);
      if y != x {
        assert y in multiset(s[1..]);
        assert y in s[1..];
      }
    }
  }

  /** The elements of `s` in ascending order of `key`. */
  function SortBy<T>(s: seq<T>, key: T -> real): (r: seq<T>)
    ensures SortedBy(r, key)
    ensures multiset(r) == multiset(s)
    ensures |r| == |s|
  {
    if s == [] then []
    else
      assert s == [s[0]] + s[1..];
      Insert(s[0], SortBy(s[1..], key), key)
  }

  /** Sorting keeps exactly the elements it was given. */
  lemma SortByMembers<T>(s: seq<T>, key: T -> real)
    ensures forall x :: x in SortBy(s, key) <==> x in s
  {
    forall x ensures x in SortBy(s, key) <==> x in s {
      assert x in SortBy(s, key) <==> x in multiset(SortBy(s, key));
      assert x in s <==> x in multiset(s);
    }
  }

  /** `limit(n)`: the first `n` elements, or all of them when there are fewer. */
  function Take<T>(s: seq<T>, n: nat): (r: seq<T>)
    ensures |r| == if |s| <= n then |s| else n
    ensures r == s[..|r|]
  {
    if |s| <= n then s else s[..n]
  }

  /**
   * What `sorted(...).limit(n)` promises: the kept elements come in ascending order, there
   * are `n` of them unless fewer were given, and every element left out has a key at least
   * as large as every key kept.
   */
  lemma {:induction false} SortedPrefixIsSmallest<T>(s: seq<T>, key: T -> real, n: nat)
    ensures var r := Take(SortBy(s, key), n);
      && SortedBy(r, key)
      && |r| == (if |s| <= n then |s| else n)
      && (forall y :: y in r ==> y in s)
      && (|s| <= n ==> forall y :: y in s ==> y in r)
      && (forall y, z :: y in s && y !in r && z in r ==> key(z) <= key(y))
  {
    var t := SortBy(s, key);
    var r := Take(t, n);
    SortByMembers(s, key);
    assert forall y :: y in r ==> y in t;
    forall y, z | y in s && y !in r && z in r ensures key(z) <= key(y) {
      assert y in t;
      var j :| 0 <= j < |t| && t[j] == y;
      var i :| 0 <= i < |r| && r[i] == z;
      assert j >= |r|;
      assert t[i] == z;
    }
  }

  // ----- distinct elements -----

  predicate Distinct<T(==)>(s: seq<T>) {
    forall i, j :: 0 <= i < j < |s| ==> s[i] != s[j]
  }

  /** An element found at two positions occurs at least twice. */
  lemma RepeatedElement<T>(s: seq<T>, i: int, j: int)
    requires 0 <= i < j < |s| && s[i] == s[j]
    ensures multiset(s)[s[i]] >= 2
  {
    assert s == s[..j] + [s[j]] + s[j + 1..];
    assert s[i] in s[..j];
  }

  /** In a sequence without repeats, every element occurs at most once. */
  lemma {:induction false} DistinctCount<T>(s: seq<T>, x: T)
    requires Distinct(s)
    ensures multiset(s)[x] <= 1
    decreases |s|
  {
    if s != [] {
      var rest := s[1..];
      assert s == [s[0]] + rest;
      DistinctCount(rest, x);
      if s[0] == x {
        assert x !in rest by {
          forall k | 0 <= k < |rest| ensures rest[k] != x {
            assert rest[k] == s[k + 1];
          }
        }
      }
    }
  }

  /** A rearrangement of a sequence without repeats has none either. */
  lemma DistinctPermutation<T>(s: seq<T>, r: seq<T>)
    requires Distinct(s) && multiset(r) == multiset(s)
    ensures Distinct(r)
  {
    forall i, j | 0 <= i < j < |r| ensures r[i] != r[j] {
      if r[i] == r[j] {
        RepeatedElement(r, i, j);
        DistinctCount(s, r[i]);
      }
    }
  }
}
