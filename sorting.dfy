/**
 * A stable insertion sort by an integer key, standing for SQL `ORDER BY key ASC`,
 * and the facts about distinct sequences that the order proofs use.
 */
module Sorting {

  predicate SortedBy<T>(s: seq<T>, key: T -> int) {
    forall i, j :: 0 <= i < j < |s| ==> key(s[i]) <= key(s[j])
  }

  /** Places `x` after every element whose key is not greater than its own. */
  function InsertBy<T>(x: T, s: seq<T>, key: T -> int): (r: seq<T>)
    requires SortedBy(s, key)
    ensures multiset(r) == multiset(s) + multiset{x}
    ensures SortedBy(r, key)
    decreases |s|
  {
    if s == [] then [x]
    else if key(x) < key(s[0]) then [x] + s
    else
      var rest := InsertBy(x, s[1..], key);
      assert s == [s[0]] + s[1..];
      ConsSorted(s[0], rest, s[1..], x, key);
      [s[0]] + rest
  }

  lemma ConsSorted<T>(h: T, rest: seq<T>, tail: seq<T>, x: T, key: T -> int)
    requires SortedBy(rest, key)
    requires multiset(rest) == multiset(tail) + multiset{x}
    requires forall y :: y in tail ==> key(h) <= key(y)
    requires key(h) <= key(x)
    ensures SortedBy([h] + rest, key)
  {
    forall j | 0 <= j < |rest| ensures key(h) <= key(rest[j]) {
      assert rest[j] in multiset(rest);
    }
  }

  function SortBy<T>(s: seq<T>, key: T -> int): (r: seq<T>)
    ensures multiset(r) == multiset(s)
    ensures |r| == |s|
    ensures SortedBy(r, key)
    decreases |s|
  {
    if s == [] then []
    else
      assert s == [s[0]] + s[1..];
      InsertBy(s[0], SortBy(s[1..], key), key)
  }

  function Elems<T>(s: seq<T>): set<T> {
    set x | x in s
  }

  /** A sequence has no repeated element exactly when it has as many elements as its set. */
  lemma {:induction false} DistinctCard<T>(s: seq<T>)
    ensures Distinct(s) <==> |Elems(s)| == |s|
  {
    if s == [] {
      assert Elems(s) == {};
    } else {
      var t := s[1..];
      assert s == [s[0]] + t;
      DistinctCard(t);
      ConsDistinct(s[0], t);
      assert Elems(s) == {s[0]} + Elems(t);
      CardBound(t);
      if s[0] in t {
        assert Elems(s) == Elems(t);
      } else {
        assert |Elems(s)| == |Elems(t)| + 1;
      }
    }
  }

  /** A sequence with a head has no repeats exactly when its tail has none and lacks the head. */
  lemma ConsDistinct<T>(h: T, t: seq<T>)
    ensures Distinct([h] + t) <==> h !in t && Distinct(t)
  {
    var s := [h] + t;
    if h in t {
      var j :| 0 <= j < |t| && t[j] == h;
      assert s[0] == s[j + 1];
    } else if Distinct(t) {
      forall i, j | 0 <= i < j < |s| ensures s[i] != s[j] {
        assert s[j] == t[j - 1];
        if i > 0 {
          assert s[i] == t[i - 1];
        }
      }
    } else {
      var i, j :| 0 <= i < j < |t| && t[i] == t[j];
      assert s[i + 1] == s[j + 1];
    }
  }

  lemma {:induction false} CardBound<T>(s: seq<T>)
    ensures |Elems(s)| <= |s|
  {
    if s == [] {
      assert Elems(s) == {};
    } else {
      assert Elems(s) == {s[0]} + Elems(s[1..]);
      CardBound(s[1..]);
    }
  }

  /** Reordering keeps a sequence free of repeats. */
  lemma PermutationDistinct<T>(a: seq<T>, b: seq<T>)
    requires multiset(a) == multiset(b)
    requires Distinct(a)
    ensures Distinct(b)
  {
    DistinctCard(a);
    DistinctCard(b);
    assert |a| == |multiset(a)| == |multiset(b)| == |b|;
    assert Elems(a) == Elems(b) by {
      forall x ensures x in Elems(a) <==> x in Elems(b) {
        assert x in a <==> x in multiset(a);
        assert x in b <==> x in multiset(b);
      }
    }
  }

  predicate Distinct<T(==)>(s: seq<T>) {
    forall i, j :: 0 <= i < j < |s| ==> s[i] != s[j]
  }

  /**
   * Strictly increasing integers drawn from 1..n, n of them, are exactly 1, 2, ..., n.
   */
  lemma {:induction false} IncreasingFill(keys: seq<int>)
    requires forall i :: 0 <= i < |keys| ==> 1 <= keys[i] <= |keys|
    requires forall i, j :: 0 <= i < j < |keys| ==> keys[i] < keys[j]
    ensures forall k :: 0 <= k < |keys| ==> keys[k] == k + 1
  {
    var n := |keys|;
    forall k | 0 <= k < n ensures keys[k] == k + 1 {
      LowerBound(keys, k);
      UpperBound(keys, k);
    }
  }

  lemma {:induction false} LowerBound(keys: seq<int>, k: nat)
    requires k < |keys|
    requires forall i :: 0 <= i < |keys| ==> 1 <= keys[i]
    requires forall i, j :: 0 <= i < j < |keys| ==> keys[i] < keys[j]
    ensures keys[k] >= k + 1
  {
    if k > 0 {
      LowerBound(keys, k - 1);
    }
  }

  lemma {:induction false} UpperBound(keys: seq<int>, k: nat)
    requires k < |keys|
    requires forall i :: 0 <= i < |keys| ==> keys[i] <= |keys|
    requires forall i, j :: 0 <= i < j < |keys| ==> keys[i] < keys[j]
    ensures keys[k] <= k + 1
    decreases |keys| - k
  {
    if k < |keys| - 1 {
      UpperBound(keys, k + 1);
    }
  }
}
