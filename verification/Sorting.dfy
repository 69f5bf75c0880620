/** The stable sort by an integer key that `sort_by_key` provides. */
module Sorting {

  predicate SortedBy<T>(key: T -> int, s: seq<T>) {
    forall i, j :: 0 <= i < j < |s| ==> key(s[i]) <= key(s[j])
  }

  function Insert<T>(key: T -> int, x: T, s: seq<T>): (r: seq<T>)
    ensures multiset(r) == multiset{x} + multiset(s)
  {
    if s == [] || key(x) <= key(s[0]) then
      [x] + s
    else
      assert s == [s[0]] + s[1..];
      [s[0]] + Insert(key, x, s[1..])
  }

  function SortBy<T>(key: T -> int, s: seq<T>): (r: seq<T>)
    ensures multiset(r) == multiset(s) && |r| == |s|
  {
    if s == [] then
      []
    else
      var r := Insert(key, s[0], SortBy(key, s[1..]));
      assert s == [s[0]] + s[1..];
      assert |multiset(r)| == |multiset(s)|;
      r
  }

  /** The elements of `s` with key `k`, in order. */
  ghost function WithKey<T>(key: T -> int, k: int, s: seq<T>): seq<T> {
    if s == [] then []
    else (if key(s[0]) == k then [s[0]] else []) + WithKey(key, k, s[1..])
  }

  lemma {:induction false} InsertSorts<T>(key: T -> int, x: T, s: seq<T>)
    requires SortedBy(key, s)
    ensures SortedBy(key, Insert(key, x, s))
  {
    if s != [] && key(s[0]) < key(x) {
      var rest := Insert(key, x, s[1..]);
      InsertSorts(key, x, s[1..]);
      forall y | y in rest
        ensures key(s[0]) <= key(y)
      {
        assert y in multiset(rest);
      }
    }
  }

  lemma {:induction false} WithKeyCons<T>(key: T -> int, k: int, x: T, s: seq<T>)
    ensures WithKey(key, k, [x] + s) == (if key(x) == k then [x] else []) + WithKey(key, k, s)
  {
    assert ([x] + s)[1..] == s;
  }

  lemma {:induction false} InsertKeepsOrder<T>(key: T -> int, x: T, s: seq<T>, k: int)
    ensures WithKey(key, k, Insert(key, x, s)) == WithKey(key, k, [x] + s)
  {
    if s != [] && key(s[0]) < key(x) {
      InsertKeepsOrder(key, x, s[1..], k);
      WithKeyCons(key, k, s[0], Insert(key, x, s[1..]));
      WithKeyCons(key, k, x, s[1..]);
      WithKeyCons(key, k, x, s);
    }
  }

  /** What a stable sort is: ordered, a permutation, and equal keys keep their order. */
  lemma {:induction false} SortByIsStableSort<T>(key: T -> int, s: seq<T>, k: int)
    ensures SortedBy(key, SortBy(key, s))
    ensures multiset(SortBy(key, s)) == multiset(s)
    ensures WithKey(key, k, SortBy(key, s)) == WithKey(key, k, s)
  {
    if s != [] {
      SortByIsStableSort(key, s[1..], k);
      var t := SortBy(key, s[1..]);
      InsertSorts(key, s[0], t);
      InsertKeepsOrder(key, s[0], t, k);
      assert ([s[0]] + t)[1..] == t;
    }
  }

  lemma {:induction false} SortBySorted<T>(key: T -> int, s: seq<T>)
    requires SortedBy(key, s)
    ensures SortBy(key, s) == s
  {
    if s != [] {
      SortBySorted(key, s[1..]);
    }
  }

  function Keys<T>(key: T -> int, s: seq<T>): (r: seq<int>)
    ensures |r| == |s| && forall i :: 0 <= i < |s| ==> r[i] == key(s[i])
  {
    seq(|s|, i requires 0 <= i < |s| => key(s[i]))
  }

  function Without<T>(s: seq<T>, j: nat): seq<T>
    requires j < |s|
  {
    s[..j] + s[j + 1..]
  }

  lemma {:induction false} WithoutMultiset<T>(s: seq<T>, j: nat)
    requires j < |s|
    ensures multiset(Without(s, j)) == multiset(s) - multiset{s[j]}
    ensures multiset(s) == multiset(Without(s, j)) + multiset{s[j]}
  {
    assert s == s[..j] + [s[j]] + s[j + 1..];
  }

  lemma {:induction false} KeysWithout<T>(key: T -> int, s: seq<T>, j: nat)
    requires j < |s|
    ensures multiset(Keys(key, s)) == multiset(Keys(key, Without(s, j))) + multiset{key(s[j])}
  {
    assert Keys(key, Without(s, j)) == Without(Keys(key, s), j);
    WithoutMultiset(Keys(key, s), j);
  }

  lemma {:induction false} PermutedKeys<T>(key: T -> int, s: seq<T>, t: seq<T>)
    requires multiset(s) == multiset(t)
    ensures multiset(Keys(key, s)) == multiset(Keys(key, t))
  {
    assert |multiset(s)| == |s| && |multiset(t)| == |t|;
    if s != [] {
      assert s[0] in multiset(t);
      var j :| 0 <= j < |t| && t[j] == s[0];
      WithoutMultiset(s, 0);
      WithoutMultiset(t, j);
      PermutedKeys(key, Without(s, 0), Without(t, j));
      KeysWithout(key, s, 0);
      KeysWithout(key, t, j);
    }
  }

  predicate Ascending(s: seq<int>) {
    forall i, j :: 0 <= i < j < |s| ==> s[i] <= s[j]
  }

  lemma {:induction false} FirstIsLeast(s: seq<int>, t: seq<int>)
    requires s != [] && t != [] && multiset(s) == multiset(t)
    requires Ascending(s)
    ensures s[0] <= t[0]
  {
    assert t[0] in multiset(s);
    var i :| 0 <= i < |s| && s[i] == t[0];
  }

  lemma {:induction false} SameLength<T>(s: seq<T>, t: seq<T>)
    requires multiset(s) == multiset(t)
    ensures |s| == |t|
  {
    assert |multiset(s)| == |s| && |multiset(t)| == |t|;
  }

  lemma {:induction false} TailsAgree(s: seq<int>, t: seq<int>)
    requires s != [] && t != [] && s[0] == t[0] && multiset(s) == multiset(t)
    ensures multiset(s[1..]) == multiset(t[1..])
  {
    assert s == [s[0]] + s[1..] && t == [t[0]] + t[1..];
    assert multiset(s[1..]) == multiset(s) - multiset{s[0]};
    assert multiset(t[1..]) == multiset(t) - multiset{t[0]};
  }

  lemma {:induction false} SortedPermutationsAgree(s: seq<int>, t: seq<int>)
    requires multiset(s) == multiset(t)
    requires Ascending(s) && Ascending(t)
    ensures s == t
    decreases |s|
  {
    SameLength(s, t);
    if s != [] {
      assert s[0] == t[0] by {
        FirstIsLeast(s, t);
        FirstIsLeast(t, s);
      }
      assert multiset(s[1..]) == multiset(t[1..]) by {
        TailsAgree(s, t);
      }
      SortedPermutationsAgree(s[1..], t[1..]);
      assert s == [s[0]] + s[1..] && t == [t[0]] + t[1..];
    }
  }

  /** Sorted keys depend only on which elements there are, not on their order. */
  lemma {:induction false} SortedKeysAgree<T>(key: T -> int, s: seq<T>, t: seq<T>)
    requires multiset(s) == multiset(t)
    ensures Keys(key, SortBy(key, s)) == Keys(key, SortBy(key, t))
  {
    SortByIsStableSort(key, s, 0);
    SortByIsStableSort(key, t, 0);
    PermutedKeys(key, SortBy(key, s), SortBy(key, t));
    SortedPermutationsAgree(Keys(key, SortBy(key, s)), Keys(key, SortBy(key, t)));
  }

  predicate DistinctBy<T>(key: T -> int, s: seq<T>) {
    forall i, j :: 0 <= i < j < |s| ==> key(s[i]) != key(s[j])
  }

  lemma {:induction false} SameKeysSameElements<T>(key: T -> int, a: seq<T>, b: seq<T>)
    requires multiset(a) == multiset(b) && DistinctBy(key, a) && Keys(key, a) == Keys(key, b)
    ensures a == b
  {
    assert |Keys(key, a)| == |Keys(key, b)|;
    forall i | 0 <= i < |a|
      ensures a[i] == b[i]
    {
      assert Keys(key, a)[i] == Keys(key, b)[i];
      var j := IndexIn(b, i, a);
    }
  }

  /** Distinct keys leave a sort no choice at all. */
  lemma {:induction false} DistinctSortAgrees<T>(key: T -> int, s: seq<T>, t: seq<T>)
    requires multiset(s) == multiset(t) && DistinctBy(key, SortBy(key, s))
    ensures SortBy(key, s) == SortBy(key, t)
  {
    SortedKeysAgree(key, s, t);
    SameKeysSameElements(key, SortBy(key, s), SortBy(key, t));
  }

  lemma {:induction false} IndexIn<T>(b: seq<T>, i: nat, a: seq<T>) returns (j: nat)
    requires i < |b| && multiset(a) == multiset(b)
    ensures j < |a| && a[j] == b[i]
  {
    assert b[i] in multiset(a);
    j :| 0 <= j < |a| && a[j] == b[i];
  }

  predicate Distinct(s: seq<int>) {
    forall i, j :: 0 <= i < j < |s| ==> s[i] != s[j]
  }

  lemma {:induction false} DistinctMeansCountedOnce(s: seq<int>)
    ensures Distinct(s) <==> forall i :: 0 <= i < |s| ==> multiset(s)[s[i]] == 1
  {
    forall i | 0 <= i < |s|
      ensures multiset(s)[s[i]] == 1 <==> forall j :: 0 <= j < |s| && j != i ==> s[j] != s[i]
    {
      var rest := Without(s, i);
      WithoutMultiset(s, i);
      assert s[i] in rest <==> s[i] in multiset(rest);
      assert forall j :: 0 <= j < i ==> rest[j] == s[j];
      assert forall j :: i < j < |s| ==> rest[j - 1] == s[j];
    }
  }

  lemma {:induction false} DistinctPermutation(s: seq<int>, t: seq<int>)
    requires multiset(s) == multiset(t)
    ensures Distinct(s) <==> Distinct(t)
  {
    DistinctMeansCountedOnce(s);
    DistinctMeansCountedOnce(t);
    assert forall i :: 0 <= i < |s| ==> s[i] in multiset(t);
    assert forall i :: 0 <= i < |t| ==> t[i] in multiset(s);
  }
}
