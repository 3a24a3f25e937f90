/** Ordering a list by a numeric key, largest first: the store's `order(..., { ascending: false })`
    and the page's comparator sort. */
module Sorting {

  /** Along `s`, `key` never increases. */
  ghost predicate NonIncreasing<T>(s: seq<T>, key: T -> real) {
    forall i, j :: 0 <= i < j < |s| ==> key(s[i]) >= key(s[j])
  }

  /** Each neighbour pair of `s` is in order. */
  ghost predicate StepsDown<T>(s: seq<T>, key: T -> real) {
    forall i :: 0 < i < |s| ==> key(s[i - 1]) >= key(s[i])
  }

  lemma {:induction false} StepsDownIsNonIncreasing<T>(s: seq<T>, key: T -> real)
    requires StepsDown(s, key)
    ensures NonIncreasing(s, key)
  {
    if |s| > 1 {
      StepsDownIsNonIncreasing(s[1..], key);
      forall j | 0 < j < |s| ensures key(s[0]) >= key(s[j]) {
        assert s[1..][0] == s[1];
        assert j == 1 || key(s[1..][0]) >= key(s[1..][j - 1]);
      }
      forall i, j | 0 <= i < j < |s| ensures key(s[i]) >= key(s[j]) {
        if i > 0 {
          assert s[i] == s[1..][i - 1] && s[j] == s[1..][j - 1];
        }
      }
    }
  }

  /** `x` placed into the ordered `s` before the first element with a smaller key. */
  function InsertDesc<T>(x: T, s: seq<T>, key: T -> real): (r: seq<T>)
    requires StepsDown(s, key)
    ensures StepsDown(r, key)
    ensures multiset(r) == multiset(s) + multiset{x}
    ensures |r| == |s| + 1
    ensures r[0] == x || (s != [] && r[0] == s[0])
  {
    if s == [] || key(x) >= key(s[0]) then [x] + s
    else
      assert s == [s[0]] + s[1..];
      [s[0]] + InsertDesc(x, s[1..], key)
  }

  /** `s` reordered so that `key` never increases (an insertion sort). */
  function SortDesc<T>(s: seq<T>, key: T -> real): (r: seq<T>)
    ensures StepsDown(r, key)
    ensures multiset(r) == multiset(s)
    ensures |r| == |s|
  {
    if s == [] then []
    else
      assert s == [s[0]] + s[1..];
      InsertDesc(s[0], SortDesc(s[1..], key), key)
  }

  /** The sorted list is a permutation of the input in which `key` never increases. */
  lemma SortDescSpec<T>(s: seq<T>, key: T -> real)
    ensures NonIncreasing(SortDesc(s, key), key)
    ensures multiset(SortDesc(s, key)) == multiset(s)
  {
    StepsDownIsNonIncreasing(SortDesc(s, key), key);
  }

  /** Sorting neither adds nor drops elements. */
  lemma SortDescMembers<T>(s: seq<T>, key: T -> real)
    ensures forall x :: x in SortDesc(s, key) <==> x in s
  {
    var r := SortDesc(s, key);
    forall x ensures x in r <==> x in s {
      assert x in r <==> x in multiset(r);
      assert x in s <==> x in multiset(s);
    }
  }
}
