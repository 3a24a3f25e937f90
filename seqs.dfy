/** Sequence operations shared by the tables and the UI lists. */
module Seqs {
  import opened Wrappers

  /** The elements of `s` that `keep` accepts, in their original order (`Array.prototype.filter`). */
  function Filter<T(==,!new)>(s: seq<T>, keep: T -> bool): (r: seq<T>)
    ensures |r| <= |s|
    ensures forall x :: x in r <==> x in s && keep(x)
  {
    if s == [] then [] else (if keep(s[0]) then [s[0]] else []) + Filter(s[1..], keep)
  }

  /** `r` can be obtained from `s` by deleting elements, without reordering what is left. */
  ghost predicate IsSubsequence<T>(r: seq<T>, s: seq<T>)
    decreases |s|
  {
    if r == [] then true
    else if s == [] then false
    else (r[0] == s[0] && IsSubsequence(r[1..], s[1..])) || IsSubsequence(r, s[1..])
  }

  lemma {:induction false} FilterIsSubsequence<T(!new)>(s: seq<T>, keep: T -> bool)
    ensures IsSubsequence(Filter(s, keep), s)
  {
    if s != [] {
      FilterIsSubsequence(s[1..], keep);
      var r := Filter(s, keep);
      if keep(s[0]) {
        assert r[0] == s[0] && r[1..] == Filter(s[1..], keep);
      } else {
        assert r == Filter(s[1..], keep);
      }
    }
  }

  /** A filter that accepts every element changes nothing. */
  lemma {:induction false} FilterAll<T(!new)>(s: seq<T>, keep: T -> bool)
    requires forall x :: x in s ==> keep(x)
    ensures Filter(s, keep) == s
  {
    if s != [] {
      FilterAll(s[1..], keep);
      assert s == [s[0]] + s[1..];
    }
  }

  /** No element occurs twice in `s`. */
  ghost predicate NoDuplicates<T>(s: seq<T>) {
    forall i, j :: 0 <= i < j < |s| ==> s[i] != s[j]
  }

  /** Filtering a list without repeats leaves a list without repeats. */
  lemma {:induction false} FilterNoDuplicates<T(!new)>(s: seq<T>, keep: T -> bool)
    requires NoDuplicates(s)
    ensures NoDuplicates(Filter(s, keep))
  {
    if s != [] {
      assert NoDuplicates(s[1..]) by {
        forall i, j | 0 <= i < j < |s[1..]| ensures s[1..][i] != s[1..][j] {
          assert s[1..][i] == s[i + 1] && s[1..][j] == s[j + 1];
        }
      }
      FilterNoDuplicates(s[1..], keep);
      var rest := Filter(s[1..], keep);
      if keep(s[0]) {
        assert s[0] !in s[1..] by {
          forall j | 0 <= j < |s[1..]| ensures s[1..][j] != s[0] {
            assert s[1..][j] == s[j + 1];
          }
        }
        assert s[0] !in rest;
        var r := [s[0]] + rest;
        forall i, j | 0 <= i < j < |r| ensures r[i] != r[j] {
          assert r[j] == rest[j - 1];
          if i > 0 {
            assert r[i] == rest[i - 1];
          }
        }
      }
    }
  }

  /** The keys of the rows of `s`, in order. */
  function Keys<T, K>(s: seq<T>, key: T -> K): (ks: seq<K>)
    ensures |ks| == |s|
    ensures forall i :: 0 <= i < |s| ==> ks[i] == key(s[i])
  {
    seq(|s|, i requires 0 <= i < |s| => key(s[i]))
  }

  /** No two rows of `s` share a key: the primary-key or unique constraint of a table. */
  ghost predicate UniqueKeys<T, K>(s: seq<T>, key: T -> K) {
    forall i, j :: 0 <= i < j < |s| ==> key(s[i]) != key(s[j])
  }

  lemma UniqueKeysAppend<T, K>(s: seq<T>, x: T, key: T -> K)
    requires UniqueKeys(s, key)
    requires key(x) !in Keys(s, key)
    ensures UniqueKeys(s + [x], key)
  {
    var t := s + [x];
    forall i, j | 0 <= i < j < |t| ensures key(t[i]) != key(t[j]) {
      if j == |s| {
        assert Keys(s, key)[i] == key(t[i]);
      }
    }
  }

  /** Every row of `s` whose key is not `k`, in order: a `delete ... where key = k`. */
  function FilterOut<T(==,!new), K(==)>(s: seq<T>, key: T -> K, k: K): (r: seq<T>)
    ensures |r| <= |s|
    ensures forall x :: x in r <==> x in s && key(x) != k
    ensures k !in Keys(r, key)
  {
    if s == [] then [] else (if key(s[0]) != k then [s[0]] else []) + FilterOut(s[1..], key, k)
  }

  lemma UniqueKeysTail<T, K>(s: seq<T>, other: T -> K)
    requires s != [] && UniqueKeys(s, other)
    ensures UniqueKeys(s[1..], other)
    ensures forall y :: y in s[1..] ==> other(y) != other(s[0])
  {
    var t := s[1..];
    forall i, j | 0 <= i < j < |t| ensures other(t[i]) != other(t[j]) {
      assert t[i] == s[i + 1] && t[j] == s[j + 1];
    }
    forall y | y in t ensures other(y) != other(s[0]) {
      var m :| 0 <= m < |t| && t[m] == y;
      assert s[m + 1] == y;
    }
  }

  lemma UniqueKeysCons<T, K>(a: T, r: seq<T>, other: T -> K)
    requires UniqueKeys(r, other)
    requires forall y :: y in r ==> other(y) != other(a)
    ensures UniqueKeys([a] + r, other)
  {
    var u := [a] + r;
    forall i, j | 0 <= i < j < |u| ensures other(u[i]) != other(u[j]) {
      assert u[j] == r[j - 1];
      if i > 0 {
        assert u[i] == r[i - 1];
      } else {
        assert u[j] in r;
      }
    }
  }

  /** Deleting rows keeps any unique constraint of the table. */
  lemma {:induction false} FilterOutKeepsUnique<T(!new), K, J>(s: seq<T>, key: T -> K, k: K, other: T -> J)
    requires UniqueKeys(s, other)
    ensures UniqueKeys(FilterOut(s, key, k), other)
  {
    if s != [] {
      UniqueKeysTail(s, other);
      FilterOutKeepsUnique(s[1..], key, k, other);
      var rest := FilterOut(s[1..], key, k);
      if key(s[0]) != k {
        UniqueKeysCons(s[0], rest, other);
      }
    }
  }

  /** Deleting a key no row has deletes nothing. */
  lemma {:induction false} FilterOutAbsent<T(!new), K>(s: seq<T>, key: T -> K, k: K)
    ensures k !in Keys(s, key) ==> FilterOut(s, key, k) == s
  {
    if s != [] && k !in Keys(s, key) {
      assert Keys(s, key)[0] == key(s[0]);
      assert forall i :: 0 <= i < |s| - 1 ==> Keys(s[1..], key)[i] == Keys(s, key)[i + 1];
      FilterOutAbsent(s[1..], key, k);
      assert s == [s[0]] + s[1..];
    }
  }

  /** `s` without its element at `index`, the `filter((_, i) => i !== index)` idiom; an index
      outside `s` removes nothing. */
  function WithoutIndex<T>(s: seq<T>, index: int): (r: seq<T>)
    ensures 0 <= index < |s| ==> r == s[..index] + s[index + 1..]
    ensures !(0 <= index < |s|) ==> r == s
  {
    if s == [] then []
    else
      var rest := WithoutIndex(s[1..], index - 1);
      if index == 0 then rest
      else
        assert 0 < index < |s| ==> [s[0]] + s[1..][..index - 1] == s[..index];
        assert 0 < index < |s| ==> s[1..][index..] == s[index + 1..];
        [s[0]] + rest
  }

  lemma WithoutIndexAt<T>(s: seq<T>, index: int, k: int)
    requires 0 <= index < |s| && 0 <= k < |s| - 1
    ensures |WithoutIndex(s, index)| == |s| - 1
    ensures WithoutIndex(s, index)[k] == if k < index then s[k] else s[k + 1]
  {
  }

  lemma UniqueKeysConcat<T, K>(s: seq<T>, t: seq<T>, key: T -> K)
    requires UniqueKeys(s, key) && UniqueKeys(t, key)
    requires forall k :: 0 <= k < |t| ==> key(t[k]) !in Keys(s, key)
    ensures UniqueKeys(s + t, key)
  {
    var u := s + t;
    forall i, j | 0 <= i < j < |u| ensures key(u[i]) != key(u[j]) {
      if i < |s| && j >= |s| {
        assert u[j] == t[j - |s|];
        assert Keys(s, key)[i] == key(u[i]);
      } else if i >= |s| {
        assert u[i] == t[i - |s|] && u[j] == t[j - |s|];
      }
    }
  }

  /** The rows of `s` whose key is `k`, in order: a `select ... where key = k`. */
  function Matching<T(!new), K(==)>(s: seq<T>, key: T -> K, k: K): (r: seq<T>)
    ensures |r| <= |s|
    ensures forall x :: x in r <==> x in s && key(x) == k
  {
    if s == [] then [] else (if key(s[0]) == k then [s[0]] else []) + Matching(s[1..], key, k)
  }

  lemma {:induction false} MatchingNone<T(!new), K>(s: seq<T>, key: T -> K, k: K)
    requires forall i :: 0 <= i < |s| ==> key(s[i]) != k
    ensures Matching(s, key, k) == []
  {
    if s != [] {
      MatchingNone(s[1..], key, k);
    }
  }

  /** Under a unique key, at most one row matches a key value. */
  lemma {:induction false} MatchingUnique<T(!new), K>(s: seq<T>, key: T -> K, k: K)
    requires UniqueKeys(s, key)
    ensures |Matching(s, key, k)| <= 1
  {
    if s != [] {
      UniqueKeysTail(s, key);
      MatchingUnique(s[1..], key, k);
      if key(s[0]) == k {
        MatchingNone(s[1..], key, k);
      }
    }
  }

  /** `.single()` on a keyed select: the row when exactly one row matches, else nothing. */
  function Single<T(!new), K(==)>(s: seq<T>, key: T -> K, k: K): (o: Option<T>)
    ensures o.Some? ==> o.value in s && key(o.value) == k
    ensures o.None? ==> |Matching(s, key, k)| != 1
  {
    var m := Matching(s, key, k);
    if |m| == 1 then assert m[0] in m; Some(m[0]) else None
  }

  /** Under a unique key, `.single()` finds a row exactly when some row has the key. */
  lemma SingleUnique<T(!new), K>(s: seq<T>, key: T -> K, k: K)
    requires UniqueKeys(s, key)
    ensures Single(s, key, k).Some? <==> k in Keys(s, key)
  {
    MatchingUnique(s, key, k);
    if k in Keys(s, key) {
      var i :| 0 <= i < |s| && Keys(s, key)[i] == k;
      assert s[i] in Matching(s, key, k);
    }
  }

  lemma {:induction false} MatchingAppend<T(!new), K>(s: seq<T>, t: seq<T>, key: T -> K, k: K)
    ensures Matching(s + t, key, k) == Matching(s, key, k) + Matching(t, key, k)
  {
    if s != [] {
      assert (s + t)[0] == s[0] && (s + t)[1..] == s[1..] + t;
      MatchingAppend(s[1..], t, key, k);
    } else {
      assert s + t == t;
    }
  }

  /** Deleting rows by one key leaves the rows matching another key alone when no deleted row
      matches it. */
  lemma {:induction false} MatchingFilterOut<T(!new), K, J>(s: seq<T>, gone: T -> J, j: J, key: T -> K, k: K)
    requires forall i :: 0 <= i < |s| && gone(s[i]) == j ==> key(s[i]) != k
    ensures Matching(FilterOut(s, gone, j), key, k) == Matching(s, key, k)
  {
    if s != [] {
      var t := s[1..];
      assert forall i :: 0 <= i < |t| ==> t[i] == s[i + 1];
      MatchingFilterOut(t, gone, j, key, k);
      var head := if gone(s[0]) != j then [s[0]] else [];
      assert FilterOut(s, gone, j) == head + FilterOut(t, gone, j);
      MatchingAppend(head, FilterOut(t, gone, j), key, k);
      assert Matching(head, key, k) == (if key(s[0]) == k then [s[0]] else []) by {
        if gone(s[0]) != j {
          assert head[1..] == [];
        }
      }
    }
  }

  /** Rows that are equal, or match `k` on neither side, leave the matching rows equal. */
  lemma {:induction false} MatchingPointwise<T(!new), K>(s: seq<T>, t: seq<T>, key: T -> K, k: K)
    requires |s| == |t|
    requires forall i :: 0 <= i < |s| ==> s[i] == t[i] || (key(s[i]) != k && key(t[i]) != k)
    ensures Matching(s, key, k) == Matching(t, key, k)
  {
    if s != [] {
      MatchingPointwise(s[1..], t[1..], key, k);
    }
  }
}
