/**
 * The two sorts the duplicate scripts rely on: `sorted` on string keys (code-point
 * lexicographic order, ascending) and the stable `sorted(..., key=len, reverse=True)` on
 * entries, both written as insertion sorts.
 */
module Sorting {
  /** Python's `a <= b` on strings: lexicographic by code point, a prefix first. */
  predicate StrLe(a: string, b: string)
    decreases |a|
  {
    a == [] || (b != [] && (a[0] < b[0] || (a[0] == b[0] && StrLe(a[1..], b[1..]))))
  }

  lemma {:induction false} StrLeTotal(a: string, b: string)
    ensures StrLe(a, b) || StrLe(b, a)
    decreases |a|
  {
    if a != [] && b != [] && a[0] == b[0] {
      StrLeTotal(a[1..], b[1..]);
    }
  }

  lemma {:induction false} StrLeAntisymmetric(a: string, b: string)
    requires StrLe(a, b) && StrLe(b, a)
    ensures a == b
    decreases |a|
  {
    if a != [] {
      StrLeAntisymmetric(a[1..], b[1..]);
      assert a == [a[0]] + a[1..] && b == [b[0]] + b[1..];
    }
  }

  /** Every key is at most the next one. */
  predicate SortedStrings(s: seq<string>) {
    forall i :: 0 < i < |s| ==> StrLe(s[i - 1], s[i])
  }

  function InsertString(x: string, s: seq<string>): (r: seq<string>)
    requires SortedStrings(s)
    ensures SortedStrings(r) && multiset(r) == multiset(s) + multiset{x}
    ensures |r| == |s| + 1 && (r[0] == x || (s != [] && r[0] == s[0]))
    decreases |s|
  {
    if s == [] || StrLe(x, s[0]) then [x] + s
    else
      StrLeTotal(x, s[0]);
      var rest := InsertString(x, s[1..]);
      assert s == [s[0]] + s[1..];
      [s[0]] + rest
  }

  /** `sorted(keys)` */
  function SortStrings(s: seq<string>): (r: seq<string>)
    ensures SortedStrings(r) && multiset(r) == multiset(s) && |r| == |s|
    decreases |s|
  {
    if s == [] then []
    else
      assert s == [s[0]] + s[1..];
      InsertString(s[0], SortStrings(s[1..]))
  }

  /** Every entry's key is at least the next one's. */
  predicate SortedDesc<T>(s: seq<T>, key: T -> nat) {
    forall i :: 0 < i < |s| ==> key(s[i - 1]) >= key(s[i])
  }

  /** Puts `x` before the first entry whose key is not larger, so that among equal keys `x` comes first. */
  function InsertDesc<T>(x: T, s: seq<T>, key: T -> nat): (r: seq<T>)
    requires SortedDesc(s, key)
    ensures SortedDesc(r, key) && multiset(r) == multiset(s) + multiset{x}
    ensures |r| == |s| + 1 && (r[0] == x || (s != [] && r[0] == s[0]))
    ensures s == [] || key(s[0]) <= key(x) ==> r[0] == x
    ensures s != [] && key(s[0]) > key(x) ==> r[0] == s[0]
    decreases |s|
  {
    if s == [] || key(s[0]) <= key(x) then [x] + s
    else
      var rest := InsertDesc(x, s[1..], key);
      assert s == [s[0]] + s[1..];
      [s[0]] + rest
  }

  /** `sorted(s, key=key, reverse=True)`, which keeps equal keys in their original order. */
  function SortDesc<T>(s: seq<T>, key: T -> nat): (r: seq<T>)
    ensures SortedDesc(r, key) && multiset(r) == multiset(s) && |r| == |s|
    decreases |s|
  {
    if s == [] then []
    else
      assert s == [s[0]] + s[1..];
      InsertDesc(s[0], SortDesc(s[1..], key), key)
  }

  /** The entries of `s` whose key is `k`, in their order in `s`. */
  function WithKey<T>(s: seq<T>, key: T -> nat, k: nat): (r: seq<T>)
    ensures |r| <= |s| && forall x :: x in r ==> x in s && key(x) == k
    decreases |s|
  {
    if s == [] then []
    else (if key(s[0]) == k then [s[0]] else []) + WithKey(s[1..], key, k)
  }

  lemma WithKeyCons<T>(y: T, t: seq<T>, key: T -> nat, k: nat)
    ensures WithKey([y] + t, key, k) == (if key(y) == k then [y] else []) + WithKey(t, key, k)
  {
    assert ([y] + t)[0] == y && ([y] + t)[1..] == t;
  }

  /** Inserting `x` puts it ahead of every entry with the same key. */
  lemma {:induction false} InsertDescWithKey<T>(x: T, s: seq<T>, key: T -> nat, k: nat)
    requires SortedDesc(s, key)
    ensures WithKey(InsertDesc(x, s, key), key, k) == (if key(x) == k then [x] else []) + WithKey(s, key, k)
    decreases |s|
  {
    if s == [] || key(s[0]) <= key(x) {
      WithKeyCons(x, s, key, k);
    } else {
      var rest := InsertDesc(x, s[1..], key);
      var head := if key(s[0]) == k then [s[0]] else [];
      var mid := if key(x) == k then [x] else [];
      assert InsertDesc(x, s, key) == [s[0]] + rest;
      assert SortedDesc(s[1..], key);
      WithKeyCons(s[0], rest, key, k);
      InsertDescWithKey(x, s[1..], key, k);
      assert s == [s[0]] + s[1..];
      WithKeyCons(s[0], s[1..], key, k);
      var w := WithKey(s[1..], key, k);
      if key(x) == k {
        assert head == [] && [] + (mid + w) == mid + w && [] + w == w;
      } else {
        assert mid == [] && [] + w == w && [] + (head + w) == head + w;
      }
    }
  }

  /** The sort is stable: for every key, the entries with that key keep their original order. */
  lemma {:induction false} SortDescStable<T>(s: seq<T>, key: T -> nat, k: nat)
    ensures WithKey(SortDesc(s, key), key, k) == WithKey(s, key, k)
    decreases |s|
  {
    if s != [] {
      SortDescStable(s[1..], key, k);
      InsertDescWithKey(s[0], SortDesc(s[1..], key), key, k);
    }
  }

  /** Entry i has the largest key, and every earlier entry a smaller one. */
  predicate FirstLongest<T>(s: seq<T>, key: T -> nat, i: nat)
    requires i < |s|
  {
    (forall j :: 0 <= j < |s| ==> key(s[j]) <= key(s[i])) && (forall j :: 0 <= j < i ==> key(s[j]) < key(s[i]))
  }

  lemma LongestHere<T>(s: seq<T>, key: T -> nat, i: nat)
    requires i < |s| - 1 && FirstLongest(s[1..], key, i) && key(s[1..][i]) <= key(s[0])
    ensures FirstLongest(s, key, 0)
  {
    forall j | 0 < j < |s| ensures key(s[j]) <= key(s[0]) {
      assert s[j] == s[1..][j - 1];
    }
  }

  lemma LongestLater<T>(s: seq<T>, key: T -> nat, i: nat)
    requires i < |s| - 1 && FirstLongest(s[1..], key, i) && key(s[1..][i]) > key(s[0])
    ensures FirstLongest(s, key, i + 1)
  {
    assert s[i + 1] == s[1..][i];
    forall j | 0 < j < |s| ensures key(s[j]) <= key(s[i + 1]) {
      assert s[j] == s[1..][j - 1];
    }
    forall j | 0 < j < i + 1 ensures key(s[j]) < key(s[i + 1]) {
      assert s[j] == s[1..][j - 1];
    }
  }

  /** The first entry of the sorted list is the first entry with the largest key. */
  lemma {:induction false} SortDescHead<T>(s: seq<T>, key: T -> nat)
    requires s != []
    ensures exists i: nat :: i < |s| && s[i] == SortDesc(s, key)[0] && FirstLongest(s, key, i)
    decreases |s|
  {
    var tail := s[1..];
    var t := SortDesc(tail, key);
    var r := SortDesc(s, key);
    assert r == InsertDesc(s[0], t, key);
    if t == [] {
      assert |s| == 1 && s[0] == r[0] && FirstLongest(s, key, 0);
    } else {
      SortDescHead(tail, key);
      var i: nat :| i < |tail| && tail[i] == t[0] && FirstLongest(tail, key, i);
      if key(t[0]) <= key(s[0]) {
        LongestHere(s, key, i);
        assert r[0] == s[0];
      } else {
        LongestLater(s, key, i);
        assert r[0] == s[i + 1];
      }
    }
  }
}
