/** Newest-first ordering: `Array.prototype.sort` with a comparator
    `(a, b) => key(b) - key(a)`. The engine's sort is stable, so it is
    modelled as a stable insertion sort. */
module Sorting {

  /** A non-empty sequence is its front followed by its last element. */
  lemma SplitLast<T>(s: seq<T>)
    requires |s| > 0
    ensures s == s[..|s| - 1] + [s[|s| - 1]]
  {
  }

  /** Keys never increase from left to right. */
  predicate SortedDesc<T>(s: seq<T>, key: T -> int) {
    forall i, j :: 0 <= i < j < |s| ==> key(s[i]) >= key(s[j])
  }

  /** `x` may go in front of a sorted sequence whose first key is not larger. */
  lemma PrependSorted<T>(x: T, s: seq<T>, key: T -> int)
    requires SortedDesc(s, key)
    requires s == [] || key(s[0]) <= key(x)
    ensures SortedDesc([x] + s, key)
  {
    forall i | 0 <= i < |s| ensures key(s[i]) <= key(x) {
      if i > 0 { assert key(s[0]) >= key(s[i]); }
    }
  }

  /** Keeping the head of `s` and inserting `x` into the rest, giving `t`,
      keeps the order and the elements. */
  lemma KeepHead<T>(x: T, s: seq<T>, t: seq<T>, key: T -> int)
    requires SortedDesc(s, key) && s != [] && key(s[0]) > key(x)
    requires SortedDesc(t, key) && multiset(t) == multiset(s[1..]) + multiset{x}
    ensures SortedDesc([s[0]] + t, key)
    ensures multiset([s[0]] + t) == multiset(s) + multiset{x}
  {
    assert [s[0]] + s[1..] == s;
    forall i | 0 <= i < |t| ensures key(t[i]) <= key(s[0]) {
      if t[i] != x {
        assert t[i] in multiset(s[1..]) by { assert t[i] in multiset(t); }
        var j :| 0 <= j < |s[1..]| && s[1..][j] == t[i];
        assert s[j + 1] == t[i];
      }
    }
  }

  /** Puts `x` in front of the first element whose key is not larger, so
      that `x` stays ahead of later elements with an equal key. */
  function Insert<T>(x: T, s: seq<T>, key: T -> int): (r: seq<T>)
    requires SortedDesc(s, key)
    ensures SortedDesc(r, key)
    ensures multiset(r) == multiset(s) + multiset{x}
    ensures |r| == |s| + 1
  {
    if s == [] || key(s[0]) <= key(x) then
      PrependSorted(x, s, key);
      [x] + s
    else
      var t := Insert(x, s[1..], key);
      KeepHead(x, s, t, key);
      [s[0]] + t
  }

  /** The sorted rearrangement of `s`, largest key first. */
  function SortDesc<T>(s: seq<T>, key: T -> int): (r: seq<T>)
    ensures SortedDesc(r, key)
    ensures multiset(r) == multiset(s)
    ensures |r| == |s|
  {
    if s == [] then []
    else
      assert [s[0]] + s[1..] == s;
      Insert(s[0], SortDesc(s[1..], key), key)
  }

  /** An element whose key is strictly larger than every other element's
      key comes out first. */
  lemma {:induction false} LargestFirst<T>(s: seq<T>, x: T, key: T -> int)
    requires x in s
    requires forall i :: 0 <= i < |s| && s[i] != x ==> key(s[i]) < key(x)
    ensures SortDesc(s, key)[0] == x
  {
    var r := SortDesc(s, key);
    assert x in multiset(r);
    var j :| 0 <= j < |r| && r[j] == x;
    assert r[0] in multiset(s);
  }
}
