/** Ranking by a real-valued key, largest first: the stable sort that
    Lists.sortList / Collections.sort give on (candidate, score) lists, and
    the top-k cut used for neighbourhoods, recommendation lists and the
    removal of the most popular items. */
module Sorting {

  predicate SortedDesc<T>(s: seq<T>, key: T -> real) {
    forall i, j :: 0 <= i < j < |s| ==> key(s[i]) >= key(s[j])
  }

  /** Puts x in front of the first element whose key is not larger than its
      own, so that x stays ahead of equal keys that came after it. */
  function Insert<T>(x: T, s: seq<T>, key: T -> real): (r: seq<T>)
    requires SortedDesc(s, key)
    ensures SortedDesc(r, key)
    ensures multiset(r) == multiset(s) + multiset{x}
    ensures |r| == |s| + 1
  {
    if |s| == 0 || key(x) >= key(s[0]) then [x] + s
    else
      var t := Insert(x, s[1..], key);
      assert multiset(s) == multiset{s[0]} + multiset(s[1..]) by {
        assert s == [s[0]] + s[1..];
      }
      BelowHead(s, x, t, key);
      ConsSorted(s[0], t, key);
      [s[0]] + t
  }

  /** The tail of a sorted list with a smaller element added stays below
      the head. */
  lemma BelowHead<T>(s: seq<T>, x: T, t: seq<T>, key: T -> real)
    requires SortedDesc(s, key) && |s| > 0 && key(x) < key(s[0])
    requires multiset(t) == multiset(s[1..]) + multiset{x}
    ensures forall i :: 0 <= i < |t| ==> key(t[i]) <= key(s[0])
  {
    forall i | 0 <= i < |t|
      ensures key(t[i]) <= key(s[0])
    {
      assert t[i] in multiset(t);
      if t[i] != x {
        assert t[i] in s[1..];
        var j :| 0 <= j < |s[1..]| && s[1..][j] == t[i];
        assert s[j + 1] == t[i];
      }
    }
  }

  lemma ConsSorted<T>(h: T, t: seq<T>, key: T -> real)
    requires SortedDesc(t, key)
    requires forall i :: 0 <= i < |t| ==> key(t[i]) <= key(h)
    ensures SortedDesc([h] + t, key)
  {
    var r := [h] + t;
    forall i, j | 0 <= i < j < |r|
      ensures key(r[i]) >= key(r[j])
    {
      assert r[j] == t[j - 1];
      if i > 0 {
        assert r[i] == t[i - 1];
      }
    }
  }

  /** Stable sort, largest key first. */
  function SortDesc<T>(s: seq<T>, key: T -> real): (r: seq<T>)
    ensures SortedDesc(r, key)
    ensures multiset(r) == multiset(s)
    ensures |r| == |s|
  {
    if |s| == 0 then []
    else
      assert s == [s[0]] + s[1..];
      Insert(s[0], SortDesc(s[1..], key), key)
  }

  /** The first k elements of a list sorted largest first; the whole list
      when k is not positive or the list is not longer than k. Every kept
      element ranks at least as high as every dropped one. */
  function TopK<T>(s: seq<T>, k: int, key: T -> real): (r: seq<T>)
    ensures multiset(r) <= multiset(s)
    ensures |r| == if 0 < k < |s| then k else |s|
    ensures !(0 < k < |s|) ==> r == s
    ensures forall x, y :: x in multiset(r) && y in multiset(s) - multiset(r) ==> key(x) >= key(y)
  {
    if 0 < k < |s| then
      var t := SortDesc(s, key);
      PrefixOfSorted(t, k, key);
      t[..k]
    else s
  }

  /** Cutting a sorted list: the prefix and the rest split the multiset, and
      each prefix element ranks at least as high as each remaining one. */
  lemma PrefixOfSorted<T>(t: seq<T>, k: int, key: T -> real)
    requires SortedDesc(t, key)
    requires 0 <= k <= |t|
    ensures multiset(t) - multiset(t[..k]) == multiset(t[k..])
    ensures forall x, y :: x in multiset(t[..k]) && y in multiset(t[k..]) ==> key(x) >= key(y)
  {
    assert t == t[..k] + t[k..];
    forall x, y | x in multiset(t[..k]) && y in multiset(t[k..])
      ensures key(x) >= key(y)
    {
      var i :| 0 <= i < k && t[..k][i] == x;
      var j :| 0 <= j < |t| - k && t[k..][j] == y;
      assert t[i] == x && t[k + j] == y;
    }
  }
}
