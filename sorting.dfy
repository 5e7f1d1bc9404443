/**
 * Python's `list.sort(key=...)` (a stable sort), written as an insertion sort
 * over a two-part key compared lexicographically.
 */
module Sorting {

  /** A sort key: `major` first, then `minor`, both ascending. */
  datatype Rank = Rank(major: int, minor: int)

  predicate RankLe(a: Rank, b: Rank)
  {
    a.major < b.major || (a.major == b.major && a.minor <= b.minor)
  }

  predicate SortedBy<T>(s: seq<T>, key: T -> Rank)
  {
    forall i, j :: 0 <= i < j < |s| ==> RankLe(key(s[i]), key(s[j]))
  }

  /** Insert `x` before the first element whose key is not below its own. */
  function Insert<T>(x: T, s: seq<T>, key: T -> Rank): (r: seq<T>)
    ensures |r| == |s| + 1
  {
    if s == [] || RankLe(key(x), key(s[0])) then [x] + s
    else [s[0]] + Insert(x, s[1..], key)
  }

  /** Stable sort: earlier elements with equal keys stay earlier. */
  function SortBy<T>(s: seq<T>, key: T -> Rank): (r: seq<T>)
    ensures |r| == |s|
  {
    if s == [] then [] else Insert(s[0], SortBy(s[1..], key), key)
  }

  /** Where `Insert` puts its element. */
  function InsertPos<T>(x: T, s: seq<T>, key: T -> Rank): (k: nat)
    ensures k <= |s| && Insert(x, s, key) == s[..k] + [x] + s[k..]
  {
    if s == [] || RankLe(key(x), key(s[0])) then 0
    else
      var k := InsertPos(x, s[1..], key);
      assert Insert(x, s, key) == [s[0]] + Insert(x, s[1..], key);
      assert [s[0]] + s[1..][..k] == s[..k + 1];
      assert s[1..][k..] == s[k + 1..];
      k + 1
  }

  /** Inserting adds exactly the one element. */
  lemma InsertPermutes<T>(x: T, s: seq<T>, key: T -> Rank)
    ensures multiset(Insert(x, s, key)) == multiset(s) + multiset{x}
  {
    var k := InsertPos(x, s, key);
    var before, after := s[..k], s[k..];
    assert s == before + after;
    calc {
      multiset(Insert(x, s, key));
      multiset(before + [x] + after);
      multiset(before) + multiset{x} + multiset(after);
      multiset(before + after) + multiset{x};
    }
  }

  lemma {:induction false} SortPermutes<T>(s: seq<T>, key: T -> Rank)
    ensures multiset(SortBy(s, key)) == multiset(s)
  {
    if s != [] {
      SortPermutes(s[1..], key);
      InsertPermutes(s[0], SortBy(s[1..], key), key);
      assert s == [s[0]] + s[1..];
    }
  }

  lemma {:induction false} InsertSorted<T>(x: T, s: seq<T>, key: T -> Rank)
    requires SortedBy(s, key)
    ensures SortedBy(Insert(x, s, key), key)
  {
    if s != [] && !RankLe(key(x), key(s[0])) {
      InsertSorted(x, s[1..], key);
      forall e | e in s[1..] ensures RankLe(key(s[0]), key(e)) {
        var m :| 0 <= m < |s[1..]| && s[1..][m] == e;
        assert s[m + 1] == e;
      }
      InsertKeepsLowerBound(s[0], x, s[1..], key);
      ConsSorted(s[0], Insert(x, s[1..], key), key);
    }
  }

  /** A lower bound of `x` and of every element of `s` bounds every element of `Insert(x, s)`. */
  lemma InsertKeepsLowerBound<T>(y: T, x: T, s: seq<T>, key: T -> Rank)
    requires RankLe(key(y), key(x))
    requires forall e :: e in s ==> RankLe(key(y), key(e))
    ensures forall e :: e in Insert(x, s, key) ==> RankLe(key(y), key(e))
  {
    InsertPermutes(x, s, key);
    forall e | e in Insert(x, s, key) ensures RankLe(key(y), key(e)) {
      assert e in multiset(Insert(x, s, key));
    }
  }

  /** Putting a lower bound in front of a sorted sequence keeps it sorted. */
  lemma ConsSorted<T>(h: T, t: seq<T>, key: T -> Rank)
    requires SortedBy(t, key)
    requires forall e :: e in t ==> RankLe(key(h), key(e))
    ensures SortedBy([h] + t, key)
  {
    var r := [h] + t;
    forall i, j | 0 <= i < j < |r| ensures RankLe(key(r[i]), key(r[j])) {
      assert r[j] == t[j - 1];
      if i > 0 {
        assert r[i] == t[i - 1];
      }
    }
  }

  lemma {:induction false} SortSorts<T>(s: seq<T>, key: T -> Rank)
    ensures SortedBy(SortBy(s, key), key)
  {
    if s != [] {
      SortSorts(s[1..], key);
      InsertSorted(s[0], SortBy(s[1..], key), key);
    }
  }
}
