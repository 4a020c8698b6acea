/** `Array.prototype.sort` with the descending comparators the sources use
    (`b.x - a.x`, with a tie-break on a second key). The sort is stable, so
    its result is the unique ordering that is non-increasing in the
    comparator's key and keeps tied elements in their original order; the
    insertion sort below computes exactly that ordering. */
module Sorting {

  /** A comparator key: compared on `major`, ties broken on `minor`. */
  datatype Rank = Rank(major: int, minor: int)

  predicate RankLe(a: Rank, b: Rank) {
    a.major < b.major || (a.major == b.major && a.minor <= b.minor)
  }

  /** Non-increasing in the key: what a descending comparator produces. */
  predicate SortedDesc<T>(s: seq<T>, key: T -> Rank) {
    forall i, j :: 0 <= i < j < |s| ==> RankLe(key(s[j]), key(s[i]))
  }

  /** Place `x` in front of the first element that does not outrank it, so
      that `x` stays ahead of the elements it ties with. */
  function Insert<T>(x: T, s: seq<T>, key: T -> Rank): (r: seq<T>)
    ensures |r| == |s| + 1
    ensures multiset(r) == multiset(s) + multiset{x}
  {
    if s == [] then [x]
    else if RankLe(key(s[0]), key(x)) then [x] + s
    else
      assert s == [s[0]] + s[1..];
      [s[0]] + Insert(x, s[1..], key)
  }

  function SortDesc<T>(s: seq<T>, key: T -> Rank): (r: seq<T>)
    ensures |r| == |s|
  {
    if s == [] then [] else Insert(s[0], SortDesc(s[1..], key), key)
  }

  lemma {:induction false} InsertSorted<T>(x: T, s: seq<T>, key: T -> Rank)
    requires SortedDesc(s, key)
    ensures SortedDesc(Insert(x, s, key), key)
    ensures Insert(x, s, key) != [] && (Insert(x, s, key)[0] == x || Insert(x, s, key)[0] == s[0])
  {
    if s == [] {
      assert Insert(x, s, key) == [x];
    } else if RankLe(key(s[0]), key(x)) {
      assert forall k :: 0 <= k < |s| ==> RankLe(key(s[k]), key(s[0]));
      ConsSorted(x, s, key);
    } else {
      InsertSorted(x, s[1..], key);
      var r := Insert(x, s[1..], key);
      assert forall k :: 0 <= k < |s[1..]| ==> s[1..][k] == s[k + 1];
      InsertBelow(x, s[1..], key, key(s[0]));
      ConsSorted(s[0], r, key);
    }
  }

  /** Putting in front of a sorted list an element that outranks all of it
      keeps the list sorted. */
  lemma {:induction false} ConsSorted<T>(h: T, r: seq<T>, key: T -> Rank)
    requires SortedDesc(r, key)
    requires forall k :: 0 <= k < |r| ==> RankLe(key(r[k]), key(h))
    ensures SortedDesc([h] + r, key)
  {
    var c := [h] + r;
    forall i, j | 0 <= i < j < |c|
      ensures RankLe(key(c[j]), key(c[i]))
    {
      assert c[j] == r[j - 1];
      if i > 0 {
        assert c[i] == r[i - 1];
      }
    }
  }

  /** Inserting an element no higher than `top` into a list no higher than
      `top` gives a list no higher than `top`. */
  lemma {:induction false} InsertBelow<T>(x: T, t: seq<T>, key: T -> Rank, top: Rank)
    requires RankLe(key(x), top)
    requires forall k :: 0 <= k < |t| ==> RankLe(key(t[k]), top)
    ensures forall j :: 0 <= j < |Insert(x, t, key)| ==> RankLe(key(Insert(x, t, key)[j]), top)
  {
    var r := Insert(x, t, key);
    forall j | 0 <= j < |r|
      ensures RankLe(key(r[j]), top)
    {
      assert r[j] in multiset(t) + multiset{x};
      if r[j] != x {
        assert r[j] in t;
      }
    }
  }

  /** The sorted list is ordered by the key, non-increasing. */
  lemma {:induction false} SortDescSorted<T>(s: seq<T>, key: T -> Rank)
    ensures SortedDesc(SortDesc(s, key), key)
  {
    if s != [] {
      SortDescSorted(s[1..], key);
      InsertSorted(s[0], SortDesc(s[1..], key), key);
    }
  }

  /** The sorted list holds exactly the input's elements, each as often. */
  lemma {:induction false} SortDescPermutes<T>(s: seq<T>, key: T -> Rank)
    ensures multiset(SortDesc(s, key)) == multiset(s)
  {
    if s != [] {
      SortDescPermutes(s[1..], key);
      assert s == [s[0]] + s[1..];
    }
  }

  /** When every key ties (a comparator that always returns 0) the order is
      left as it was. */
  lemma {:induction false} SortDescAllTied<T>(s: seq<T>, key: T -> Rank)
    requires forall i, j :: 0 <= i < |s| && 0 <= j < |s| ==> key(s[i]) == key(s[j])
    ensures SortDesc(s, key) == s
  {
    if s != [] {
      SortDescAllTied(s[1..], key);
      if |s| > 1 {
        assert key(s[1]) == key(s[0]);
      }
    }
  }

  /** An element is in the sorted list exactly when it is in the input. */
  lemma {:induction false} SortDescMembers<T>(s: seq<T>, key: T -> Rank)
    ensures forall x :: x in SortDesc(s, key) <==> x in s
  {
    SortDescPermutes(s, key);
    forall x
      ensures x in SortDesc(s, key) <==> x in s
    {
      assert x in SortDesc(s, key) <==> x in multiset(SortDesc(s, key));
      assert x in s <==> x in multiset(s);
    }
  }
}
