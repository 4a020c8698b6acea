/** Sequence operations shared by the vote lists and the client lists:
    JavaScript's `filter(x => x !== v)`, `splice(i, 1)`, duplicate detection
    through `new Set(v).size === v.length`, and occurrence counting. */
module Seqs {

  /** No element occurs twice. */
  predicate NoDuplicates<T(==)>(s: seq<T>) {
    forall i, j :: 0 <= i < j < |s| ==> s[i] != s[j]
  }

  /** `s.filter(x => x !== v)`: every occurrence of `v` removed. */
  function Without<T(==,!new)>(s: seq<T>, v: T): (r: seq<T>)
    ensures v !in r
    ensures |r| <= |s|
  {
    if s == [] then []
    else if s[0] == v then Without(s[1..], v)
    else [s[0]] + Without(s[1..], v)
  }

  lemma {:induction false} WithoutMembers<T(!new)>(s: seq<T>, v: T)
    ensures forall x :: x in Without(s, v) <==> x in s && x != v
  {
    if s != [] {
      WithoutMembers(s[1..], v);
    }
  }

  /** Filtering out a value that is not there changes nothing. */
  lemma {:induction false} WithoutAbsent<T(!new)>(s: seq<T>, v: T)
    requires v !in s
    ensures Without(s, v) == s
  {
    if s != [] {
      WithoutAbsent(s[1..], v);
    }
  }

  /** `s.splice(k, 1)`: the element at `k` removed, the rest kept in order. */
  function RemoveAt<T>(s: seq<T>, k: nat): (r: seq<T>)
    requires k < |s|
    ensures |r| == |s| - 1
  {
    s[..k] + s[k + 1..]
  }

  /** One step of the filter on a list built from its head. */
  lemma {:induction false} WithoutCons<T(!new)>(x: T, t: seq<T>, v: T)
    ensures Without([x] + t, v) == if x == v then Without(t, v) else [x] + Without(t, v)
  {
    var s := [x] + t;
    assert s[0] == x && s[1..] == t;
  }

  lemma {:induction false} WithoutAppend<T(!new)>(a: seq<T>, b: seq<T>, v: T)
    ensures Without(a + b, v) == Without(a, v) + Without(b, v)
  {
    if a == [] {
      assert a + b == b;
    } else {
      WithoutAppend(a[1..], b, v);
      assert a == [a[0]] + a[1..];
      WithoutAppendStep(a[0], a[1..], b, v);
    }
  }

  lemma {:induction false} WithoutAppendStep<T(!new)>(h: T, t: seq<T>, b: seq<T>, v: T)
    requires Without(t + b, v) == Without(t, v) + Without(b, v)
    ensures Without([h] + t + b, v) == Without([h] + t, v) + Without(b, v)
  {
    var wt, wb := Without(t, v), Without(b, v);
    assert [h] + t + b == [h] + (t + b);
    WithoutCons(h, t + b, v);
    WithoutCons(h, t, v);
    if h != v {
      calc {
        Without([h] + (t + b), v);
        [h] + (wt + wb);
        { SeqAssoc([h], wt, wb); }
        [h] + wt + wb;
      }
    }
  }

  lemma {:induction false} SeqAssoc<T>(a: seq<T>, b: seq<T>, c: seq<T>)
    ensures a + (b + c) == a + b + c
  {
  }

  lemma {:induction false} WithoutSingleton<T(!new)>(v: T)
    ensures Without([v], v) == []
  {
    assert [v][1..] == [];
  }

  /** Removing one occurrence of `v` leaves the other elements and their
      order as they were. */
  lemma {:induction false} RemoveAtWithout<T(!new)>(s: seq<T>, k: nat, v: T)
    requires k < |s| && s[k] == v
    ensures Without(RemoveAt(s, k), v) == Without(s, v)
  {
    assert s == [s[0]] + s[1..];
    WithoutCons(s[0], s[1..], v);
    if k == 0 {
      assert RemoveAt(s, k) == s[1..];
    } else {
      RemoveAtWithout(s[1..], k - 1, v);
      assert RemoveAt(s, k) == [s[0]] + RemoveAt(s[1..], k - 1);
      WithoutCons(s[0], RemoveAt(s[1..], k - 1), v);
    }
  }

  /** `s.findIndex(x => x === v)`: the first position holding `v`, or -1. */
  function FirstIndex<T(==)>(s: seq<T>, v: T): (i: int)
    ensures -1 <= i < |s|
    ensures i >= 0 ==> s[i] == v && v !in s[..i]
    ensures i == -1 <==> v !in s
  {
    if s == [] then -1
    else if s[0] == v then 0
    else
      var r := FirstIndex(s[1..], v);
      if r < 0 then -1
      else
        assert s[..r + 1] == [s[0]] + s[1..][..r];
        r + 1
  }

  /** An occurrence with none before it is the first. */
  lemma {:induction false} FirstIndexAt<T>(s: seq<T>, v: T, n: nat)
    requires n < |s| && s[n] == v && v !in s[..n]
    ensures FirstIndex(s, v) == n
  {
    assert v in s[..n + 1];
  }

  /** The first occurrence of `v` spliced out, when there is one; the
      `findIndex` and `splice(i, 1)` pair. */
  function RemoveFirst<T(==)>(s: seq<T>, v: T): (r: seq<T>)
    ensures v in s ==> |r| == |s| - 1
    ensures v !in s ==> r == s
  {
    var i := FirstIndex(s, v);
    if i < 0 then s else RemoveAt(s, i)
  }

  /** Splicing out the first `v` leaves every other element, in order; on a
      duplicate-free list it leaves no `v` and no duplicate. */
  lemma {:induction false} RemoveFirstKeepsOthers<T(!new)>(s: seq<T>, v: T)
    ensures Without(RemoveFirst(s, v), v) == Without(s, v)
    ensures forall x :: x in RemoveFirst(s, v) ==> x in s
    ensures NoDuplicates(s) ==> NoDuplicates(RemoveFirst(s, v)) && v !in RemoveFirst(s, v)
  {
    var i := FirstIndex(s, v);
    if i >= 0 {
      RemoveAtWithout(s, i, v);
      RemoveAtMembers(s, i);
      if NoDuplicates(s) {
        RemoveAtNoDuplicates(s, i);
      }
    }
  }

  /** Removing the `v` just appended to a list without `v` gives the list
      back. */
  lemma {:induction false} RemoveFirstOfAppended<T>(s: seq<T>, v: T)
    requires v !in s
    ensures RemoveFirst(s + [v], v) == s
  {
    assert FirstIndex(s + [v], v) == |s|;
    assert (s + [v])[..|s|] == s;
  }

  lemma {:induction false} RemoveAtMembers<T>(s: seq<T>, k: nat)
    requires k < |s|
    ensures forall x :: x in RemoveAt(s, k) ==> x in s
    ensures forall i :: 0 <= i < |s| && i != k ==> s[i] in RemoveAt(s, k)
  {
    forall i | 0 <= i < |s| && i != k
      ensures s[i] in RemoveAt(s, k)
    {
      if i < k {
        assert RemoveAt(s, k)[i] == s[i];
      } else {
        assert RemoveAt(s, k)[i - 1] == s[i];
      }
    }
  }

  lemma {:induction false} RemoveAtNoDuplicates<T>(s: seq<T>, k: nat)
    requires k < |s| && NoDuplicates(s)
    ensures NoDuplicates(RemoveAt(s, k))
    ensures s[k] !in RemoveAt(s, k)
  {
    var r := RemoveAt(s, k);
    forall i, j | 0 <= i < j < |r|
      ensures r[i] != r[j]
    {
      var i' := if i < k then i else i + 1;
      var j' := if j < k then j else j + 1;
      assert r[i] == s[i'] && r[j] == s[j'];
    }
  }

  lemma {:induction false} AppendNoDuplicates<T>(s: seq<T>, v: T)
    requires NoDuplicates(s) && v !in s
    ensures NoDuplicates(s + [v])
  {
  }

  /** The distinct elements, as `new Set(s)` collects them. */
  function ToSet<T(!new)>(s: seq<T>): (r: set<T>)
    ensures forall x :: x in r <==> x in s
  {
    if s == [] then {} else {s[0]} + ToSet(s[1..])
  }

  /** The duplicate-vote validator accepts a list exactly when it has no
      repeated element: the set of its elements is as large as the list. */
  lemma {:induction false} SetSizeDetectsDuplicates<T(!new)>(s: seq<T>)
    ensures |ToSet(s)| == |s| <==> NoDuplicates(s)
    ensures |ToSet(s)| <= |s|
  {
    if s != [] {
      SetSizeDetectsDuplicates(s[1..]);
      var rest := ToSet(s[1..]);
      assert ToSet(s) == {s[0]} + rest;
      NoDuplicatesCons(s);
      if s[0] in s[1..] {
        assert {s[0]} + rest == rest;
      } else {
        assert |{s[0]} + rest| == |rest| + 1;
      }
    }
  }

  /** A list has no duplicate exactly when its head does not recur and its
      tail has none. */
  lemma {:induction false} NoDuplicatesCons<T>(s: seq<T>)
    requires s != []
    ensures NoDuplicates(s) <==> s[0] !in s[1..] && NoDuplicates(s[1..])
  {
    var t := s[1..];
    assert forall i :: 0 <= i < |t| ==> t[i] == s[i + 1];
    if s[0] !in t && NoDuplicates(t) {
      forall i, j | 0 <= i < j < |s|
        ensures s[i] != s[j]
      {
        assert s[j] == t[j - 1];
        if i > 0 {
          assert s[i] == t[i - 1];
        }
      }
    }
    if s[0] in t {
      var j :| 0 <= j < |t| && t[j] == s[0];
      assert s[j + 1] == s[0];
    }
  }

  /** Number of occurrences of `v`. */
  function Count<T(==)>(s: seq<T>, v: T): nat {
    if s == [] then 0 else (if s[0] == v then 1 else 0) + Count(s[1..], v)
  }

  lemma {:induction false} CountAppend<T>(a: seq<T>, b: seq<T>, v: T)
    ensures Count(a + b, v) == Count(a, v) + Count(b, v)
  {
    if a == [] {
      assert a + b == b;
    } else {
      CountAppend(a[1..], b, v);
      assert (a + b)[1..] == a[1..] + b;
    }
  }

  lemma {:induction false} CountPositive<T>(s: seq<T>, v: T)
    ensures Count(s, v) > 0 <==> v in s
  {
    if s != [] {
      CountPositive(s[1..], v);
    }
  }
}
