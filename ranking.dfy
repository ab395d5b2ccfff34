/**
 The ordering primitives the engine borrows from Python: `list.sort(key=…,
 reverse=True)` / `sorted(…, key=…, reverse=True)`, a STABLE sort by a real
 key in descending order (entries with equal keys keep their encounter order),
 and the slice `s[:k]`.
 */
module Ranking {

  /** Descending by key. */
  ghost predicate IsSortedDesc<T>(s: seq<T>, key: T -> real)
  {
    forall i, j :: 0 <= i < j < |s| ==> key(s[i]) >= key(s[j])
  }

  /** The entries whose key is `v`, in their order in `s`. */
  function WithKey<T>(s: seq<T>, key: T -> real, v: real): (r: seq<T>)
    ensures |r| <= |s|
  {
    if |s| == 0 then []
    else (if key(s[0]) == v then [s[0]] else []) + WithKey(s[1..], key, v)
  }

  /** Puts `x`, which came before every entry of the sorted `s`, in front of the first entry that does not outrank it. */
  function Insert<T>(x: T, s: seq<T>, key: T -> real): (r: seq<T>)
    ensures |r| == |s| + 1
  {
    if |s| == 0 || key(s[0]) <= key(x) then [x] + s
    else [s[0]] + Insert(x, s[1..], key)
  }

  /** Stable descending sort (an insertion sort: the result is the only stable one). */
  function SortDesc<T>(s: seq<T>, key: T -> real): (r: seq<T>)
    ensures |r| == |s|
  {
    if |s| == 0 then [] else Insert(s[0], SortDesc(s[1..], key), key)
  }

  /** Python's `s[:k]`; a negative `k` counts from the end. */
  function SliceTo<T>(s: seq<T>, k: int): (r: seq<T>)
    ensures 0 <= k ==> |r| == (if k < |s| then k else |s|)
    ensures k < 0 ==> |r| == (if |s| + k < 0 then 0 else |s| + k)
    ensures r == s[..|r|]
  {
    if 0 <= k then (if k < |s| then s[..k] else s)
    else if |s| + k < 0 then [] else s[..|s| + k]
  }

  lemma {:induction false} InsertPermutes<T>(x: T, s: seq<T>, key: T -> real)
    ensures multiset(Insert(x, s, key)) == multiset(s) + multiset{x}
  {
    if |s| > 0 && key(s[0]) > key(x) {
      InsertPermutes(x, s[1..], key);
      assert s == [s[0]] + s[1..];
    }
  }

  lemma {:induction false} InsertOrdered<T>(x: T, s: seq<T>, key: T -> real)
    requires IsSortedDesc(s, key)
    ensures IsSortedDesc(Insert(x, s, key), key)
  {
    if |s| > 0 && key(s[0]) > key(x) {
      InsertOrdered(x, s[1..], key);
      var r := Insert(x, s[1..], key);
      InsertPermutes(x, s[1..], key);
      forall j | 0 <= j < |r| ensures key(s[0]) >= key(r[j]) {
        assert r[j] in multiset(s[1..]) + multiset{x};
        if r[j] in multiset(s[1..]) {
          var m :| 0 <= m < |s[1..]| && s[1..][m] == r[j];
          assert s[1 + m] == r[j];
        }
      }
    }
  }

  /** The sort returns its input in descending key order. */
  lemma {:induction false} SortDescOrdered<T>(s: seq<T>, key: T -> real)
    ensures IsSortedDesc(SortDesc(s, key), key)
  {
    if |s| > 0 {
      SortDescOrdered(s[1..], key);
      InsertOrdered(s[0], SortDesc(s[1..], key), key);
    }
  }

  /** The sort neither loses nor invents entries. */
  lemma {:induction false} SortDescPermutes<T>(s: seq<T>, key: T -> real)
    ensures multiset(SortDesc(s, key)) == multiset(s)
  {
    if |s| > 0 {
      SortDescPermutes(s[1..], key);
      InsertPermutes(s[0], SortDesc(s[1..], key), key);
      assert s == [s[0]] + s[1..];
    }
  }

  lemma {:induction false} InsertWithKey<T>(x: T, s: seq<T>, key: T -> real, v: real)
    requires IsSortedDesc(s, key)
    ensures WithKey(Insert(x, s, key), key, v) == WithKey([x] + s, key, v)
  {
    if |s| > 0 && key(s[0]) > key(x) {
      InsertWithKey(x, s[1..], key, v);
      assert ([s[0]] + Insert(x, s[1..], key))[1..] == Insert(x, s[1..], key);
      assert ([x] + s[1..])[1..] == s[1..];
      assert ([x] + s)[1..] == s;
      if key(x) == v {
        // every entry of s that outranks x is skipped by WithKey, so x lands in the same place
        InsertSkipsHigher(x, s, key, v);
      }
    }
  }

  lemma {:induction false} InsertSkipsHigher<T>(x: T, s: seq<T>, key: T -> real, v: real)
    requires IsSortedDesc(s, key) && key(x) == v
    ensures WithKey(Insert(x, s, key), key, v) == [x] + WithKey(s, key, v)
  {
    if |s| > 0 && key(s[0]) > key(x) {
      assert IsSortedDesc(s[1..], key);
      InsertSkipsHigher(x, s[1..], key, v);
      var t := Insert(x, s[1..], key);
      assert Insert(x, s, key) == [s[0]] + t;
      assert ([s[0]] + t)[1..] == t;
      assert WithKey([s[0]] + t, key, v) == WithKey(t, key, v);
      assert WithKey(s, key, v) == WithKey(s[1..], key, v);
    } else {
      assert ([x] + s)[1..] == s;
      assert WithKey([x] + s, key, v) == [x] + WithKey(s, key, v);
    }
  }

  lemma {:induction false} WithKeyAppend<T>(a: seq<T>, b: seq<T>, key: T -> real, v: real)
    ensures WithKey(a + b, key, v) == WithKey(a, key, v) + WithKey(b, key, v)
  {
    if |a| > 0 {
      assert (a + b)[1..] == a[1..] + b;
      WithKeyAppend(a[1..], b, key, v);
    } else {
      assert a + b == b;
    }
  }

  /** Stability: for every key value, the entries carrying it keep their relative order. */
  lemma {:induction false} SortDescStable<T>(s: seq<T>, key: T -> real, v: real)
    ensures WithKey(SortDesc(s, key), key, v) == WithKey(s, key, v)
  {
    if |s| > 0 {
      SortDescStable(s[1..], key, v);
      SortDescOrdered(s[1..], key);
      InsertWithKey(s[0], SortDesc(s[1..], key), key, v);
      WithKeyAppend([s[0]], SortDesc(s[1..], key), key, v);
      WithKeyAppend([s[0]], s[1..], key, v);
      assert s == [s[0]] + s[1..];
    }
  }

  /** Every entry of the capped ranking comes from the input, the ranking is ordered, and it is capped. */
  lemma TopK<T>(s: seq<T>, key: T -> real, k: int)
    ensures var r := SliceTo(SortDesc(s, key), k);
      && IsSortedDesc(r, key)
      && multiset(r) <= multiset(s)
      && (0 <= k ==> |r| <= k)
      && (0 <= k <= |s| ==> |r| == k)
  {
    var t := SortDesc(s, key);
    var r := SliceTo(t, k);
    SortDescOrdered(s, key);
    SortDescPermutes(s, key);
    assert t == r + t[|r|..];
    assert multiset(t) == multiset(r) + multiset(t[|r|..]);
  }

  /** An entry of a sub-multiset is an entry of the whole. */
  lemma InSubMultiset<T>(r: seq<T>, s: seq<T>, x: T)
    requires multiset(r) <= multiset(s) && x in r
    ensures x in s
  {
    assert x in multiset(r);
  }

  /** Every entry the cap drops ranks no higher than any entry it keeps, and a non-negative cap drops entries only when it is reached. */
  lemma TopKDominates<T>(s: seq<T>, key: T -> real, k: int, x: T)
    requires x in s && x !in SliceTo(SortDesc(s, key), k)
    ensures forall y :: y in SliceTo(SortDesc(s, key), k) ==> key(y) >= key(x)
    ensures 0 <= k ==> |SliceTo(SortDesc(s, key), k)| == k
  {
    var t := SortDesc(s, key);
    var r := SliceTo(t, k);
    SortDescOrdered(s, key);
    SortDescPermutes(s, key);
    assert x in multiset(t);
    var q :| 0 <= q < |t| && t[q] == x;
    forall y | y in r ensures key(y) >= key(x) {
      var p :| 0 <= p < |r| && r[p] == y;
      assert t[p] == y;
    }
  }

  /** No two entries share an identity. */
  ghost predicate DistinctBy<T, K>(s: seq<T>, id: T -> K)
  {
    forall i, j :: 0 <= i < j < |s| ==> id(s[i]) != id(s[j])
  }

  lemma {:induction false} InsertDistinctBy<T, K>(x: T, s: seq<T>, key: T -> real, id: T -> K)
    requires DistinctBy(s, id)
    requires forall j :: 0 <= j < |s| ==> id(s[j]) != id(x)
    ensures DistinctBy(Insert(x, s, key), id)
  {
    if |s| > 0 && key(s[0]) > key(x) {
      var t := Insert(x, s[1..], key);
      InsertDistinctBy(x, s[1..], key, id);
      InsertPermutes(x, s[1..], key);
      forall j | 0 <= j < |t| ensures id(s[0]) != id(t[j]) {
        assert t[j] in multiset(s[1..]) + multiset{x};
        if t[j] in multiset(s[1..]) {
          var m :| 0 <= m < |s[1..]| && s[1..][m] == t[j];
          assert s[1 + m] == t[j];
        }
      }
      assert Insert(x, s, key) == [s[0]] + t;
    }
  }

  /** Sorting keeps entries with distinct identities distinct. */
  lemma {:induction false} SortDescDistinctBy<T, K>(s: seq<T>, key: T -> real, id: T -> K)
    requires DistinctBy(s, id)
    ensures DistinctBy(SortDesc(s, key), id)
  {
    if |s| > 0 {
      var t := SortDesc(s[1..], key);
      SortDescDistinctBy(s[1..], key, id);
      SortDescPermutes(s[1..], key);
      forall j | 0 <= j < |t| ensures id(t[j]) != id(s[0]) {
        assert t[j] in multiset(s[1..]);
        var m :| 0 <= m < |s[1..]| && s[1..][m] == t[j];
        assert s[1 + m] == t[j];
      }
      InsertDistinctBy(s[0], t, key, id);
    }
  }

  /** The capped ranking of entries with distinct identities has distinct identities. */
  lemma TopKDistinctBy<T, K>(s: seq<T>, key: T -> real, k: int, id: T -> K)
    requires DistinctBy(s, id)
    ensures DistinctBy(SliceTo(SortDesc(s, key), k), id)
  {
    SortDescDistinctBy(s, key, id);
  }
}
