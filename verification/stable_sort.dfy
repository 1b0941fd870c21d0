/** `Array.prototype.sort` with a comparator `(a, b) => key(b) - key(a)`: a stable
    sort that puts larger keys first. An ascending sort is the same with the key
    negated. The model is an insertion sort; only its result matters. */
module StableSort {
  import opened Seqs

  /** Keys never increase from left to right. */
  predicate SortedDesc<T>(s: seq<T>, key: T -> real) {
    forall i, j :: 0 <= i < j < |s| ==> key(s[j]) <= key(s[i])
  }

  /** The elements of `s` whose key is `v`, in their order in `s`. */
  function WithKey<T>(s: seq<T>, key: T -> real, v: real): seq<T>
    decreases |s|
  {
    if |s| == 0 then []
    else (if key(s[0]) == v then [s[0]] else []) + WithKey(s[1..], key, v)
  }

  /** Places `x` in front of the first element whose key is not larger than its
      own, so that `x` stays ahead of the elements it ties with. */
  function Insert<T>(x: T, t: seq<T>, key: T -> real): (r: seq<T>)
    ensures |r| == |t| + 1
    ensures multiset(r) == multiset(t) + multiset{x}
    ensures SortedDesc(t, key) ==> SortedDesc(r, key)
    decreases |t|
  {
    if |t| == 0 || key(x) >= key(t[0]) then [x] + t
    else
      var rest := Insert(x, t[1..], key);
      assert t == [t[0]] + t[1..];
      InsertSortedStep(x, t, rest, key);
      [t[0]] + rest
  }

  lemma InsertSortedStep<T>(x: T, t: seq<T>, rest: seq<T>, key: T -> real)
    requires |t| > 0 && key(x) < key(t[0])
    requires multiset(rest) == multiset(t[1..]) + multiset{x}
    requires SortedDesc(t, key) ==> SortedDesc(t[1..], key) ==> SortedDesc(rest, key)
    ensures SortedDesc(t, key) ==> SortedDesc([t[0]] + rest, key)
  {
    if SortedDesc(t, key) {
      var r := [t[0]] + rest;
      forall i, j | 0 <= i < j < |r|
        ensures key(r[j]) <= key(r[i])
      {
        if i == 0 {
          assert r[j] in multiset(rest);
          if r[j] != x {
            assert r[j] in multiset(t[1..]);
            var k :| 0 <= k < |t[1..]| && t[1..][k] == r[j];
            assert t[k + 1] == r[j];
          }
        }
      }
    }
  }

  /** The stable descending sort of `s` by `key`. */
  function Sort<T>(s: seq<T>, key: T -> real): (r: seq<T>)
    ensures |r| == |s|
    ensures multiset(r) == multiset(s)
    ensures SortedDesc(r, key)
    decreases |s|
  {
    if |s| == 0 then []
    else
      assert s == [s[0]] + s[1..];
      Insert(s[0], Sort(s[1..], key), key)
  }

  lemma {:induction false} WithKeyConcat<T>(a: seq<T>, b: seq<T>, key: T -> real, v: real)
    ensures WithKey(a + b, key, v) == WithKey(a, key, v) + WithKey(b, key, v)
    decreases |a|
  {
    if |a| > 0 {
      assert (a + b)[1..] == a[1..] + b;
      WithKeyConcat(a[1..], b, key, v);
    } else {
      assert a + b == b;
    }
  }

  lemma WithKeyCons<T>(y: T, s: seq<T>, key: T -> real, v: real)
    ensures WithKey([y] + s, key, v) == (if key(y) == v then [y] else []) + WithKey(s, key, v)
  {
    assert ([y] + s)[1..] == s;
  }

  lemma {:induction false} InsertStable<T>(x: T, t: seq<T>, key: T -> real, v: real)
    ensures WithKey(Insert(x, t, key), key, v) == (if key(x) == v then [x] else []) + WithKey(t, key, v)
    decreases |t|
  {
    if |t| == 0 || key(x) >= key(t[0]) {
      WithKeyCons(x, t, key, v);
    } else {
      InsertStable(x, t[1..], key, v);
      var rest := Insert(x, t[1..], key);
      assert Insert(x, t, key) == [t[0]] + rest;
      assert t == [t[0]] + t[1..];
      WithKeyBehind(t[0], x, rest, t[1..], key, v);
    }
  }

  /** The step of `InsertStable` where `x` goes behind `h`: as `h` ranks above
      `x`, at most one of the two has the key `v`. */
  lemma WithKeyBehind<T>(h: T, x: T, rest: seq<T>, tail: seq<T>, key: T -> real, v: real)
    requires key(x) < key(h)
    requires WithKey(rest, key, v) == (if key(x) == v then [x] else []) + WithKey(tail, key, v)
    ensures WithKey([h] + rest, key, v) == (if key(x) == v then [x] else []) + WithKey([h] + tail, key, v)
  {
    WithKeyCons(h, rest, key, v);
    WithKeyCons(h, tail, key, v);
  }

  /** Stability: among the elements that share a key, the sort keeps the order of
      the input. */
  lemma {:induction false} SortIsStable<T>(s: seq<T>, key: T -> real, v: real)
    ensures WithKey(Sort(s, key), key, v) == WithKey(s, key, v)
    decreases |s|
  {
    if |s| > 0 {
      SortIsStable(s[1..], key, v);
      InsertStable(s[0], Sort(s[1..], key), key, v);
    }
  }

  /** Keeping the first elements of a sequence keeps a prefix of each key group. */
  lemma {:induction false} WithKeyOfPrefix<T>(s: seq<T>, n: nat, key: T -> real, v: real)
    requires n <= |s|
    ensures WithKey(s[..n], key, v) <= WithKey(s, key, v)
    decreases n
  {
    if n > 0 {
      assert s[..n][1..] == s[1..][..n - 1];
      WithKeyOfPrefix(s[1..], n - 1, key, v);
    }
  }

  lemma {:induction false} InsertSum<T>(x: T, t: seq<T>, key: T -> real, f: T -> real)
    ensures SumOf(Insert(x, t, key), f) == f(x) + SumOf(t, f)
    decreases |t|
  {
    if |t| > 0 && key(x) < key(t[0]) {
      InsertSum(x, t[1..], key, f);
    }
  }

  /** Sorting does not change the total of any measure over the elements. */
  lemma {:induction false} SortKeepsSum<T>(s: seq<T>, key: T -> real, f: T -> real)
    ensures SumOf(Sort(s, key), f) == SumOf(s, f)
    decreases |s|
  {
    if |s| > 0 {
      SortKeepsSum(s[1..], key, f);
      InsertSum(s[0], Sort(s[1..], key), key, f);
    }
  }

  /** No two elements of `s` share the same `f`. */
  predicate DistinctBy<T, U(==)>(s: seq<T>, f: T -> U) {
    forall i, j :: 0 <= i < j < |s| ==> f(s[i]) != f(s[j])
  }

  lemma {:induction false} InsertDistinctBy<T, U>(x: T, t: seq<T>, key: T -> real, f: T -> U)
    requires DistinctBy(t, f)
    requires forall i :: 0 <= i < |t| ==> f(t[i]) != f(x)
    ensures DistinctBy(Insert(x, t, key), f)
    decreases |t|
  {
    if |t| > 0 && key(x) < key(t[0]) {
      InsertDistinctBy(x, t[1..], key, f);
      var rest := Insert(x, t[1..], key);
      var r := [t[0]] + rest;
      forall j | 0 < j < |r|
        ensures f(r[0]) != f(r[j])
      {
        assert r[j] in multiset(rest);
        if r[j] != x {
          assert r[j] in multiset(t[1..]);
          var k :| 0 <= k < |t[1..]| && t[1..][k] == r[j];
          assert t[k + 1] == r[j];
        }
      }
    }
  }

  /** Sorting keeps a sequence free of duplicates under any projection `f`. */
  lemma {:induction false} SortKeepsDistinctBy<T, U>(s: seq<T>, key: T -> real, f: T -> U)
    requires DistinctBy(s, f)
    ensures DistinctBy(Sort(s, key), f)
    decreases |s|
  {
    if |s| > 0 {
      var t := Sort(s[1..], key);
      SortKeepsDistinctBy(s[1..], key, f);
      forall i | 0 <= i < |t|
        ensures f(t[i]) != f(s[0])
      {
        assert t[i] in multiset(s[1..]);
        var k :| 0 <= k < |s[1..]| && s[1..][k] == t[i];
        assert s[k + 1] == t[i];
      }
      InsertDistinctBy(s[0], t, key, f);
    }
  }

  /** `Sort(s, key).slice(0, n)`: the first `n` elements of the stable sort,
      i.e. the `n` elements with the largest keys, ties broken by input order. */
  function TopN<T>(s: seq<T>, key: T -> real, n: nat): (r: seq<T>)
    ensures |r| == if n <= |s| then n else |s|
    ensures SortedDesc(r, key)
    ensures multiset(r) <= multiset(s)
    ensures n >= |s| ==> multiset(r) == multiset(s)
    ensures forall i :: 0 <= i < |r| ==> r[i] in multiset(s)
    ensures forall v :: WithKey(r, key, v) <= WithKey(s, key, v)
  {
    TopNFacts(s, key, n);
    Take(Sort(s, key), n)
  }

  lemma TopNFacts<T>(s: seq<T>, key: T -> real, n: nat)
    ensures SortedDesc(Take(Sort(s, key), n), key)
    ensures n >= |s| ==> multiset(Take(Sort(s, key), n)) == multiset(s)
    ensures multiset(Take(Sort(s, key), n)) <= multiset(s)
    ensures forall i :: 0 <= i < |Take(Sort(s, key), n)| ==> Take(Sort(s, key), n)[i] in multiset(s)
    ensures forall v :: WithKey(Take(Sort(s, key), n), key, v) <= WithKey(s, key, v)
  {
    TopNElements(s, key, n);
    TopNStable(s, key, n);
    TopNSorted(s, key, n);
  }

  lemma TopNSorted<T>(s: seq<T>, key: T -> real, n: nat)
    ensures SortedDesc(Take(Sort(s, key), n), key)
    ensures n >= |s| ==> Take(Sort(s, key), n) == Sort(s, key)
  {
    TakeSorted(Sort(s, key), key, n);
  }

  /** A prefix of a sorted sequence is sorted. */
  lemma TakeSorted<T>(s: seq<T>, key: T -> real, n: nat)
    requires SortedDesc(s, key)
    ensures SortedDesc(Take(s, n), key)
  {
    var r := Take(s, n);
    forall i, j | 0 <= i < j < |r|
      ensures key(r[j]) <= key(r[i])
    {
      assert r[i] == s[i] && r[j] == s[j];
    }
  }

  lemma TopNElements<T>(s: seq<T>, key: T -> real, n: nat)
    ensures multiset(Take(Sort(s, key), n)) <= multiset(s)
    ensures forall i :: 0 <= i < |Take(Sort(s, key), n)| ==> Take(Sort(s, key), n)[i] in multiset(s)
  {
    var sorted := Sort(s, key);
    var r := Take(sorted, n);
    assert sorted == r + sorted[|r|..];
    forall i | 0 <= i < |r|
      ensures r[i] in multiset(s)
    {
      assert r[i] in multiset(r);
    }
  }

  lemma TopNStable<T>(s: seq<T>, key: T -> real, n: nat)
    ensures forall v :: WithKey(Take(Sort(s, key), n), key, v) <= WithKey(s, key, v)
  {
    var sorted := Sort(s, key);
    var r := Take(sorted, n);
    forall v
      ensures WithKey(r, key, v) <= WithKey(s, key, v)
    {
      WithKeyOfPrefix(sorted, |r|, key, v);
      SortIsStable(s, key, v);
    }
  }

  /** What `TopN` leaves out ranks no higher than the last element it keeps. */
  lemma TopNLeavesOutSmaller<T>(s: seq<T>, key: T -> real, n: nat, x: T)
    requires n > 0
    requires x in multiset(s) - multiset(TopN(s, key, n))
    ensures |TopN(s, key, n)| == n
    ensures key(x) <= key(TopN(s, key, n)[n - 1])
  {
    var sorted := Sort(s, key);
    assert n < |s|;
    var j := InTail(sorted, n, x);
    assert sorted[n - 1] == TopN(s, key, n)[n - 1];
  }

  /** An element that the first `n` do not account for sits at or after `n`. */
  lemma InTail<T>(s: seq<T>, n: nat, x: T) returns (j: nat)
    requires n <= |s|
    requires x in multiset(s) - multiset(s[..n])
    ensures n <= j < |s| && s[j] == x
  {
    assert s == s[..n] + s[n..];
    assert x in multiset(s[n..]);
    var k :| 0 <= k < |s[n..]| && s[n..][k] == x;
    j := n + k;
  }

  /** Keeping the top `n` keeps a sequence free of duplicates under `f`. */
  lemma TopNKeepsDistinctBy<T, U>(s: seq<T>, key: T -> real, n: nat, f: T -> U)
    requires DistinctBy(s, f)
    ensures DistinctBy(TopN(s, key, n), f)
  {
    SortKeepsDistinctBy(s, key, f);
  }
}
