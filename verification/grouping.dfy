/** The `forEach` accumulation the charts perform into a plain object keyed by a
    string: each `(key, value)` adds `value` to the key's total and one to its
    count, creating the entry on first sight. `Object.entries` then lists the
    entries in order of first insertion. */
module Grouping {
  import opened Seqs

  /** One accumulator entry: the key, the running total and the number of values added. */
  datatype Group = Group(key: string, sum: real, count: nat)

  function KeysOf(groups: seq<Group>): (ks: seq<string>)
    ensures |ks| == |groups|
    ensures forall i :: 0 <= i < |groups| ==> ks[i] == groups[i].key
  {
    seq(|groups|, i requires 0 <= i < |groups| => groups[i].key)
  }

  function PairKeys(pairs: seq<(string, real)>): (ks: seq<string>)
    ensures |ks| == |pairs|
    ensures forall i :: 0 <= i < |pairs| ==> ks[i] == pairs[i].0
  {
    seq(|pairs|, i requires 0 <= i < |pairs| => pairs[i].0)
  }

  /** The values added under `k`, in order: the reference meaning of a group. */
  function ValuesFor(pairs: seq<(string, real)>, k: string): seq<real>
    decreases |pairs|
  {
    if |pairs| == 0 then []
    else
      var last := pairs[|pairs| - 1];
      ValuesFor(pairs[..|pairs| - 1], k) + (if last.0 == k then [last.1] else [])
  }

  function CountOf(g: Group): real {
    g.count as real
  }

  /** One step of the accumulation: the entry for `k` gains `v` and one count, or
      a fresh entry `(k, v, 1)` is appended when `k` has not been seen. */
  function Bump(acc: seq<Group>, k: string, v: real): (r: seq<Group>)
    requires NoDup(KeysOf(acc))
    ensures |r| == if k in KeysOf(acc) then |acc| else |acc| + 1
    ensures forall i :: 0 <= i < |acc| ==>
      r[i] == if acc[i].key == k then Group(k, acc[i].sum + v, acc[i].count + 1) else acc[i]
    ensures k !in KeysOf(acc) ==> r[|acc|] == Group(k, v, 1)
    decreases |acc|
  {
    if |acc| == 0 then [Group(k, v, 1)]
    else
      TailKeys(acc, k);
      if acc[0].key == k then [Group(k, acc[0].sum + v, acc[0].count + 1)] + acc[1..]
      else [acc[0]] + Bump(acc[1..], k, v)
  }

  /** The keys after the first are distinct and differ from the first. */
  lemma TailKeys(acc: seq<Group>, k: string)
    requires |acc| > 0 && NoDup(KeysOf(acc))
    ensures NoDup(KeysOf(acc[1..]))
    ensures acc[0].key == k ==> forall j :: 0 < j < |acc| ==> acc[j].key != k
    ensures acc[0].key != k ==> (k in KeysOf(acc) <==> k in KeysOf(acc[1..]))
  {
    var ks := KeysOf(acc);
    assert KeysOf(acc[1..]) == ks[1..];
    assert forall j :: 0 < j < |acc| ==> ks[j] != ks[0];
  }

  /** After a step the keys are the old keys, with `k` appended if it is new. */
  lemma BumpKeys(acc: seq<Group>, k: string, v: real)
    requires NoDup(KeysOf(acc))
    ensures KeysOf(Bump(acc, k, v)) == if k in KeysOf(acc) then KeysOf(acc) else KeysOf(acc) + [k]
    ensures NoDup(KeysOf(Bump(acc, k, v)))
  {
  }

  /** Each step adds exactly one to the total of the counts. */
  lemma {:induction false} BumpCountTotal(acc: seq<Group>, k: string, v: real)
    requires NoDup(KeysOf(acc))
    ensures SumOf(Bump(acc, k, v), CountOf) == SumOf(acc, CountOf) + 1.0
    decreases |acc|
  {
    var r := Bump(acc, k, v);
    if |acc| == 0 {
      assert SumOf(r, CountOf) == CountOf(r[0]) + SumOf(r[1..], CountOf);
    } else if acc[0].key == k {
      assert r[1..] == acc[1..];
    } else {
      assert KeysOf(acc[1..]) == KeysOf(acc)[1..];
      BumpCountTotal(acc[1..], k, v);
      assert r[1..] == Bump(acc[1..], k, v);
    }
  }

  /** The accumulator after all of `pairs`, folded left to right as `forEach`
      does. Its keys are the distinct keys in order of first appearance, and each
      entry holds the count and the total of the values added under its key. */
  function Accumulate(pairs: seq<(string, real)>): (r: seq<Group>)
    ensures KeysOf(r) == Dedup(PairKeys(pairs))
    ensures forall i :: 0 <= i < |r| ==>
      r[i].count == |ValuesFor(pairs, r[i].key)| && r[i].sum == Sum(ValuesFor(pairs, r[i].key))
    ensures SumOf(r, CountOf) == |pairs| as real
    decreases |pairs|
  {
    if |pairs| == 0 then []
    else
      var init := pairs[..|pairs| - 1];
      var last := pairs[|pairs| - 1];
      var acc := Accumulate(init);
      assert PairKeys(init) == PairKeys(pairs)[..|pairs| - 1];
      var r := Bump(acc, last.0, last.1);
      BumpKeys(acc, last.0, last.1);
      BumpCountTotal(acc, last.0, last.1);
      AccumulateStep(pairs, acc, r);
      r
  }

  /** Bars drawn one per group, each carrying its group's count, add up to the
      same total as the groups. */
  lemma {:induction false} BarsSum<B>(groups: seq<Group>, bars: seq<B>, count: B -> real)
    requires |bars| == |groups|
    requires forall i :: 0 <= i < |groups| ==> count(bars[i]) == CountOf(groups[i])
    ensures SumOf(bars, count) == SumOf(groups, CountOf)
    decreases |groups|
  {
    if |groups| > 0 {
      BarsSum(groups[1..], bars[1..], count);
    }
  }

  lemma AccumulateStep(pairs: seq<(string, real)>, acc: seq<Group>, r: seq<Group>)
    requires |pairs| > 0
    requires KeysOf(acc) == Dedup(PairKeys(pairs[..|pairs| - 1]))
    requires forall i :: 0 <= i < |acc| ==>
      acc[i].count == |ValuesFor(pairs[..|pairs| - 1], acc[i].key)|
      && acc[i].sum == Sum(ValuesFor(pairs[..|pairs| - 1], acc[i].key))
    requires r == Bump(acc, pairs[|pairs| - 1].0, pairs[|pairs| - 1].1)
    ensures KeysOf(r) == Dedup(PairKeys(pairs))
    ensures forall i :: 0 <= i < |r| ==>
      r[i].count == |ValuesFor(pairs, r[i].key)| && r[i].sum == Sum(ValuesFor(pairs, r[i].key))
  {
    BumpKeys(acc, pairs[|pairs| - 1].0, pairs[|pairs| - 1].1);
    AccumulateKeysStep(pairs, acc, r);
    forall i | 0 <= i < |r|
      ensures r[i].count == |ValuesFor(pairs, r[i].key)| && r[i].sum == Sum(ValuesFor(pairs, r[i].key))
    {
      AccumulateEntry(pairs, acc, r, i);
    }
  }

  lemma AccumulateKeysStep(pairs: seq<(string, real)>, acc: seq<Group>, r: seq<Group>)
    requires |pairs| > 0
    requires KeysOf(acc) == Dedup(PairKeys(pairs[..|pairs| - 1]))
    requires NoDup(KeysOf(acc))
    requires var k := pairs[|pairs| - 1].0;
      KeysOf(r) == if k in KeysOf(acc) then KeysOf(acc) else KeysOf(acc) + [k]
    ensures KeysOf(r) == Dedup(PairKeys(pairs))
  {
    var ks := PairKeys(pairs);
    assert ks[..|ks| - 1] == PairKeys(pairs[..|pairs| - 1]);
    assert ks[|ks| - 1] == pairs[|pairs| - 1].0;
  }

  lemma AccumulateEntry(pairs: seq<(string, real)>, acc: seq<Group>, r: seq<Group>, i: nat)
    requires |pairs| > 0
    requires KeysOf(acc) == Dedup(PairKeys(pairs[..|pairs| - 1]))
    requires forall i :: 0 <= i < |acc| ==>
      acc[i].count == |ValuesFor(pairs[..|pairs| - 1], acc[i].key)|
      && acc[i].sum == Sum(ValuesFor(pairs[..|pairs| - 1], acc[i].key))
    requires r == Bump(acc, pairs[|pairs| - 1].0, pairs[|pairs| - 1].1)
    requires i < |r|
    ensures r[i].count == |ValuesFor(pairs, r[i].key)| && r[i].sum == Sum(ValuesFor(pairs, r[i].key))
  {
    var init := pairs[..|pairs| - 1];
    var last := pairs[|pairs| - 1];
    if i < |acc| {
      EntryUpdated(pairs, acc[i]);
    } else {
      assert last.0 !in KeysOf(acc);
      assert i == |acc| && r[i] == Group(last.0, last.1, 1);
      DedupSameElements(PairKeys(init), last.0);
      assert last.0 !in PairKeys(init);
      EntryNew(pairs);
    }
  }

  lemma EntryUpdated(pairs: seq<(string, real)>, g: Group)
    requires |pairs| > 0
    requires g.count == |ValuesFor(pairs[..|pairs| - 1], g.key)|
    requires g.sum == Sum(ValuesFor(pairs[..|pairs| - 1], g.key))
    ensures var last := pairs[|pairs| - 1];
      var g' := if g.key == last.0 then Group(g.key, g.sum + last.1, g.count + 1) else g;
      g'.count == |ValuesFor(pairs, g'.key)| && g'.sum == Sum(ValuesFor(pairs, g'.key))
  {
    var last := pairs[|pairs| - 1];
    if g.key == last.0 {
      SumSnoc(ValuesFor(pairs[..|pairs| - 1], g.key), last.1);
    } else {
      var vs := ValuesFor(pairs[..|pairs| - 1], g.key);
      assert ValuesFor(pairs, g.key) == vs + [];
      assert vs + [] == vs;
    }
  }

  lemma EntryNew(pairs: seq<(string, real)>)
    requires |pairs| > 0
    requires pairs[|pairs| - 1].0 !in PairKeys(pairs[..|pairs| - 1])
    ensures var last := pairs[|pairs| - 1];
      |ValuesFor(pairs, last.0)| == 1 && Sum(ValuesFor(pairs, last.0)) == last.1
  {
    var last := pairs[|pairs| - 1];
    ValuesForAbsent(pairs[..|pairs| - 1], last.0);
    assert ValuesFor(pairs, last.0) == [] + [last.1];
    assert Sum([last.1]) == last.1 + Sum([]);
  }

  /** A key that never occurs has no values. */
  lemma {:induction false} ValuesForAbsent(pairs: seq<(string, real)>, k: string)
    requires k !in PairKeys(pairs)
    ensures ValuesFor(pairs, k) == []
    decreases |pairs|
  {
    if |pairs| > 0 {
      assert PairKeys(pairs[..|pairs| - 1]) == PairKeys(pairs)[..|pairs| - 1];
      ValuesForAbsent(pairs[..|pairs| - 1], k);
    }
  }

  /** A key that occurs has at least one value, so no accumulated entry has count 0. */
  lemma {:induction false} ValuesForPresent(pairs: seq<(string, real)>, k: string)
    requires k in PairKeys(pairs)
    ensures |ValuesFor(pairs, k)| >= 1
    decreases |pairs|
  {
    var init := pairs[..|pairs| - 1];
    assert PairKeys(init) == PairKeys(pairs)[..|pairs| - 1];
    if pairs[|pairs| - 1].0 != k {
      assert PairKeys(pairs) == PairKeys(init) + [pairs[|pairs| - 1].0];
      ValuesForPresent(init, k);
    }
  }

  /** Every accumulated entry has count at least one. */
  lemma AccumulateCountsPositive(pairs: seq<(string, real)>)
    ensures forall i :: 0 <= i < |Accumulate(pairs)| ==> Accumulate(pairs)[i].count >= 1
  {
    var r := Accumulate(pairs);
    forall i | 0 <= i < |r|
      ensures r[i].count >= 1
    {
      assert KeysOf(r)[i] == r[i].key;
      ValuesForPresent(pairs, r[i].key);
    }
  }

  /** Adding values under other keys leaves a key's values alone. */
  lemma {:induction false} ValuesForConcat(a: seq<(string, real)>, b: seq<(string, real)>, k: string)
    ensures ValuesFor(a + b, k) == ValuesFor(a, k) + ValuesFor(b, k)
    decreases |b|
  {
    if |b| == 0 {
      assert a + b == a;
    } else {
      assert (a + b)[..|a + b| - 1] == a + b[..|b| - 1];
      ValuesForConcat(a, b[..|b| - 1], k);
    }
  }

  /** The number of values under `k` is the number of times `k` occurs. */
  lemma {:induction false} ValuesForCount(pairs: seq<(string, real)>, k: string)
    ensures |ValuesFor(pairs, k)| == multiset(PairKeys(pairs))[k]
    decreases |pairs|
  {
    if |pairs| > 0 {
      var init := pairs[..|pairs| - 1];
      assert PairKeys(pairs) == PairKeys(init) + [pairs[|pairs| - 1].0];
      ValuesForCount(init, k);
    }
  }

  lemma ValuesForSingle(p: (string, real), k: string)
    ensures ValuesFor([p], k) == if p.0 == k then [p.1] else []
  {
    assert [p][..0] == [];
  }

  lemma PairKeysConcat(a: seq<(string, real)>, b: seq<(string, real)>)
    ensures PairKeys(a + b) == PairKeys(a) + PairKeys(b)
  {
    assert forall i :: 0 <= i < |a| ==> (a + b)[i] == a[i];
    assert forall i :: |a| <= i < |a + b| ==> (a + b)[i] == b[i - |a|];
  }
}
