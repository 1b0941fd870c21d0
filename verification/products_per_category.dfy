/** The "Products per Category" bar chart: how many records fall under each
    category key, largest first, at most fifteen bars. */
module ProductsPerCategory {
  import opened Seqs
  import opened StableSort
  import opened Grouping
  import opened JsValue
  import opened DataNormalizer
  import opened ChartInput

  /** The chart shows at most this many categories. */
  const MaxBars: nat := 15

  /** One bar: a category key and the number of records under it. */
  datatype CategoryCount = CategoryCount(name: string, count: nat)

  function BarCount(b: CategoryCount): real {
    b.count as real
  }

  function BarName(b: CategoryCount): string {
    b.name
  }

  /** The reference answer before sorting: one bar per distinct key, in order of
      first appearance, counting the key's occurrences. */
  function ReferenceBars(records: seq<Record>): (bars: seq<CategoryCount>)
    ensures |bars| == |Dedup(KeysOfRecords(records))|
    ensures forall i :: 0 <= i < |bars| ==>
      bars[i] == CategoryCount(Dedup(KeysOfRecords(records))[i],
        multiset(KeysOfRecords(records))[Dedup(KeysOfRecords(records))[i]])
  {
    var keys := KeysOfRecords(records);
    var ks := Dedup(keys);
    seq(|ks|, i requires 0 <= i < |ks| => CategoryCount(ks[i], multiset(keys)[ks[i]]))
  }

  /** The `forEach` that counts into `byCategory`, read back by `Object.entries`. */
  function CountPairs(records: seq<Record>): (pairs: seq<(string, real)>)
    ensures PairKeys(pairs) == KeysOfRecords(records)
  {
    seq(|records|, i requires 0 <= i < |records| => (CategoryKey(records[i]), 1.0))
  }

  function Bars(groups: seq<Group>): (bars: seq<CategoryCount>)
    ensures |bars| == |groups|
    ensures forall i :: 0 <= i < |groups| ==> bars[i] == CategoryCount(groups[i].key, groups[i].count)
  {
    seq(|groups|, i requires 0 <= i < |groups| => CategoryCount(groups[i].key, groups[i].count))
  }

  /** The accumulation the component performs agrees with the reference. */
  lemma CountingMatchesReference(records: seq<Record>)
    ensures Bars(Accumulate(CountPairs(records))) == ReferenceBars(records)
  {
    var bars := Bars(Accumulate(CountPairs(records)));
    var ref := ReferenceBars(records);
    forall i | 0 <= i < |bars|
      ensures bars[i] == ref[i]
    {
      CountEntry(records, i);
    }
  }

  /** One accumulated entry counts the occurrences of its key. */
  lemma CountEntry(records: seq<Record>, i: nat)
    requires i < |Accumulate(CountPairs(records))|
    ensures i < |ReferenceBars(records)|
    ensures Bars(Accumulate(CountPairs(records)))[i] == ReferenceBars(records)[i]
  {
    var pairs := CountPairs(records);
    var groups := Accumulate(pairs);
    assert KeysOf(groups) == Dedup(KeysOfRecords(records));
    assert KeysOf(groups)[i] == groups[i].key;
    ValuesForCount(pairs, groups[i].key);
  }

  /** The chart's data: count per category key, sort by count descending (ties
      keep first-appearance order), keep the first fifteen. */
  function CountByCategory(records: seq<Record>): (r: seq<CategoryCount>)
    ensures r == TopN(ReferenceBars(records), BarCount, MaxBars)
  {
    CountingMatchesReference(records);
    TopN(Bars(Accumulate(CountPairs(records))), BarCount, MaxBars)
  }

  /** The reference bars have distinct names, and each counts its key's records. */
  lemma ReferenceBarsFacts(records: seq<Record>)
    ensures DistinctBy(ReferenceBars(records), BarName)
    ensures forall i :: 0 <= i < |ReferenceBars(records)| ==> CountsItsKey(records, ReferenceBars(records)[i])
  {
    var keys := KeysOfRecords(records);
    var ref := ReferenceBars(records);
    forall i, j | 0 <= i < j < |ref|
      ensures BarName(ref[i]) != BarName(ref[j])
    {
      assert Dedup(keys)[i] != Dedup(keys)[j];
    }
    forall i | 0 <= i < |ref|
      ensures CountsItsKey(records, ref[i])
    {
      assert ref[i].name in keys;
    }
  }

  /** `b` counts exactly the records whose key is its name, and at least one. */
  predicate CountsItsKey(records: seq<Record>, b: CategoryCount) {
    b.count == multiset(KeysOfRecords(records))[b.name] && b.count >= 1
  }

  /** Each bar counts exactly the records under its name, and is at least 1; no
      name appears twice; bars are sorted by count; at most fifteen are kept; and
      bars with equal counts keep their first-appearance order. */
  lemma CountByCategoryFacts(records: seq<Record>)
    ensures |CountByCategory(records)| <= MaxBars
    ensures SortedDesc(CountByCategory(records), BarCount)
    ensures DistinctBy(CountByCategory(records), BarName)
    ensures forall i :: 0 <= i < |CountByCategory(records)| ==> CountsItsKey(records, CountByCategory(records)[i])
    ensures forall v :: WithKey(CountByCategory(records), BarCount, v) <= WithKey(ReferenceBars(records), BarCount, v)
  {
    var ref := ReferenceBars(records);
    var r := CountByCategory(records);
    ReferenceBarsFacts(records);
    TopNKeepsDistinctBy(ref, BarCount, MaxBars, BarName);
    forall i | 0 <= i < |r|
      ensures CountsItsKey(records, r[i])
    {
      var j :| 0 <= j < |ref| && ref[j] == r[i];
    }
  }

  /** When there are at most fifteen keys nothing is cut off: every record's key
      has a bar and the counts add up to the number of records. */
  lemma CountsSumToRecords(records: seq<Record>)
    requires |Dedup(KeysOfRecords(records))| <= MaxBars
    ensures SumOf(CountByCategory(records), BarCount) == |records| as real
    ensures forall k :: 0 <= k < |records| ==>
      exists i :: 0 <= i < |CountByCategory(records)| && CountByCategory(records)[i].name == CategoryKey(records[k])
  {
    var pairs := CountPairs(records);
    var groups := Accumulate(pairs);
    var ref := ReferenceBars(records);
    CountingMatchesReference(records);
    BarsSum(groups, Bars(groups), BarCount);
    SortKeepsSum(ref, BarCount, BarCount);
    var r := CountByCategory(records);
    assert r == Sort(ref, BarCount);
    forall k | 0 <= k < |records|
      ensures exists i :: 0 <= i < |r| && r[i].name == CategoryKey(records[k])
    {
      var keys := KeysOfRecords(records);
      assert keys[k] in Dedup(keys);
      var j :| 0 <= j < |Dedup(keys)| && Dedup(keys)[j] == keys[k];
      assert ref[j] in multiset(r);
      var i :| 0 <= i < |r| && r[i] == ref[j];
    }
  }

  /** The chart as the component computes it from the query result. */
  function ProductsPerCategoryChart(rawData: Json, suffix: nat -> string): (r: seq<CategoryCount>)
    ensures r == TopN(ReferenceBars(Dataset(rawData, suffix)), BarCount, MaxBars)
  {
    CountByCategory(Dataset(rawData, suffix))
  }
}
