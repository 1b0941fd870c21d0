/** The "Category-wise Average Rating" bar chart: the mean rating of each
    category key, rounded to two decimals, highest first, at most twelve bars. */
module CategoryAverageRating {
  import opened Options
  import opened Seqs
  import opened StableSort
  import opened Grouping
  import opened DataNormalizer
  import opened ChartInput

  /** The chart shows at most this many categories. */
  const MaxBars: nat := 12

  /** One bar: a category key and its rounded mean rating. */
  datatype CategoryRating = CategoryRating(name: string, avgRating: real)

  function BarRating(b: CategoryRating): real {
    b.avgRating
  }

  function BarName(b: CategoryRating): string {
    b.name
  }

  /** `parseFloat(x.toFixed(2))` on an exact real: the nearest multiple of 0.01,
      halves rounded away from zero. */
  function Round2(x: real): (r: real)
    ensures -1.0 / 200.0 <= r - x <= 1.0 / 200.0
    ensures (r * 100.0).Floor as real == r * 100.0
    ensures x >= 0.0 ==> r >= 0.0
  {
    var n := Hundredths(x);
    HundredthsScaleBack(n);
    n as real / 100.0
  }

  /** The whole number of hundredths nearest to `x`, halves away from zero. */
  function Hundredths(x: real): (n: int)
    ensures x * 100.0 - 0.5 <= n as real <= x * 100.0 + 0.5
    ensures x >= 0.0 ==> n >= 0
  {
    if x >= 0.0 then Cents(x) else -Cents(-x)
  }

  /** The whole number of hundredths nearest to a non-negative `x`, halves up. */
  function Cents(x: real): (n: int)
    ensures x * 100.0 - 0.5 < n as real <= x * 100.0 + 0.5
  {
    (x * 100.0 + 0.5).Floor
  }

  lemma HundredthsScaleBack(n: int)
    ensures n as real / 100.0 * 100.0 == n as real
    ensures (n as real / 100.0 * 100.0).Floor == n
  {
  }

  /** A value that already has at most two decimals is left as it is. */
  lemma Round2OfCents(n: int)
    ensures Round2(n as real / 100.0) == n as real / 100.0
  {
    var x := n as real / 100.0;
    if n >= 0 {
      assert Cents(x) == n;
    } else {
      assert Cents(-x) == -n;
    }
  }

  /** Rounding twice is rounding once. */
  lemma Round2Idempotent(x: real)
    ensures Round2(Round2(x)) == Round2(x)
  {
    var r := Round2(x);
    var n := (r * 100.0).Floor;
    assert r == n as real / 100.0;
    Round2OfCents(n);
  }

  /** Records whose rating is not `null` (the normaliser has already turned NaN
      into `null`). */
  predicate IsRated(r: Record) {
    r.rating.Some?
  }

  /** The `forEach` over the records: a rated record adds its rating under its
      category key; an unrated one adds nothing. */
  function RatedPairs(records: seq<Record>): seq<(string, real)>
    decreases |records|
  {
    if |records| == 0 then []
    else RatedPair(records[0]) + RatedPairs(records[1..])
  }

  function RatedPair(r: Record): seq<(string, real)> {
    if IsRated(r) then [(CategoryKey(r), r.rating.value)] else []
  }

  /** The keys added are the keys of the rated records. */
  lemma {:induction false} RatedPairKeys(records: seq<Record>)
    ensures PairKeys(RatedPairs(records)) == KeysOfRecords(Filter(records, IsRated))
    decreases |records|
  {
    if |records| > 0 {
      var head := RatedPair(records[0]);
      var rest := RatedPairs(records[1..]);
      RatedPairKeys(records[1..]);
      FilterCons(records, IsRated);
      PairKeysConcat(head, rest);
      if IsRated(records[0]) {
        KeysOfRecordsConcat([records[0]], Filter(records[1..], IsRated));
      }
    }
  }

  /** The reference meaning of a group: the ratings of the rated records whose
      key is `k`, in record order. */
  function RatingsOf(records: seq<Record>, k: string): seq<real>
    decreases |records|
  {
    if |records| == 0 then []
    else
      (if IsRated(records[0]) && CategoryKey(records[0]) == k then [records[0].rating.value] else [])
      + RatingsOf(records[1..], k)
  }

  /** The arithmetic mean, 0 for no values. */
  function Mean(xs: seq<real>): real {
    if |xs| == 0 then 0.0 else Sum(xs) / |xs| as real
  }

  /** What the accumulated group holds is exactly the reference ratings. */
  lemma {:induction false} GroupValuesAreRatings(records: seq<Record>, k: string)
    ensures ValuesFor(RatedPairs(records), k) == RatingsOf(records, k)
    decreases |records|
  {
    if |records| > 0 {
      var head := RatedPair(records[0]);
      GroupValuesAreRatings(records[1..], k);
      ValuesForConcat(head, RatedPairs(records[1..]), k);
      if IsRated(records[0]) {
        ValuesForSingle(head[0], k);
      }
    }
  }

  /** One bar from one accumulated entry: `count ? round2(sum / count) : 0`. */
  function AverageOf(g: Group): CategoryRating {
    CategoryRating(g.key, if g.count != 0 then Round2(g.sum / g.count as real) else 0.0)
  }

  function Averages(groups: seq<Group>): (bars: seq<CategoryRating>)
    ensures |bars| == |groups|
    ensures forall i :: 0 <= i < |groups| ==> bars[i] == AverageOf(groups[i])
  {
    seq(|groups|, i requires 0 <= i < |groups| => AverageOf(groups[i]))
  }

  /** The keys of the rated records, each once, in order of first appearance. */
  function RatedKeys(records: seq<Record>): seq<string> {
    Dedup(KeysOfRecords(Filter(records, IsRated)))
  }

  /** The reference answer before sorting: one bar per rated key, holding the
      rounded mean of that key's ratings. */
  function ReferenceAverages(records: seq<Record>): (bars: seq<CategoryRating>)
    ensures |bars| == |RatedKeys(records)|
    ensures forall i :: 0 <= i < |bars| ==>
      bars[i] == CategoryRating(RatedKeys(records)[i], Round2(Mean(RatingsOf(records, RatedKeys(records)[i]))))
  {
    var ks := RatedKeys(records);
    seq(|ks|, i requires 0 <= i < |ks| => CategoryRating(ks[i], Round2(Mean(RatingsOf(records, ks[i])))))
  }

  /** The accumulation the component performs agrees with the reference. */
  lemma AveragingMatchesReference(records: seq<Record>)
    ensures Averages(Accumulate(RatedPairs(records))) == ReferenceAverages(records)
  {
    var bars := Averages(Accumulate(RatedPairs(records)));
    var ref := ReferenceAverages(records);
    GroupKeysAreRatedKeys(records);
    forall i | 0 <= i < |bars|
      ensures bars[i] == ref[i]
    {
      EntryMatches(records, i);
    }
  }

  /** The accumulated keys are the rated keys, in the same order. */
  lemma GroupKeysAreRatedKeys(records: seq<Record>)
    ensures KeysOf(Accumulate(RatedPairs(records))) == RatedKeys(records)
  {
    RatedPairKeys(records);
  }

  lemma EntryMatches(records: seq<Record>, i: nat)
    requires i < |Accumulate(RatedPairs(records))|
    ensures i < |ReferenceAverages(records)|
    ensures Averages(Accumulate(RatedPairs(records)))[i] == ReferenceAverages(records)[i]
  {
    var pairs := RatedPairs(records);
    var groups := Accumulate(pairs);
    GroupKeysAreRatedKeys(records);
    assert KeysOf(groups)[i] == groups[i].key;
    AverageEntry(records, pairs, groups, i);
  }

  /** One accumulated entry averages the reference ratings of its key. */
  lemma AverageEntry(records: seq<Record>, pairs: seq<(string, real)>, groups: seq<Group>, i: nat)
    requires pairs == RatedPairs(records) && groups == Accumulate(pairs)
    requires i < |groups|
    ensures AverageOf(groups[i]) == CategoryRating(groups[i].key, Round2(Mean(RatingsOf(records, groups[i].key))))
  {
    var g := groups[i];
    var xs := RatingsOf(records, g.key);
    GroupValuesAreRatings(records, g.key);
    AccumulateCountsPositive(pairs);
    assert g.count == |xs| >= 1;
    assert g.sum == Sum(xs);
  }

  /** The chart's data: mean rating per key, rounded, sorted highest first (ties
      keep first-appearance order), the first twelve. */
  function AverageRatingByCategory(records: seq<Record>): (r: seq<CategoryRating>)
    ensures r == TopN(ReferenceAverages(records), BarRating, MaxBars)
  {
    AveragingMatchesReference(records);
    TopN(Averages(Accumulate(RatedPairs(records))), BarRating, MaxBars)
  }

  /** A key with at least one rating, and the rounded mean of its ratings. */
  predicate AveragesItsKey(records: seq<Record>, b: CategoryRating) {
    |RatingsOf(records, b.name)| >= 1 && b.avgRating == Round2(Mean(RatingsOf(records, b.name)))
  }

  /** Every key of a rated record has at least one rating. */
  lemma RatedKeyHasRatings(records: seq<Record>, k: string)
    requires k in KeysOfRecords(Filter(records, IsRated))
    ensures |RatingsOf(records, k)| >= 1
  {
    RatedPairKeys(records);
    GroupValuesAreRatings(records, k);
    ValuesForPresent(RatedPairs(records), k);
  }

  lemma ReferenceAveragesFacts(records: seq<Record>)
    ensures DistinctBy(ReferenceAverages(records), BarName)
    ensures forall i :: 0 <= i < |ReferenceAverages(records)| ==> AveragesItsKey(records, ReferenceAverages(records)[i])
  {
    var ks := RatedKeys(records);
    var ref := ReferenceAverages(records);
    forall i, j | 0 <= i < j < |ref|
      ensures BarName(ref[i]) != BarName(ref[j])
    {
      assert ks[i] != ks[j];
    }
    forall i | 0 <= i < |ref|
      ensures AveragesItsKey(records, ref[i])
    {
      RatedKeyHasRatings(records, ks[i]);
    }
  }

  /** Only categories with a rating appear, each once, each with the rounded mean
      of its ratings; sorted highest first, ties in first-appearance order; at
      most twelve. */
  lemma AverageRatingFacts(records: seq<Record>)
    ensures |AverageRatingByCategory(records)| <= MaxBars
    ensures SortedDesc(AverageRatingByCategory(records), BarRating)
    ensures DistinctBy(AverageRatingByCategory(records), BarName)
    ensures forall i :: 0 <= i < |AverageRatingByCategory(records)| ==>
      AveragesItsKey(records, AverageRatingByCategory(records)[i])
    ensures forall v :: WithKey(AverageRatingByCategory(records), BarRating, v) <= WithKey(ReferenceAverages(records), BarRating, v)
  {
    ReferenceAveragesFacts(records);
    TopNKeepsDistinctBy(ReferenceAverages(records), BarRating, MaxBars, BarName);
    BarsAverageTheirKeys(records);
  }

  lemma BarsAverageTheirKeys(records: seq<Record>)
    ensures forall i :: 0 <= i < |AverageRatingByCategory(records)| ==>
      AveragesItsKey(records, AverageRatingByCategory(records)[i])
  {
    var ref := ReferenceAverages(records);
    var r := AverageRatingByCategory(records);
    ReferenceAveragesFacts(records);
    forall i | 0 <= i < |r|
      ensures AveragesItsKey(records, r[i])
    {
      var j :| 0 <= j < |ref| && ref[j] == r[i];
    }
  }

  /** Before rounding, a bar's value lies between the least and the greatest
      rating of its category, so after rounding it is within half a cent of
      that range. */
  lemma AverageWithinRatings(records: seq<Record>, i: nat, lo: real, hi: real)
    requires i < |AverageRatingByCategory(records)|
    requires AllWithin(RatingsOf(records, AverageRatingByCategory(records)[i].name), lo, hi)
    ensures var m := Mean(RatingsOf(records, AverageRatingByCategory(records)[i].name));
      lo <= m <= hi
    ensures lo - 1.0 / 200.0 <= AverageRatingByCategory(records)[i].avgRating <= hi + 1.0 / 200.0
  {
    BarsAverageTheirKeys(records);
    BarWithinRatings(records, AverageRatingByCategory(records)[i], lo, hi);
  }

  lemma BarWithinRatings(records: seq<Record>, b: CategoryRating, lo: real, hi: real)
    requires AveragesItsKey(records, b)
    requires AllWithin(RatingsOf(records, b.name), lo, hi)
    ensures lo <= Mean(RatingsOf(records, b.name)) <= hi
    ensures lo - 1.0 / 200.0 <= b.avgRating <= hi + 1.0 / 200.0
  {
    var xs := RatingsOf(records, b.name);
    MeanWithinBounds(xs, lo, hi);
    assert Mean(xs) == Sum(xs) / |xs| as real;
  }
}
