/** The "Discount Distribution" histogram: discounts counted in buckets ten
    points wide, everything from 60 up in the last bucket, bars in ascending
    order of their lower bound. */
module DiscountDistribution {
  import opened Options
  import opened JsText
  import opened Seqs
  import opened StableSort
  import opened Grouping
  import opened JsValue
  import opened DataNormalizer
  import opened ChartInput

  /** Width of a bucket. */
  const BucketSize: int := 10
  /** Lower bound of the last bucket; larger discounts are counted there. */
  const LastBucket: int := 60

  /** One bar: the bucket's label, how many discounts fell in it, and the lower
      bound read back from the label. */
  datatype DiscountBar = DiscountBar(range: string, count: nat, min: int)

  /** `Math.min(Math.floor(d / 10) * 10, 60)`. */
  function BucketStart(d: real): (s: int)
    ensures s % BucketSize == 0 && s <= LastBucket
    ensures d >= 0.0 ==> s >= 0
    ensures d < (LastBucket + BucketSize) as real ==> s as real <= d < (s + BucketSize) as real
    ensures d >= LastBucket as real ==> s == LastBucket
  {
    var f := (d / 10.0).Floor * BucketSize;
    if f < LastBucket then f else LastBucket
  }

  lemma BucketExamples()
    ensures BucketStart(65.0) == 60
    ensures BucketStart(9.9) == 0
    ensures BucketStart(10.0) == 10
    ensures BucketStart(250.0) == 60
    ensures BucketStart(-5.0) == -10
  {
  }

  /** `${start}-${start + 10}`. */
  function Label(start: int): string {
    IntText(start) + "-" + IntText(start + BucketSize)
  }

  /** `parseInt(range.split('-')[0], 10)` as written: the text before the first
      `-`, read as an integer; `None` stands for NaN. */
  function ParseMinAsWritten(range: string): Option<int> {
    ParseInt(BeforeFirst(range, '-'))
  }

  /** The lower bound as evidently intended: a leading `-` is the sign of the
      bound, not the separator. */
  function ParseMin(range: string): Option<int> {
    if |range| > 0 && range[0] == '-' then NegatedMin(range[1..])
    else ParseMinAsWritten(range)
  }

  /** The bound of a label that starts with `-`, read from the text after that
      sign and negated. */
  function NegatedMin(body: string): Option<int> {
    Negated(ParseInt(BeforeFirst(body, '-')))
  }

  function Negated(v: Option<int>): Option<int> {
    match v
    case Some(m) => Some(-m)
    case None => None
  }

  lemma NoDashInNatText(n: nat)
    ensures '-' !in NatText(n)
  {
    var t := NatText(n);
    forall i | 0 <= i < |t|
      ensures t[i] != '-'
    {
      assert IsDigit(t[i]);
    }
  }

  /** What follows the lower bound in a label. */
  function UpperPart(start: int): string {
    "-" + IntText(start + BucketSize)
  }

  lemma LabelParts(start: int)
    ensures Label(start) == IntText(start) + UpperPart(start)
  {
  }

  /** `parseInt` of the text before the first `-`, when the text starts with the
      digits of `n` followed by `-`. */
  lemma ReadsBackDigits(n: nat, rest: string)
    requires |rest| > 0 && rest[0] == '-'
    ensures ParseInt(BeforeFirst(NatText(n) + rest, '-')) == Some(n)
  {
    NoDashInNatText(n);
    BeforeFirstOf(NatText(n), rest, '-');
    ReadsNat(n);
  }

  lemma ReadsNat(n: nat)
    ensures ParseInt(NatText(n)) == Some(n)
  {
    ParseIntOfNat(n, "");
    assert NatText(n) + "" == NatText(n);
  }

  /** For a bucket at or above zero the label reads back, as written, to its
      lower bound. */
  lemma LabelRoundTripAsWritten(start: int)
    requires start >= 0
    ensures ParseMinAsWritten(Label(start)) == Some(start)
  {
    LabelParts(start);
    ReadsBackDigits(start, UpperPart(start));
  }

  /** A bucket below zero (a negative discount) has a label such as `-10-0`
      whose text before the first `-` is empty, so the lower bound is NaN. */
  lemma NegativeBucketMinIsNaN(start: int)
    requires start < 0
    ensures ParseMinAsWritten(Label(start)) == None
  {
    assert Label(start)[0] == '-';
    assert BeforeFirst(Label(start), '-') == "";
    assert TrimStart("") == "";
  }

  /** The corrected reading gives back the lower bound of every bucket. */
  lemma LabelRoundTrip(start: int)
    ensures ParseMin(Label(start)) == Some(start)
  {
    if start >= 0 {
      LabelRoundTripAsWritten(start);
      LabelParts(start);
      assert Label(start)[0] == NatText(start)[0];
    } else {
      NegativeLabelRoundTrip(start);
    }
  }

  lemma NegativeLabelRoundTrip(start: int)
    requires start < 0
    ensures ParseMin(Label(start)) == Some(start)
  {
    var n: nat := -start;
    var rest := UpperPart(start);
    assert IntText(start) == "-" + NatText(n);
    LabelParts(start);
    DigitsAfterSign(n, rest);
    ReadsNat(n);
    NegatedReading(Label(start), NatText(n), n);
  }

  /** In `-` followed by the digits of `n` and then a `-`, the text between the
      two signs is the digits. */
  lemma DigitsAfterSign(n: nat, rest: string)
    requires |rest| > 0 && rest[0] == '-'
    ensures BeforeFirst(("-" + NatText(n) + rest)[1..], '-') == NatText(n)
  {
    AfterFirst('-', NatText(n), rest);
    NoDashInNatText(n);
    BeforeFirstOf(NatText(n), rest, '-');
  }

  /** A `-` followed by text that reads as `m` up to the next `-` reads as `-m`. */
  lemma NegatedReading(s: string, d: string, m: int)
    requires |s| > 0 && s[0] == '-'
    requires BeforeFirst(s[1..], '-') == d && ParseInt(d) == Some(m)
    ensures ParseMin(s) == Some(-m)
  {
    SignedMin(s);
  }

  lemma SignedMin(s: string)
    requires |s| > 0 && s[0] == '-'
    ensures ParseMin(s) == NegatedMin(s[1..])
  {
  }

  /** Different buckets have different labels. */
  lemma LabelInjective()
    ensures Injective(Label)
  {
    forall a, b | Label(a) == Label(b)
      ensures a == b
    {
      LabelRoundTrip(a);
      LabelRoundTrip(b);
    }
  }

  predicate HasDiscount(r: Record) {
    r.discount.Some?
  }

  function DiscountOf(r: Record): real {
    r.discount.GetOr(0.0)
  }

  /** `normalized.map((r) => r.discount).filter((d) => d != null && !isNaN(d))`:
      the discounts of the records that have one, in record order (the
      normaliser has already turned NaN into `null`). */
  function Discounts(records: seq<Record>): (ds: seq<real>)
    ensures |ds| <= |records|
    ensures |ds| == |Filter(records, HasDiscount)|
    ensures forall i :: 0 <= i < |ds| ==> Filter(records, HasDiscount)[i].discount == Some(ds[i])
    ensures forall d :: d in ds <==> exists r :: r in records && r.discount == Some(d)
  {
    var kept := Filter(records, HasDiscount);
    var ds := Map(kept, DiscountOf);
    DiscountsAligned(kept, ds);
    DiscountsMembership(records, kept, ds);
    ds
  }

  /** Every kept record has a discount, so reading it loses nothing. */
  lemma DiscountsAligned(kept: seq<Record>, ds: seq<real>)
    requires forall i :: 0 <= i < |kept| ==> HasDiscount(kept[i])
    requires |ds| == |kept| && forall i :: 0 <= i < |kept| ==> ds[i] == DiscountOf(kept[i])
    ensures forall i :: 0 <= i < |ds| ==> kept[i].discount == Some(ds[i])
  {
  }

  /** A value is among the discounts exactly when some record has it. */
  lemma DiscountsMembership(records: seq<Record>, kept: seq<Record>, ds: seq<real>)
    requires forall i :: 0 <= i < |kept| ==> kept[i] in records
    requires forall i :: 0 <= i < |records| && HasDiscount(records[i]) ==> records[i] in kept
    requires |ds| == |kept| && forall i :: 0 <= i < |ds| ==> kept[i].discount == Some(ds[i])
    ensures forall d :: d in ds <==> exists r :: r in records && r.discount == Some(d)
  {
    forall d | d in ds
      ensures exists r :: r in records && r.discount == Some(d)
    {
      var i :| 0 <= i < |ds| && ds[i] == d;
      assert kept[i] in records;
    }
    forall d | exists r :: r in records && r.discount == Some(d)
      ensures d in ds
    {
      var r :| r in records && r.discount == Some(d);
      var j :| 0 <= j < |records| && records[j] == r;
      assert HasDiscount(records[j]);
      var i :| 0 <= i < |kept| && kept[i] == r;
      assert ds[i] == d;
    }
  }

  /** The bucket of every discount, in order. */
  function StartsOf(ds: seq<real>): seq<int> {
    Map(ds, BucketStart)
  }

  /** The pairs the `forEach` adds into `buckets`: the label and a count of one. */
  function LabelPairs(ds: seq<real>): (pairs: seq<(string, real)>)
    ensures PairKeys(pairs) == Map(StartsOf(ds), Label)
  {
    seq(|ds|, i requires 0 <= i < |ds| => (Label(BucketStart(ds[i])), 1.0))
  }

  /** One bar per accumulated entry, its lower bound parsed back from its label. */
  function Bars(groups: seq<Group>): (bars: seq<DiscountBar>)
    ensures |bars| == |groups|
    ensures forall i :: 0 <= i < |groups| ==>
      bars[i] == DiscountBar(groups[i].key, groups[i].count, ParseMin(groups[i].key).GetOr(0))
  {
    seq(|groups|, i requires 0 <= i < |groups| =>
      DiscountBar(groups[i].key, groups[i].count, ParseMin(groups[i].key).GetOr(0)))
  }

  function BarCount(b: DiscountBar): real {
    b.count as real
  }

  /** The sort key of `(a, b) => a.min - b.min`, negated for a descending sort. */
  function NegMin(b: DiscountBar): real {
    -(b.min as real)
  }

  function BarMin(b: DiscountBar): int {
    b.min
  }

  /** The reference answer before sorting: one bar per bucket that received a
      discount, in order of first appearance, counting the discounts in it. */
  function ReferenceBars(ds: seq<real>): (bars: seq<DiscountBar>)
    ensures |bars| == |Dedup(StartsOf(ds))|
    ensures forall i :: 0 <= i < |bars| ==>
      var s := Dedup(StartsOf(ds))[i];
      bars[i] == DiscountBar(Label(s), multiset(StartsOf(ds))[s], s)
  {
    var starts := Dedup(StartsOf(ds));
    seq(|starts|, i requires 0 <= i < |starts| =>
      DiscountBar(Label(starts[i]), multiset(StartsOf(ds))[starts[i]], starts[i]))
  }

  /** Counting labels is counting buckets, because labels are distinct. */
  lemma {:induction false} LabelCount(starts: seq<int>, s: int)
    ensures multiset(Map(starts, Label))[Label(s)] == multiset(starts)[s]
    decreases |starts|
  {
    if |starts| > 0 {
      var init := starts[..|starts| - 1];
      var x := starts[|starts| - 1];
      assert starts == init + [x];
      MapSnoc(init, x, Label);
      LabelCount(init, s);
      if Label(x) == Label(s) {
        LabelRoundTrip(x);
        LabelRoundTrip(s);
      }
    }
  }

  /** The accumulation the component performs agrees with the reference. */
  lemma BucketingMatchesReference(ds: seq<real>)
    ensures Bars(Accumulate(LabelPairs(ds))) == ReferenceBars(ds)
  {
    var bars := Bars(Accumulate(LabelPairs(ds)));
    var ref := ReferenceBars(ds);
    BucketKeys(ds);
    forall i | 0 <= i < |bars|
      ensures bars[i] == ref[i]
    {
      BucketEntry(ds, i);
    }
  }

  /** The accumulated labels are the labels of the distinct buckets, in order. */
  lemma BucketKeys(ds: seq<real>)
    ensures KeysOf(Accumulate(LabelPairs(ds))) == Map(Dedup(StartsOf(ds)), Label)
  {
    LabelInjective();
    DedupOfMap(StartsOf(ds), Label);
  }

  /** One accumulated entry counts the discounts of its bucket. */
  lemma BucketEntry(ds: seq<real>, i: nat)
    requires i < |Accumulate(LabelPairs(ds))|
    ensures i < |ReferenceBars(ds)|
    ensures Bars(Accumulate(LabelPairs(ds)))[i] == ReferenceBars(ds)[i]
  {
    var pairs := LabelPairs(ds);
    var groups := Accumulate(pairs);
    var starts := StartsOf(ds);
    BucketKeys(ds);
    var s := Dedup(starts)[i];
    assert KeysOf(groups)[i] == groups[i].key;
    assert groups[i].key == Label(s);
    ValuesForCount(pairs, Label(s));
    LabelCount(starts, s);
    LabelRoundTrip(s);
  }

  /** The histogram's data: count the discounts per bucket, then sort by lower
      bound, ascending. */
  function DiscountHistogram(ds: seq<real>): (r: seq<DiscountBar>)
    ensures r == Sort(ReferenceBars(ds), NegMin)
  {
    BucketingMatchesReference(ds);
    Sort(Bars(Accumulate(LabelPairs(ds))), NegMin)
  }

  /** `b` is the bar of its bucket: its label is the bucket's label, its bound is
      a multiple of 10 no larger than 60, and it counts the discounts in the bucket,
      at least one. */
  predicate CountsItsBucket(ds: seq<real>, b: DiscountBar) {
    && b.range == Label(b.min)
    && b.min % BucketSize == 0 && b.min <= LastBucket
    && b.count == multiset(StartsOf(ds))[b.min]
    && b.count >= 1
  }

  lemma ReferenceBarsFacts(ds: seq<real>)
    ensures DistinctBy(ReferenceBars(ds), BarMin)
    ensures forall i :: 0 <= i < |ReferenceBars(ds)| ==> CountsItsBucket(ds, ReferenceBars(ds)[i])
    ensures SumOf(ReferenceBars(ds), BarCount) == |ds| as real
  {
    ReferenceBarsDistinct(ds);
    ReferenceBarsCount(ds);
    ReferenceBarsSum(ds);
  }

  lemma ReferenceBarsSum(ds: seq<real>)
    ensures SumOf(ReferenceBars(ds), BarCount) == |ds| as real
  {
    var groups := Accumulate(LabelPairs(ds));
    BucketingMatchesReference(ds);
    BarsSum(groups, Bars(groups), BarCount);
  }

  lemma ReferenceBarsDistinct(ds: seq<real>)
    ensures DistinctBy(ReferenceBars(ds), BarMin)
  {
    var starts := StartsOf(ds);
    var ref := ReferenceBars(ds);
    forall i, j | 0 <= i < j < |ref|
      ensures BarMin(ref[i]) != BarMin(ref[j])
    {
      assert Dedup(starts)[i] != Dedup(starts)[j];
    }
  }

  lemma ReferenceBarsCount(ds: seq<real>)
    ensures forall i :: 0 <= i < |ReferenceBars(ds)| ==> CountsItsBucket(ds, ReferenceBars(ds)[i])
  {
    var starts := StartsOf(ds);
    var ref := ReferenceBars(ds);
    forall i | 0 <= i < |ref|
      ensures CountsItsBucket(ds, ref[i])
    {
      var s := Dedup(starts)[i];
      assert s in starts;
      var j :| 0 <= j < |starts| && starts[j] == s;
      assert s == BucketStart(ds[j]);
    }
  }

  /** Bars are strictly ascending by lower bound, so labels are distinct; each
      counts its bucket; the counts add up to the number of valid discounts. */
  lemma HistogramFacts(ds: seq<real>)
    ensures forall i, j :: 0 <= i < j < |DiscountHistogram(ds)| ==>
      DiscountHistogram(ds)[i].min < DiscountHistogram(ds)[j].min
    ensures forall i :: 0 <= i < |DiscountHistogram(ds)| ==> CountsItsBucket(ds, DiscountHistogram(ds)[i])
    ensures SumOf(DiscountHistogram(ds), BarCount) == |ds| as real
  {
    ReferenceBarsFacts(ds);
    SortKeepsSum(ReferenceBars(ds), NegMin, BarCount);
    HistogramAscending(ds);
    HistogramCounts(ds);
  }

  lemma HistogramAscending(ds: seq<real>)
    ensures forall i, j :: 0 <= i < j < |DiscountHistogram(ds)| ==>
      DiscountHistogram(ds)[i].min < DiscountHistogram(ds)[j].min
  {
    ReferenceBarsDistinct(ds);
    SortKeepsDistinctBy(ReferenceBars(ds), NegMin, BarMin);
    StrictlyAscending(DiscountHistogram(ds));
  }

  /** Sorted by descending negated bound, with no bound twice: strictly ascending. */
  lemma StrictlyAscending(bars: seq<DiscountBar>)
    requires SortedDesc(bars, NegMin) && DistinctBy(bars, BarMin)
    ensures forall i, j :: 0 <= i < j < |bars| ==> bars[i].min < bars[j].min
  {
    forall i, j | 0 <= i < j < |bars|
      ensures bars[i].min < bars[j].min
    {
      assert NegMin(bars[j]) <= NegMin(bars[i]);
      assert BarMin(bars[i]) != BarMin(bars[j]);
    }
  }

  lemma HistogramCounts(ds: seq<real>)
    ensures forall i :: 0 <= i < |DiscountHistogram(ds)| ==> CountsItsBucket(ds, DiscountHistogram(ds)[i])
  {
    var ref := ReferenceBars(ds);
    var r := DiscountHistogram(ds);
    ReferenceBarsCount(ds);
    forall i | 0 <= i < |r|
      ensures CountsItsBucket(ds, r[i])
    {
      assert r[i] in multiset(ref);
      var j :| 0 <= j < |ref| && ref[j] == r[i];
    }
  }

  /** Every discount's bucket has a bar. */
  lemma EveryDiscountHasABar(ds: seq<real>, k: nat)
    requires k < |ds|
    ensures exists i :: 0 <= i < |DiscountHistogram(ds)| && DiscountHistogram(ds)[i].min == BucketStart(ds[k])
  {
    var starts := StartsOf(ds);
    var ref := ReferenceBars(ds);
    var r := DiscountHistogram(ds);
    assert starts[k] in Dedup(starts);
    var j :| 0 <= j < |Dedup(starts)| && Dedup(starts)[j] == starts[k];
    assert ref[j] in multiset(r);
    var i :| 0 <= i < |r| && r[i] == ref[j];
  }

  /** With no negative discount every bucket starts at 0 or more, and the source's
      own reading of each label gives the same bound as the corrected one: the
      histogram is exactly what the component as written shows. */
  lemma AsWrittenAgreesWithoutNegatives(ds: seq<real>)
    requires forall k :: 0 <= k < |ds| ==> ds[k] >= 0.0
    ensures forall i :: 0 <= i < |DiscountHistogram(ds)| ==>
      ParseMinAsWritten(DiscountHistogram(ds)[i].range) == Some(DiscountHistogram(ds)[i].min)
  {
    var r := DiscountHistogram(ds);
    HistogramCounts(ds);
    forall i | 0 <= i < |r|
      ensures ParseMinAsWritten(r[i].range) == Some(r[i].min)
    {
      AsWrittenBar(ds, r[i]);
    }
  }

  /** One bar of a histogram without negative discounts. */
  lemma AsWrittenBar(ds: seq<real>, b: DiscountBar)
    requires forall k :: 0 <= k < |ds| ==> ds[k] >= 0.0
    requires CountsItsBucket(ds, b)
    ensures ParseMinAsWritten(b.range) == Some(b.min)
  {
    var starts := StartsOf(ds);
    assert b.min in multiset(starts);
    var k :| 0 <= k < |starts| && starts[k] == b.min;
    assert b.min == BucketStart(ds[k]);
    LabelRoundTripAsWritten(b.min);
  }

  /** The chart as the component computes it from the query result. */
  function DiscountChart(rawData: Json, suffix: nat -> string): (r: seq<DiscountBar>)
    ensures r == Sort(ReferenceBars(Discounts(Dataset(rawData, suffix))), NegMin)
  {
    DiscountHistogram(Discounts(Dataset(rawData, suffix)))
  }
}
