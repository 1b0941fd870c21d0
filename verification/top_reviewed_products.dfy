/** The "Top Reviewed Products" bar chart: the ten records with the most
    reviews, most reviewed first, long product names shortened. */
module TopReviewedProducts {
  import opened Options
  import opened Seqs
  import opened StableSort
  import opened JsValue
  import opened DataNormalizer
  import opened ChartInput

  /** The chart shows at most this many products. */
  const MaxBars: nat := 10
  /** Names longer than this are cut to this many characters. */
  const NameLimit: nat := 20
  /** What a cut name ends with. */
  const Ellipsis: char := '…'

  /** One bar: the (possibly shortened) product name and its review count. */
  datatype ReviewBar = ReviewBar(name: Json, reviews: real)

  /** `r.reviewCount != null && r.reviewCount > 0`. */
  predicate Reviewed(r: Record) {
    r.reviewCount.Some? && r.reviewCount.value > 0.0
  }

  /** `r.reviewCount ?? 0`, the sort key. */
  function ReviewKey(r: Record): real {
    r.reviewCount.GetOr(0.0)
  }

  /** `name?.length > 20 ? name.slice(0, 20) + '…' : name`. A string or an array
      longer than twenty is cut to its first twenty characters or elements and
      turned into text ending with the ellipsis; values without a `length` are
      kept. An object whose own `length` is a number above twenty has no `slice`
      method, so the source throws: that is `None`. */
  function Truncate(name: Json): (r: Option<Json>)
    ensures r.None? <==> name.Obj? && Prop(name, "length").Num? && Prop(name, "length").x > NameLimit as real
    ensures name.Str? ==> r.Some? && r.value.Str?
    ensures name.Arr? && |name.items| > NameLimit ==>
      r.Some? && r.value.Str? && |r.value.s| > 0 && r.value.s[|r.value.s| - 1] == Ellipsis
    ensures !name.Str? && !name.Arr? && r.Some? ==> r.value == name
  {
    match name
    case Str(s) => Some(if |s| > NameLimit then Str(s[..NameLimit] + [Ellipsis]) else name)
    case Arr(items) =>
      Some(if |items| > NameLimit then Str(JsString(Arr(items[..NameLimit])) + [Ellipsis]) else name)
    case Obj(_) =>
      var len := Prop(name, "length");
      if len.Num? && len.x > NameLimit as real then None else Some(name)
    case _ => Some(name)
  }

  /** A string of at most twenty characters is kept; a longer one becomes its
      first twenty characters followed by the ellipsis. */
  lemma TruncateString(s: string)
    ensures |Truncate(Str(s)).value.s| <= NameLimit + 1
    ensures |s| <= NameLimit ==> Truncate(Str(s)).value == Str(s)
    ensures |s| > NameLimit ==> |Truncate(Str(s)).value.s| == NameLimit + 1
    ensures |s| > NameLimit ==> Truncate(Str(s)).value.s[NameLimit] == Ellipsis
    ensures var n := if |s| <= NameLimit then |s| else NameLimit;
      Truncate(Str(s)).value.s[..n] == s[..n]
  {
    if |s| > NameLimit {
      assert |Truncate(Str(s)).value.s| == NameLimit + 1;
    }
  }

  /** Shortening an already shortened name changes nothing. */
  lemma TruncateIdempotent(s: string)
    ensures Truncate(Truncate(Str(s)).value) == Truncate(Str(s))
  {
    var t := Truncate(Str(s)).value.s;
    if |s| > NameLimit {
      assert t[..NameLimit] == s[..NameLimit];
      assert t[..NameLimit] + [Ellipsis] == t;
    }
  }

  /** The records the chart ranks: filtered by review count, stably sorted most
      reviewed first, the first ten. No record is ranked more often than it
      occurs, and records with equal counts are ranked in input order: for each
      count, the ranked records with that count are the first of the input's. */
  function TopRecords(records: seq<Record>): (top: seq<Record>)
    ensures |top| <= MaxBars
    ensures forall i :: 0 <= i < |top| ==> Reviewed(top[i]) && top[i] in records
    ensures SortedDesc(top, ReviewKey)
    ensures multiset(top) <= multiset(Filter(records, Reviewed))
    ensures forall v :: WithKey(top, ReviewKey, v) <= WithKey(Filter(records, Reviewed), ReviewKey, v)
  {
    var kept := Filter(records, Reviewed);
    var top := TopN(kept, ReviewKey, MaxBars);
    RankedAreReviewed(records, kept, top);
    top
  }

  /** Whatever is taken from the reviewed records is a reviewed input record. */
  lemma RankedAreReviewed(records: seq<Record>, kept: seq<Record>, top: seq<Record>)
    requires forall i :: 0 <= i < |kept| ==> kept[i] in records && Reviewed(kept[i])
    requires forall i :: 0 <= i < |top| ==> top[i] in multiset(kept)
    ensures forall i :: 0 <= i < |top| ==> Reviewed(top[i]) && top[i] in records
  {
    forall i | 0 <= i < |top|
      ensures Reviewed(top[i]) && top[i] in records
    {
      assert top[i] in kept;
      var j :| 0 <= j < |kept| && kept[j] == top[i];
    }
  }

  /** One bar per ranked record. */
  function BarOf(r: Record): Option<ReviewBar> {
    match Truncate(r.productName)
    case Some(name) => Some(ReviewBar(name, ReviewKey(r)))
    case None => None
  }

  /** Every ranked name can be shortened without throwing. */
  predicate AllNamed(top: seq<Record>) {
    forall i :: 0 <= i < |top| ==> BarOf(top[i]).Some?
  }

  /** The chart's data, or `None` when shortening one of the ranked names throws. */
  function TopReviewed(records: seq<Record>): (r: Option<seq<ReviewBar>>)
    ensures r.Some? <==> AllNamed(TopRecords(records))
    ensures r.Some? ==> |r.value| == |TopRecords(records)|
  {
    var top := TopRecords(records);
    if AllNamed(top) then Some(seq(|top|, i requires 0 <= i < |top| => BarOf(top[i]).value))
    else None
  }

  /** Each bar is the review count of the record at its rank, which is positive,
      and that record's shortened name. */
  lemma TopReviewedBars(records: seq<Record>, i: nat)
    requires TopReviewed(records).Some? && i < |TopReviewed(records).value|
    ensures TopReviewed(records).value[i].reviews == TopRecords(records)[i].reviewCount.value
    ensures TopReviewed(records).value[i].reviews > 0.0
    ensures Some(TopReviewed(records).value[i].name) == Truncate(TopRecords(records)[i].productName)
  {
    var top := TopRecords(records);
    assert BarOf(top[i]).Some?;
    assert Reviewed(top[i]);
  }

  /** `b` shows the review count and the shortened name of some record. */
  predicate FromRecord(records: seq<Record>, b: ReviewBar) {
    exists k :: 0 <= k < |records| && records[k].reviewCount == Some(b.reviews) && Truncate(records[k].productName) == Some(b.name)
  }

  /** At most ten bars, most reviewed first, each one the review count and the
      shortened name of some record of the input with reviews. Bar `i` shows the
      ranked record `i`, and records that tie are ranked in input order, so when
      several records share the tenth count the earliest ones are shown. */
  lemma TopReviewedFacts(records: seq<Record>)
    requires TopReviewed(records).Some?
    ensures |TopReviewed(records).value| <= MaxBars
    ensures forall i, j :: 0 <= i < j < |TopReviewed(records).value| ==>
      TopReviewed(records).value[i].reviews >= TopReviewed(records).value[j].reviews
    ensures forall i :: 0 <= i < |TopReviewed(records).value| ==> FromRecord(records, TopReviewed(records).value[i])
    ensures |TopReviewed(records).value| == |TopRecords(records)|
    ensures forall i :: 0 <= i < |TopReviewed(records).value| ==>
      TopReviewed(records).value[i].reviews == ReviewKey(TopRecords(records)[i])
    ensures forall v :: WithKey(TopRecords(records), ReviewKey, v) <= WithKey(Filter(records, Reviewed), ReviewKey, v)
  {
    var top := TopRecords(records);
    var bars := TopReviewed(records).value;
    forall i, j | 0 <= i < j < |bars|
      ensures bars[i].reviews >= bars[j].reviews
    {
      TopReviewedBars(records, i);
      TopReviewedBars(records, j);
      assert ReviewKey(top[j]) <= ReviewKey(top[i]);
    }
    forall i | 0 <= i < |bars|
      ensures FromRecord(records, bars[i])
    {
      TopReviewedBars(records, i);
      assert top[i] in records;
      var k :| 0 <= k < |records| && records[k] == top[i];
    }
    forall i | 0 <= i < |bars|
      ensures bars[i].reviews == ReviewKey(top[i])
    {
      TopReviewedBars(records, i);
    }
  }

  /** A record with reviews that did not make the ten has no more reviews than
      the tenth bar. */
  lemma LeftOutHaveFewerReviews(records: seq<Record>, x: Record)
    requires x in multiset(Filter(records, Reviewed)) - multiset(TopRecords(records))
    ensures |TopRecords(records)| == MaxBars
    ensures ReviewKey(x) <= ReviewKey(TopRecords(records)[MaxBars - 1])
  {
    TopNLeavesOutSmaller(Filter(records, Reviewed), ReviewKey, MaxBars, x);
  }

  /** With at most ten reviewed records, all of them are ranked, each as often as
      it occurs. */
  lemma AllShownWhenFew(records: seq<Record>)
    requires |Filter(records, Reviewed)| <= MaxBars
    ensures multiset(TopRecords(records)) == multiset(Filter(records, Reviewed))
  {
  }

  /** A record without reviews, or with zero or a negative count, never ranks. */
  lemma UnreviewedNeverShown(records: seq<Record>, x: Record)
    requires !Reviewed(x)
    ensures x !in TopRecords(records)
  {
  }

  /** When no record has reviews the chart is empty. */
  lemma NoReviewsNoBars(records: seq<Record>)
    requires forall i :: 0 <= i < |records| ==> !Reviewed(records[i])
    ensures TopReviewed(records) == Some([])
  {
    FilterNone(records, Reviewed);
  }

  /** The chart as the component computes it from the query result. */
  function TopReviewedChart(rawData: Json, suffix: nat -> string): (r: Option<seq<ReviewBar>>)
    ensures r.Some? ==> |r.value| <= MaxBars
  {
    TopReviewed(Dataset(rawData, suffix))
  }
}
