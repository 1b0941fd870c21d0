/** The row canonicaliser (`normalizeRow`) and the dataset normaliser
    (`normalizeSalesData`): every raw row, whatever its field names, becomes one
    record of a single shape; rows that are not objects are dropped. */
module DataNormalizer {
  import opened Options
  import opened JsText
  import opened JsValue
  import opened Seqs

  /** The text shown for a name or category that no alias supplies. */
  const Placeholder: string := "—"

  /** The alias lists, tried in this order; the first present value wins. */
  const ProductNameKeys: seq<string> := ["product_name", "productName", "Product Name", "Product"]
  const CategoryKeys: seq<string> := ["category", "Category"]
  const RatingKeys: seq<string> := ["rating", "Rating", "average_rating"]
  const ReviewCountKeys: seq<string> := ["review_count", "reviewCount", "reviews", "Reviews", "num_reviews"]
  const DiscountKeys: seq<string> := ["discount", "Discount", "discount_percentage", "Discount Percentage"]

  /** A canonical record. Name and category keep whatever JavaScript value the
      row held (usually a string); the three numeric fields are `None` for
      `null`. `raw` is the row the record came from. */
  datatype Record = Record(
    id: Json,
    productName: Json,
    category: Json,
    rating: Option<real>,
    reviewCount: Option<real>,
    discount: Option<real>,
    raw: Json)

  /** The test the `get` helper applies to a candidate value. */
  predicate Present(v: Json) {
    !IsNullish(v) && v != Str("")
  }

  /** `keys[i]` is the first alias whose value in `row` is present. */
  predicate FirstPresentAt(row: Json, keys: seq<string>, i: int) {
    && 0 <= i < |keys|
    && Present(Prop(row, keys[i]))
    && forall j :: 0 <= j < i ==> !Present(Prop(row, keys[j]))
  }

  /** The `get` helper: the value of the first alias whose value is present, or
      `undefined` when none is. */
  function Get(row: Json, keys: seq<string>): (r: Json)
    ensures r.Undefined? <==> forall i :: 0 <= i < |keys| ==> !Present(Prop(row, keys[i]))
    ensures !r.Undefined? ==> exists i :: FirstPresentAt(row, keys, i) && r == Prop(row, keys[i])
    ensures !r.Undefined? ==> Present(r)
    decreases |keys|
  {
    if |keys| == 0 then Undefined
    else if Present(Prop(row, keys[0])) then
      assert FirstPresentAt(row, keys, 0);
      Prop(row, keys[0])
    else
      var r := Get(row, keys[1..]);
      GetShift(row, keys, r);
      r
  }

  lemma GetShift(row: Json, keys: seq<string>, r: Json)
    requires |keys| > 0 && !Present(Prop(row, keys[0]))
    requires r.Undefined? <==> forall i :: 0 <= i < |keys| - 1 ==> !Present(Prop(row, keys[1..][i]))
    requires !r.Undefined? ==> exists i :: FirstPresentAt(row, keys[1..], i) && r == Prop(row, keys[1..][i])
    ensures r.Undefined? <==> forall i :: 0 <= i < |keys| ==> !Present(Prop(row, keys[i]))
    ensures !r.Undefined? ==> exists i :: FirstPresentAt(row, keys, i) && r == Prop(row, keys[i])
  {
    if r.Undefined? {
      forall i | 0 <= i < |keys|
        ensures !Present(Prop(row, keys[i]))
      {
        if i > 0 {
          assert keys[i] == keys[1..][i - 1];
        }
      }
    } else {
      var i :| FirstPresentAt(row, keys[1..], i) && r == Prop(row, keys[1..][i]);
      assert forall j :: 0 <= j < i ==> keys[1..][j] == keys[j + 1];
      assert FirstPresentAt(row, keys, i + 1);
    }
  }

  /** The `get` helper is a first-match lookup: the first alias whose value is
      present decides, and no later alias matters. */
  lemma GetFirstMatch(row: Json, keys: seq<string>, i: int)
    requires FirstPresentAt(row, keys, i)
    ensures Get(row, keys) == Prop(row, keys[i])
  {
    var k :| FirstPresentAt(row, keys, k) && Get(row, keys) == Prop(row, keys[k]);
    FirstPresentUnique(row, keys, k, i);
  }

  /** At most one alias is the first present one. */
  lemma FirstPresentUnique(row: Json, keys: seq<string>, k: int, i: int)
    requires FirstPresentAt(row, keys, k) && FirstPresentAt(row, keys, i)
    ensures k == i
  {
  }

  /** `typeof v === 'number' ? v : parseFloat(v)`, with NaN read as `null`. An
      array is parsed through its text, so `["4"]` reads as 4. */
  function ToFloat(v: Json): (r: Option<real>)
    ensures v.Num? ==> r == Some(v.x)
    ensures v.Str? ==> r == ParseFloat(v.s)
    ensures v.Arr? ==> r == ParseFloat(JsString(v))
    ensures v.Undefined? || v.Null? || v.NaN? || v.Bool? || v.Obj? ==> r == None
  {
    match v
    case Num(x) => Some(x)
    case NaN => None
    case _ => NotNumericText(v); ParseFloat(JsString(v))
  }

  /** `typeof v === 'number' ? v : parseInt(v, 10)`, with NaN read as `null`. A
      number passes unchanged even when it is not whole. */
  function ToInt(v: Json): (r: Option<real>)
    ensures v.Num? ==> r == Some(v.x)
    ensures v.Str? ==> r == match ParseInt(v.s) case Some(n) => Some(n as real) case None => None
    ensures v.Arr? ==> r == match ParseInt(JsString(v)) case Some(n) => Some(n as real) case None => None
    ensures v.Undefined? || v.Null? || v.NaN? || v.Bool? || v.Obj? ==> r == None
    ensures r.Some? && !v.Num? ==> r.value == r.value.Floor as real
  {
    match v
    case Num(x) => Some(x)
    case NaN => None
    case _ =>
      NotNumericText(v);
      match ParseInt(JsString(v))
      case Some(n) => Some(n as real)
      case None => None
  }

  /** `String(v)` of `undefined`, `null`, a boolean or a plain object starts with a
      letter or a bracket, so neither parser finds a number in it. */
  lemma NotNumericText(v: Json)
    ensures v.Undefined? || v.Null? || v.Bool? || v.Obj? ==>
      ParseFloat(JsString(v)) == None && ParseInt(JsString(v)) == None
  {
    if v.Undefined? || v.Null? || v.Bool? || v.Obj? {
      ParseRejectsNonNumericStart(JsString(v));
    }
  }

  /** The shape every record has: a present name and category, a non-null id. */
  predicate Canonical(r: Record) {
    Present(r.productName) && Present(r.category) && !IsNullish(r.id)
  }

  /** The id a row without its own gets: built from the name and category as the
      aliases resolved them, before the placeholder is substituted. */
  function SynthesizedId(row: Json, suffix: string): Json {
    Str(JsString(Get(row, ProductNameKeys)) + "-" + JsString(Get(row, CategoryKeys)) + "-" + suffix)
  }

  /** `v` is what `get(row, ...keys) ?? '—'` gives: the value of the first alias
      whose value is present, or the placeholder when there is none. */
  ghost predicate ResolvesTo(row: Json, keys: seq<string>, v: Json) {
    || (exists i :: FirstPresentAt(row, keys, i) && v == Prop(row, keys[i]))
    || ((forall i :: 0 <= i < |keys| ==> !Present(Prop(row, keys[i]))) && v == Str(Placeholder))
  }

  /** `get(...) ?? '—'` meets `ResolvesTo`, and the result is always present. */
  function GetOrPlaceholder(row: Json, keys: seq<string>): (v: Json)
    ensures ResolvesTo(row, keys, v)
    ensures Present(v)
  {
    var g := Get(row, keys);
    if g.Undefined? then Str(Placeholder) else g
  }

  /** `normalizeRow`: `None` for a value that is falsy or not an object, else the
      canonical record of the row. `suffix` stands for the random id suffix. */
  function NormalizeRow(row: Json, suffix: string): (r: Option<Record>)
    ensures r.Some? <==> IsObjectLike(row)
    ensures r.Some? ==> r.value.raw == row && Canonical(r.value)
    ensures r.Some? ==> ResolvesTo(row, ProductNameKeys, r.value.productName)
    ensures r.Some? ==> ResolvesTo(row, CategoryKeys, r.value.category)
  {
    if !Truthy(row) || !IsObjectLike(row) then None
    else
      var id := Prop(row, "id");
      Some(Record(
        id := if IsNullish(id) then SynthesizedId(row, suffix) else id,
        productName := GetOrPlaceholder(row, ProductNameKeys),
        category := GetOrPlaceholder(row, CategoryKeys),
        rating := ToFloat(Get(row, RatingKeys)),
        reviewCount := ToInt(Get(row, ReviewCountKeys)),
        discount := ToFloat(Get(row, DiscountKeys)),
        raw := row))
  }

  /** The id is the row's own `id` whenever that is neither `null` nor `undefined`
      (an empty string is kept); otherwise it is synthesised. */
  lemma NormalizeRowId(row: Json, suffix: string)
    requires IsObjectLike(row)
    ensures !IsNullish(Prop(row, "id")) ==> NormalizeRow(row, suffix).value.id == Prop(row, "id")
    ensures IsNullish(Prop(row, "id")) ==> NormalizeRow(row, suffix).value.id == SynthesizedId(row, suffix)
  {
  }

  /** Each numeric field is the first present alias value coerced: a number as it
      is, anything else parsed, `None` when nothing is present or nothing parses. */
  lemma NormalizeRowNumbers(row: Json, suffix: string)
    requires IsObjectLike(row)
    ensures var r := NormalizeRow(row, suffix).value;
      && r.rating == ToFloat(Get(row, RatingKeys))
      && r.reviewCount == ToInt(Get(row, ReviewCountKeys))
      && r.discount == ToFloat(Get(row, DiscountKeys))
  {
  }

  /** The row a record would be if it were sent through the normaliser again:
      its canonical fields under their camelCase names, `null` for a missing
      number. */
  function AsRow(r: Record): Json {
    Obj(map[
      "id" := r.id,
      "productName" := r.productName,
      "category" := r.category,
      "rating" := NumberOrNull(r.rating),
      "reviewCount" := NumberOrNull(r.reviewCount),
      "discount" := NumberOrNull(r.discount)])
  }

  function NumberOrNull(x: Option<real>): Json {
    match x
    case Some(v) => Num(v)
    case None => Null
  }

  /** Normalising is idempotent on the canonical shape: a record written back as
      a row normalises to the same fields. */
  lemma NormalizeIsIdempotent(r: Record, suffix: string)
    requires Canonical(r)
    ensures var n := NormalizeRow(AsRow(r), suffix);
      && n.Some?
      && n.value.id == r.id
      && n.value.productName == r.productName
      && n.value.category == r.category
      && n.value.rating == r.rating
      && n.value.reviewCount == r.reviewCount
      && n.value.discount == r.discount
  {
    var row := AsRow(r);
    AsRowNames(r);
    AsRowNumbers(r);
    assert OnlyUnder(row, RatingKeys, 0, NumberOrNull(r.rating));
    assert OnlyUnder(row, ReviewCountKeys, 1, NumberOrNull(r.reviewCount));
    assert OnlyUnder(row, DiscountKeys, 0, NumberOrNull(r.discount));
    GetFirstMatch(row, ProductNameKeys, 1);
    GetFirstMatch(row, CategoryKeys, 0);
    NumberFieldRoundTrip(row, RatingKeys, r.rating);
    NumberFieldRoundTrip(row, ReviewCountKeys, r.reviewCount);
    NumberFieldRoundTrip(row, DiscountKeys, r.discount);
    NormalizeRowId(row, suffix);
    NormalizeRowNumbers(row, suffix);
  }

  lemma AsRowNames(r: Record)
    requires Canonical(r)
    ensures Prop(AsRow(r), "id") == r.id
    ensures FirstPresentAt(AsRow(r), ProductNameKeys, 1) && Prop(AsRow(r), ProductNameKeys[1]) == r.productName
    ensures FirstPresentAt(AsRow(r), CategoryKeys, 0) && Prop(AsRow(r), CategoryKeys[0]) == r.category
  {
    assert Prop(AsRow(r), "product_name") == Undefined;
  }

  lemma AsRowNumbers(r: Record)
    ensures Prop(AsRow(r), RatingKeys[0]) == NumberOrNull(r.rating)
    ensures Prop(AsRow(r), ReviewCountKeys[1]) == NumberOrNull(r.reviewCount)
    ensures Prop(AsRow(r), DiscountKeys[0]) == NumberOrNull(r.discount)
    ensures forall i :: 0 <= i < |RatingKeys| && i != 0 ==> Prop(AsRow(r), RatingKeys[i]) == Undefined
    ensures forall i :: 0 <= i < |ReviewCountKeys| && i != 1 ==> Prop(AsRow(r), ReviewCountKeys[i]) == Undefined
    ensures forall i :: 0 <= i < |DiscountKeys| && i != 0 ==> Prop(AsRow(r), DiscountKeys[i]) == Undefined
  {
  }

  /** `v` is stored under alias `keys[i]` and no other alias is set. */
  predicate OnlyUnder(row: Json, keys: seq<string>, i: int, v: Json) {
    && 0 <= i < |keys|
    && Prop(row, keys[i]) == v
    && forall j :: 0 <= j < |keys| && j != i ==> Prop(row, keys[j]) == Undefined
  }

  /** A number stored under exactly one alias comes back unchanged; `null` stored
      there, or nothing at all, comes back as `None`. */
  lemma NumberFieldRoundTrip(row: Json, keys: seq<string>, x: Option<real>)
    requires exists i :: OnlyUnder(row, keys, i, NumberOrNull(x))
    ensures ToInt(Get(row, keys)) == x
    ensures ToFloat(Get(row, keys)) == x
  {
    var i :| OnlyUnder(row, keys, i, NumberOrNull(x));
    if x.Some? {
      assert FirstPresentAt(row, keys, i);
      GetFirstMatch(row, keys, i);
    } else {
      assert Get(row, keys) == Undefined;
    }
  }

  /** A row that carries no id, no name and no category gets the placeholder for
      both and an id that starts `undefined-undefined-`, since the id is built
      from the unresolved values. */
  lemma BareRowId(row: Json, suffix: string)
    requires row.Obj?
    requires IsNullish(Prop(row, "id"))
    requires forall i :: 0 <= i < |ProductNameKeys| ==> !Present(Prop(row, ProductNameKeys[i]))
    requires forall i :: 0 <= i < |CategoryKeys| ==> !Present(Prop(row, CategoryKeys[i]))
    ensures var n := NormalizeRow(row, suffix);
      && n.Some?
      && n.value.id == Str("undefined-undefined-" + suffix)
      && n.value.productName == Str(Placeholder)
      && n.value.category == Str(Placeholder)
  {
    assert Get(row, ProductNameKeys) == Undefined;
    assert Get(row, CategoryKeys) == Undefined;
    assert JsString(Undefined) == "undefined";
    assert SynthesizedId(row, suffix) == Str("undefined" + "-" + "undefined" + "-" + suffix);
    assert "undefined" + "-" + "undefined" + "-" == "undefined-undefined-";
    assert "undefined" + "-" + "undefined" + "-" + suffix == "undefined-undefined-" + suffix;
    NormalizeRowId(row, suffix);
  }

  /** The records of `items[from..]`; `suffix(i)` stands for the random suffix
      drawn for position `i`. */
  function NormalizeFrom(items: seq<Json>, suffix: nat -> string, from: nat): (r: seq<Record>)
    requires from <= |items|
    ensures RawsOf(r) == Filter(items[from..], IsObjectLike)
    ensures forall k :: 0 <= k < |r| ==> HasSource(items, suffix, r[k]) && Canonical(r[k])
    decreases |items| - from
  {
    if from == |items| then []
    else
      var rest := NormalizeFrom(items, suffix, from + 1);
      var head := NormalizeRow(items[from], suffix(from));
      NormalizeStep(items[from..], head, rest);
      assert head.Some? ==> NormalizedAt(items, suffix, from, head.value);
      SourcesStep(items, suffix, from, head, rest);
      if head.Some? then [head.value] + rest else rest
  }

  lemma SourcesStep(items: seq<Json>, suffix: nat -> string, from: nat, head: Option<Record>, rest: seq<Record>)
    requires from < |items|
    requires head.Some? ==> NormalizedAt(items, suffix, from, head.value) && Canonical(head.value)
    requires forall k :: 0 <= k < |rest| ==> HasSource(items, suffix, rest[k]) && Canonical(rest[k])
    ensures var r := if head.Some? then [head.value] + rest else rest;
      forall k :: 0 <= k < |r| ==> HasSource(items, suffix, r[k]) && Canonical(r[k])
  {
    if head.Some? {
      var r := [head.value] + rest;
      forall k | 0 <= k < |r|
        ensures HasSource(items, suffix, r[k]) && Canonical(r[k])
      {
        if k > 0 {
          assert r[k] == rest[k - 1];
        }
      }
    }
  }

  lemma NormalizeStep(items: seq<Json>, head: Option<Record>, rest: seq<Record>)
    requires |items| > 0
    requires head.Some? <==> IsObjectLike(items[0])
    requires head.Some? ==> head.value.raw == items[0]
    requires RawsOf(rest) == Filter(items[1..], IsObjectLike)
    ensures RawsOf(if head.Some? then [head.value] + rest else rest) == Filter(items, IsObjectLike)
  {
    FilterCons(items, IsObjectLike);
    if head.Some? {
      RawsOfCons(head.value, rest);
    }
  }

  /** `rec` is the record of `items[j]`, normalised with the suffix of position `j`. */
  predicate NormalizedAt(items: seq<Json>, suffix: nat -> string, j: int, rec: Record) {
    0 <= j < |items| && NormalizeRow(items[j], suffix(j)) == Some(rec)
  }

  /** `rec` is the record of some element of `items`. */
  ghost predicate HasSource(items: seq<Json>, suffix: nat -> string, rec: Record) {
    exists j :: NormalizedAt(items, suffix, j, rec)
  }

  lemma RawsOfCons(rec: Record, rest: seq<Record>)
    ensures RawsOf([rec] + rest) == [rec.raw] + RawsOf(rest)
  {
  }

  function RawsOf(rs: seq<Record>): (raws: seq<Json>)
    ensures |raws| == |rs|
    ensures forall i :: 0 <= i < |rs| ==> raws[i] == rs[i].raw
  {
    seq(|rs|, i requires 0 <= i < |rs| => rs[i].raw)
  }

  /** `normalizeSalesData`: `[]` for anything but an array; otherwise one record
      per object element, in input order, nothing merged or dropped besides the
      non-objects. */
  function NormalizeSalesData(data: Json, suffix: nat -> string): (r: seq<Record>)
    ensures !data.Arr? ==> r == []
    ensures data.Arr? ==> RawsOf(r) == Filter(data.items, IsObjectLike)
    ensures data.Arr? ==> forall k :: 0 <= k < |r| ==> HasSource(data.items, suffix, r[k])
    ensures forall k :: 0 <= k < |r| ==> Canonical(r[k])
  {
    if !data.Arr? then []
    else
      assert data.items[0..] == data.items;
      NormalizeFrom(data.items, suffix, 0)
  }
}
