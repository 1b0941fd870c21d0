/** What every chart and the table do before their own work: take the rows out
    of the query result, normalise them, and (for the charts) read a record's
    category as an object key. */
module ChartInput {
  import opened Seqs
  import opened JsValue
  import opened DataNormalizer

  /** `Array.isArray(rawData) ? rawData : rawData?.data ?? []`: an array is used as
      it is, otherwise its `data` property unless that is nullish, otherwise an
      empty array. */
  function Unpack(rawData: Json): (data: Json)
    ensures rawData.Arr? ==> data == rawData
    ensures !rawData.Arr? && !IsNullish(Prop(rawData, "data")) ==> data == Prop(rawData, "data")
    ensures !rawData.Arr? && IsNullish(Prop(rawData, "data")) ==> data == Arr([])
  {
    if rawData.Arr? then rawData
    else if IsNullish(Prop(rawData, "data")) then Arr([])
    else Prop(rawData, "data")
  }

  /** The normalised records of a query result. */
  function Dataset(rawData: Json, suffix: nat -> string): seq<Record> {
    NormalizeSalesData(Unpack(rawData), suffix)
  }

  /** The records come from the rows of the array, or of its `data` array; every
      other shape of result gives no records at all. */
  lemma DatasetRows(rawData: Json, suffix: nat -> string)
    ensures rawData.Arr? ==> RawsOf(Dataset(rawData, suffix)) == Filter(rawData.items, IsObjectLike)
    ensures !rawData.Arr? && Prop(rawData, "data").Arr? ==>
      RawsOf(Dataset(rawData, suffix)) == Filter(Prop(rawData, "data").items, IsObjectLike)
    ensures !rawData.Arr? && !Prop(rawData, "data").Arr? ==> Dataset(rawData, suffix) == []
  {
    if !rawData.Arr? && !Prop(rawData, "data").Arr? {
      var r := Dataset(rawData, suffix);
      if Unpack(rawData).Arr? {
        assert Unpack(rawData) == Arr([]);
        assert |RawsOf(r)| == 0;
      }
    }
  }

  /** `String(r.category || 'Unknown')`, the key a chart groups a record under. */
  function CategoryKey(r: Record): string {
    if Truthy(r.category) then JsString(r.category) else "Unknown"
  }

  /** The category key of every record, in record order. */
  function KeysOfRecords(records: seq<Record>): (ks: seq<string>)
    ensures |ks| == |records|
    ensures forall i :: 0 <= i < |records| ==> ks[i] == CategoryKey(records[i])
  {
    seq(|records|, i requires 0 <= i < |records| => CategoryKey(records[i]))
  }

  lemma KeysOfRecordsConcat(a: seq<Record>, b: seq<Record>)
    ensures KeysOfRecords(a + b) == KeysOfRecords(a) + KeysOfRecords(b)
  {
    assert forall i :: 0 <= i < |a| ==> (a + b)[i] == a[i];
    assert forall i :: |a| <= i < |a + b| ==> (a + b)[i] == b[i - |a|];
  }

  /** A row without a category is grouped under the placeholder, not under
      `Unknown`: the normaliser has already filled it in. */
  lemma MissingCategoryKey(row: Json, suffix: string)
    requires row.Obj?
    requires forall i :: 0 <= i < |CategoryKeys| ==> !Present(Prop(row, CategoryKeys[i]))
    ensures CategoryKey(NormalizeRow(row, suffix).value) == Placeholder
  {
    assert Get(row, CategoryKeys) == Undefined;
  }

  /** `Unknown` catches only the falsy categories that survive normalisation, such
      as the number 0. */
  lemma ZeroCategoryKey(row: Json, suffix: string)
    requires row.Obj? && Prop(row, CategoryKeys[0]) == Num(0.0)
    ensures CategoryKey(NormalizeRow(row, suffix).value) == "Unknown"
  {
    assert FirstPresentAt(row, CategoryKeys, 0);
    GetFirstMatch(row, CategoryKeys, 0);
  }
}
