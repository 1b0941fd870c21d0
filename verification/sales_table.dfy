/** The sales table: the category menu, the search, category and review
    filters, pagination, and the way the filter controls send the table back to
    its first page. */
module SalesTable {
  import opened JsText
  import opened JsValue
  import opened Seqs
  import opened DataNormalizer
  import opened ChartInput

  /** The page sizes the pagination control offers. */
  const RowsPerPageOptions: seq<nat> := [5, 10, 25, 50]
  const DefaultRowsPerPage: nat := 10
  /** The two non-empty values of the review menu. */
  const HasReviews: string := "has_reviews"
  const NoReviews: string := "no_reviews"

  // ---------------------------------------------------------------------------
  // The category menu
  // ---------------------------------------------------------------------------

  function CategoryOf(r: Record): Json {
    r.category
  }

  /** In the order of the default `sort`: by the text of each element, by code
      point (see the README's "Left out" for the UTF-16 difference). */
  predicate TextSorted<T>(s: seq<T>, text: T -> string) {
    forall i, j :: 0 <= i < j < |s| ==> TextLe(text(s[i]), text(s[j]))
  }

  /** Put `x` before the first element whose text is not smaller, which keeps
      equal texts in their input order. */
  function InsertByText<T(==)>(x: T, t: seq<T>, text: T -> string): (r: seq<T>)
    requires TextSorted(t, text)
    ensures TextSorted(r, text)
    ensures multiset(r) == multiset(t) + multiset{x}
    ensures x !in t && NoDup(t) ==> NoDup(r)
    decreases |t|
  {
    if |t| == 0 then [x]
    else if TextLe(text(x), text(t[0])) then
      InsertFront(x, t, text);
      [x] + t
    else
      var rest := InsertByText(x, t[1..], text);
      InsertBehind(x, t, rest, text);
      assert t == [t[0]] + t[1..];
      [t[0]] + rest
  }

  lemma InsertFront<T>(x: T, t: seq<T>, text: T -> string)
    requires TextSorted(t, text) && |t| > 0 && TextLe(text(x), text(t[0]))
    ensures TextSorted([x] + t, text)
    ensures x !in t && NoDup(t) ==> NoDup([x] + t)
  {
    var r := [x] + t;
    forall i, j | 0 <= i < j < |r|
      ensures TextLe(text(r[i]), text(r[j]))
    {
      if i == 0 && j > 1 {
        TextLeTransitive(text(x), text(t[0]), text(t[j - 1]));
      }
    }
  }

  lemma InsertBehind<T>(x: T, t: seq<T>, rest: seq<T>, text: T -> string)
    requires TextSorted(t, text) && |t| > 0 && !TextLe(text(x), text(t[0]))
    requires TextSorted(rest, text) && multiset(rest) == multiset(t[1..]) + multiset{x}
    requires x !in t[1..] && NoDup(t[1..]) ==> NoDup(rest)
    ensures TextSorted([t[0]] + rest, text)
    ensures x !in t && NoDup(t) ==> NoDup([t[0]] + rest)
  {
    TextLessTotal(text(x), text(t[0]));
    forall j | 0 <= j < |rest|
      ensures TextLe(text(t[0]), text(rest[j]))
      ensures t[0] !in t[1..] && t[0] != x ==> rest[j] != t[0]
    {
      assert rest[j] in multiset(rest);
      if rest[j] != x {
        assert rest[j] in multiset(t[1..]);
        var k :| 0 <= k < |t[1..]| && t[1..][k] == rest[j];
        assert t[k + 1] == rest[j];
      }
    }
    if x !in t && NoDup(t) {
      assert t[0] !in t[1..];
    }
  }

  /** Insertion sort by text. */
  function SortByText<T(==)>(s: seq<T>, text: T -> string): (r: seq<T>)
    ensures TextSorted(r, text)
    ensures multiset(r) == multiset(s)
    ensures NoDup(s) ==> NoDup(r)
    decreases |s|
  {
    if |s| == 0 then []
    else
      var rest := SortByText(s[1..], text);
      SortStep(s, rest);
      InsertByText(s[0], rest, text)
  }

  lemma SortStep<T>(s: seq<T>, rest: seq<T>)
    requires |s| > 0 && multiset(rest) == multiset(s[1..])
    requires NoDup(s[1..]) ==> NoDup(rest)
    ensures multiset(rest) + multiset{s[0]} == multiset(s)
    ensures NoDup(s) ==> s[0] !in rest && NoDup(rest)
  {
    assert s == [s[0]] + s[1..];
    if NoDup(s) {
      assert s[0] !in multiset(s[1..]);
      assert NoDup(s[1..]);
    }
  }

  /** The elements of `s` whose text is `w`, in their order in `s`. */
  function WithText<T>(s: seq<T>, text: T -> string, w: string): seq<T>
    decreases |s|
  {
    if |s| == 0 then []
    else (if text(s[0]) == w then [s[0]] else []) + WithText(s[1..], text, w)
  }

  lemma WithTextCons<T>(y: T, s: seq<T>, text: T -> string, w: string)
    ensures WithText([y] + s, text, w) == (if text(y) == w then [y] else []) + WithText(s, text, w)
  {
    assert ([y] + s)[1..] == s;
  }

  /** Inserting `x` adds it to its text group ahead of the elements that share
      its text. */
  lemma {:induction false} InsertByTextStable<T>(x: T, t: seq<T>, text: T -> string, w: string)
    requires TextSorted(t, text)
    ensures WithText(InsertByText(x, t, text), text, w) == (if text(x) == w then [x] else []) + WithText(t, text, w)
    decreases |t|
  {
    if |t| == 0 || TextLe(text(x), text(t[0])) {
      WithTextCons(x, t, text, w);
    } else {
      InsertByTextBehind(x, t, text);
      InsertByTextStable(x, t[1..], text, w);
      WithTextBehind(t[0], x, InsertByText(x, t[1..], text), t[1..], text, w);
      WithTextCons(t[0], t[1..], text, w);
    }
  }

  /** Where `x` ranks after the first element, the insertion happens in the tail. */
  lemma InsertByTextBehind<T>(x: T, t: seq<T>, text: T -> string)
    requires TextSorted(t, text) && |t| > 0 && !TextLe(text(x), text(t[0]))
    ensures TextSorted(t[1..], text)
    ensures InsertByText(x, t, text) == [t[0]] + InsertByText(x, t[1..], text)
  {
  }

  /** The step where `x` goes behind `h`: their texts differ, so at most one of
      the two is in the group of `w`. */
  lemma WithTextBehind<T>(h: T, x: T, rest: seq<T>, tail: seq<T>, text: T -> string, w: string)
    requires !TextLe(text(x), text(h))
    requires WithText(rest, text, w) == (if text(x) == w then [x] else []) + WithText(tail, text, w)
    ensures WithText([h] + rest, text, w) == (if text(x) == w then [x] else []) + WithText([h] + tail, text, w)
  {
    WithTextCons(h, rest, text, w);
    WithTextCons(h, tail, text, w);
  }

  /** The default sort is stable: elements with the same text, such as the number
      5 and the string "5", keep their input order. */
  lemma {:induction false} SortByTextStable<T>(s: seq<T>, text: T -> string, w: string)
    ensures WithText(SortByText(s, text), text, w) == WithText(s, text, w)
    decreases |s|
  {
    if |s| > 0 {
      SortByTextStable(s[1..], text, w);
      InsertByTextStable(s[0], SortByText(s[1..], text), text, w);
      assert s == [s[0]] + s[1..];
      WithTextCons(s[0], s[1..], text, w);
    }
  }

  /** `Array.from(new Set(normalized.map((r) => r.category).filter(Boolean))).sort()`. */
  function Categories(records: seq<Record>): (cats: seq<Json>)
    ensures TextSorted(cats, JsString)
    ensures NoDup(cats)
  {
    SortByText(Dedup(Filter(Map(records, CategoryOf), Truthy)), JsString)
  }

  /** Categories that differ but read the same, such as the number 5 and the
      string "5", appear in the menu in the order they were first met. */
  lemma CategoriesStable(records: seq<Record>, w: string)
    ensures WithText(Categories(records), JsString, w)
      == WithText(Dedup(Filter(Map(records, CategoryOf), Truthy)), JsString, w)
  {
    SortByTextStable(Dedup(Filter(Map(records, CategoryOf), Truthy)), JsString, w);
  }

  /** The menu lists exactly the truthy categories of the records. */
  lemma CategoriesMembership(records: seq<Record>, v: Json)
    ensures v in Categories(records) <==> Truthy(v) && exists i :: 0 <= i < |records| && records[i].category == v
  {
    var cats := Map(records, CategoryOf);
    var kept := Filter(cats, Truthy);
    assert v in Categories(records) <==> v in multiset(Categories(records));
    DedupSameElements(kept, v);
    if v in kept {
      var k :| 0 <= k < |kept| && kept[k] == v;
      assert v in cats;
      var i :| 0 <= i < |cats| && cats[i] == v;
      assert records[i].category == v;
    }
    if Truthy(v) && exists i :: 0 <= i < |records| && records[i].category == v {
      var i :| 0 <= i < |records| && records[i].category == v;
      assert cats[i] == v;
    }
  }

  // ---------------------------------------------------------------------------
  // The filters
  // ---------------------------------------------------------------------------

  /** A blank search keeps every row; otherwise the row's `String(productName)`,
      lower-cased, must contain the trimmed, lower-cased search text. */
  predicate SearchOk(search: string, r: Record) {
    |Trim(search)| == 0 || Includes(ToLower(JsString(r.productName)), ToLower(Trim(search)))
  }

  /** A falsy filter keeps every row; otherwise `r.category === categoryFilter`. */
  predicate CategoryOk(categoryFilter: Json, r: Record) {
    !Truthy(categoryFilter) || StrictEquals(r.category, categoryFilter)
  }

  /** `has_reviews` keeps counts above zero, `no_reviews` keeps `null` and zero,
      any other value keeps every row. */
  predicate ReviewOk(reviewFilter: string, r: Record) {
    if reviewFilter == HasReviews then r.reviewCount.Some? && r.reviewCount.value > 0.0
    else if reviewFilter == NoReviews then r.reviewCount.None? || r.reviewCount.value == 0.0
    else true
  }

  /** The reference meaning of the three filters together. */
  predicate Passes(search: string, categoryFilter: Json, reviewFilter: string, r: Record) {
    SearchOk(search, r) && CategoryOk(categoryFilter, r) && ReviewOk(reviewFilter, r)
  }

  /** `if (search.trim()) list = list.filter(...)`. */
  function BySearch(list: seq<Record>, search: string): (r: seq<Record>)
    ensures r == Filter(list, x => SearchOk(search, x))
  {
    var q := ToLower(Trim(search));
    if |Trim(search)| > 0 then
      FilterSameTest(list, (x: Record) => Includes(ToLower(JsString(x.productName)), q), x => SearchOk(search, x));
      Filter(list, (x: Record) => Includes(ToLower(JsString(x.productName)), q))
    else
      FilterAll(list, x => SearchOk(search, x));
      list
  }

  /** `if (categoryFilter) list = list.filter((r) => r.category === categoryFilter)`. */
  function ByCategory(list: seq<Record>, categoryFilter: Json): (r: seq<Record>)
    ensures r == Filter(list, x => CategoryOk(categoryFilter, x))
  {
    if Truthy(categoryFilter) then
      FilterSameTest(list, (x: Record) => StrictEquals(x.category, categoryFilter), x => CategoryOk(categoryFilter, x));
      Filter(list, (x: Record) => StrictEquals(x.category, categoryFilter))
    else
      FilterAll(list, x => CategoryOk(categoryFilter, x));
      list
  }

  /** The `has_reviews` / `no_reviews` branch. */
  function ByReview(list: seq<Record>, reviewFilter: string): (r: seq<Record>)
    ensures r == Filter(list, x => ReviewOk(reviewFilter, x))
  {
    if reviewFilter == HasReviews then
      FilterSameTest(list, (x: Record) => x.reviewCount.Some? && x.reviewCount.value > 0.0, x => ReviewOk(reviewFilter, x));
      Filter(list, (x: Record) => x.reviewCount.Some? && x.reviewCount.value > 0.0)
    else if reviewFilter == NoReviews then
      FilterSameTest(list, (x: Record) => x.reviewCount.None? || x.reviewCount.value == 0.0, x => ReviewOk(reviewFilter, x));
      Filter(list, (x: Record) => x.reviewCount.None? || x.reviewCount.value == 0.0)
    else
      FilterAll(list, x => ReviewOk(reviewFilter, x));
      list
  }

  /** The `filtered` list: the three filters applied one after the other are the
      rows that pass all three, in their original order. */
  function Filtered(records: seq<Record>, search: string, categoryFilter: Json, reviewFilter: string): (list: seq<Record>)
    ensures list == Filter(records, x => Passes(search, categoryFilter, reviewFilter, x))
  {
    var l1 := BySearch(records, search);
    var l2 := ByCategory(l1, categoryFilter);
    var l3 := ByReview(l2, reviewFilter);
    FilterFilter(records, x => SearchOk(search, x), x => CategoryOk(categoryFilter, x),
      x => SearchOk(search, x) && CategoryOk(categoryFilter, x));
    FilterFilter(records, x => SearchOk(search, x) && CategoryOk(categoryFilter, x), x => ReviewOk(reviewFilter, x),
      x => Passes(search, categoryFilter, reviewFilter, x));
    l3
  }

  /** A row is listed exactly when it passes all three filters. */
  lemma FilteredMembership(records: seq<Record>, search: string, categoryFilter: Json, reviewFilter: string, r: Record)
    ensures r in Filtered(records, search, categoryFilter, reviewFilter) <==>
      r in records && Passes(search, categoryFilter, reviewFilter, r)
  {
    var list := Filtered(records, search, categoryFilter, reviewFilter);
    if r in records && Passes(search, categoryFilter, reviewFilter, r) {
      var i :| 0 <= i < |records| && records[i] == r;
    }
    if r in list {
      var i :| 0 <= i < |list| && list[i] == r;
    }
  }

  /** No row ever passes both review filters; a row with a `null` or non-negative
      count passes exactly one; a negative count passes neither. */
  lemma ReviewFiltersSplit(r: Record)
    ensures !(ReviewOk(HasReviews, r) && ReviewOk(NoReviews, r))
    ensures r.reviewCount.None? || r.reviewCount.value >= 0.0 ==> ReviewOk(HasReviews, r) || ReviewOk(NoReviews, r)
    ensures r.reviewCount.Some? && r.reviewCount.value < 0.0 ==> !ReviewOk(HasReviews, r) && !ReviewOk(NoReviews, r)
  {
  }

  /** With the same search and category, the two review filters together list at
      most the rows the review filter "All" lists, and exactly those when no count
      is negative. */
  lemma ReviewFilterCounts(records: seq<Record>, search: string, categoryFilter: Json)
    ensures |Filtered(records, search, categoryFilter, HasReviews)| + |Filtered(records, search, categoryFilter, NoReviews)|
      <= |Filtered(records, search, categoryFilter, "")|
    ensures (forall i :: 0 <= i < |records| ==> records[i].reviewCount.None? || records[i].reviewCount.value >= 0.0) ==>
      |Filtered(records, search, categoryFilter, HasReviews)| + |Filtered(records, search, categoryFilter, NoReviews)|
        == |Filtered(records, search, categoryFilter, "")|
  {
    var all := Filtered(records, search, categoryFilter, "");
    var has := (x: Record) => ReviewOk(HasReviews, x);
    var no := (x: Record) => ReviewOk(NoReviews, x);
    var base := (x: Record) => SearchOk(search, x) && CategoryOk(categoryFilter, x);
    FilterSameTest(records, x => Passes(search, categoryFilter, "", x), base);
    FilterFilter(records, base, has, x => Passes(search, categoryFilter, HasReviews, x));
    FilterFilter(records, base, no, x => Passes(search, categoryFilter, NoReviews, x));
    forall i | 0 <= i < |all|
      ensures !(has(all[i]) && no(all[i]))
    {
      ReviewFiltersSplit(all[i]);
    }
    FilterSplit(all, has, no);
    if forall i :: 0 <= i < |records| ==> records[i].reviewCount.None? || records[i].reviewCount.value >= 0.0 {
      forall i | 0 <= i < |all|
        ensures has(all[i]) || no(all[i])
      {
        assert all[i] in records;
        ReviewFiltersSplit(all[i]);
      }
    }
  }

  /** `ToLower` keeps a window in place. */
  lemma LowerWindow(s: string, t: string, i: int)
    requires WindowAt(s, t, i)
    ensures WindowAt(ToLower(s), ToLower(t), i)
  {
    assert forall k :: 0 <= k < |t| ==> s[i + k] == t[k];
  }

  /** Searching for a product's whole name, with or without surrounding blanks,
      finds it: the search is case-insensitive and trims only the search text. */
  lemma SearchFindsOwnName(r: Record)
    ensures SearchOk(JsString(r.productName), r)
  {
    var name := JsString(r.productName);
    var i :| WindowAt(name, Trim(name), i);
    LowerWindow(name, Trim(name), i);
  }

  /** Picking a category from the menu lists only rows of that category. */
  lemma CategoryFilterKeepsCategory(records: seq<Record>, search: string, reviewFilter: string, c: Json, r: Record)
    requires c in Categories(records)
    requires r in Filtered(records, search, c, reviewFilter)
    ensures r.category == c
  {
    CategoriesMembership(records, c);
    FilteredMembership(records, search, c, reviewFilter, r);
  }

  // ---------------------------------------------------------------------------
  // Pagination
  // ---------------------------------------------------------------------------

  /** `filtered.slice(page * rowsPerPage, page * rowsPerPage + rowsPerPage)`. */
  function Page(list: seq<Record>, page: nat, rowsPerPage: nat): (rows: seq<Record>)
    ensures |rows| <= rowsPerPage
    ensures rows == [] <==> rowsPerPage == 0 || page * rowsPerPage >= |list|
  {
    Slice(list, page * rowsPerPage, page * rowsPerPage + rowsPerPage)
  }

  /** Row `j` of the list is row `j % n` of page `j / n`. */
  lemma PageRow(list: seq<Record>, n: nat, j: nat)
    requires n > 0 && j < |list|
    ensures j % n < |Page(list, j / n, n)|
    ensures Page(list, j / n, n)[j % n] == list[j]
  {
    var start := j / n * n;
    DivMod(j, n);
    SliceAt(list, start, start + n, j % n);
  }

  lemma DivMod(j: nat, n: nat)
    requires n > 0
    ensures j / n * n + j % n == j && 0 <= j % n < n
  {
  }

  lemma SliceAt(list: seq<Record>, start: nat, end: nat, i: nat)
    requires start + i < |list| && start + i < end
    ensures i < |Slice(list, start, end)| && Slice(list, start, end)[i] == list[start + i]
  {
  }

  /** The first `k` pages one after the other. */
  function PagesUpTo(list: seq<Record>, n: nat, k: nat): seq<Record> {
    if k == 0 then [] else PagesUpTo(list, n, k - 1) + Page(list, k - 1, n)
  }

  /** The first `k` pages are the first `k * n` rows. */
  lemma {:induction false} PagesUpToPrefix(list: seq<Record>, n: nat, k: nat)
    ensures PagesUpTo(list, n, k) == Prefix(list, k * n)
  {
    if k > 0 {
      var a := (k - 1) * n;
      calc {
        PagesUpTo(list, n, k);
        { PagesUpToStep(list, n, k, a); }
        PagesUpTo(list, n, k - 1) + Slice(list, a, a + n);
        { PagesUpToPrefix(list, n, k - 1); }
        Prefix(list, a) + Slice(list, a, a + n);
        { PrefixThenSlice(list, a, a + n); }
        Prefix(list, a + n);
        { MulStep(k, n); }
        Prefix(list, k * n);
      }
    }
  }

  /** `list.slice(0, m)`. */
  function Prefix(list: seq<Record>, m: nat): seq<Record> {
    list[..if m <= |list| then m else |list|]
  }

  lemma PagesUpToStep(list: seq<Record>, n: nat, k: nat, a: nat)
    requires k > 0 && a == (k - 1) * n
    ensures PagesUpTo(list, n, k) == PagesUpTo(list, n, k - 1) + Slice(list, a, a + n)
  {
  }

  lemma MulStep(k: nat, n: nat)
    requires k > 0
    ensures k * n == (k - 1) * n + n
  {
  }

  /** A prefix followed by the slice that starts where it ends is a longer prefix. */
  lemma PrefixThenSlice(list: seq<Record>, a: nat, b: nat)
    requires a <= b
    ensures Prefix(list, a) + Slice(list, a, b) == Prefix(list, b)
  {
  }

  /** The number of pages needed for `count` rows. */
  function PageCount(count: nat, n: nat): (k: nat)
    requires n > 0
    ensures k * n >= count
    ensures k > 0 ==> (k - 1) * n < count
  {
    var k := (count + n - 1) / n;
    assert k * n + (count + n - 1) % n == count + n - 1;
    k
  }

  /** Reading every page in turn gives back the whole filtered list, once. */
  lemma PagesCoverList(list: seq<Record>, n: nat)
    requires n > 0
    ensures PagesUpTo(list, n, PageCount(|list|, n)) == list
  {
    PagesUpToPrefix(list, n, PageCount(|list|, n));
  }

  // ---------------------------------------------------------------------------
  // The component's state
  // ---------------------------------------------------------------------------

  datatype TableState = TableState(
    page: nat,
    rowsPerPage: nat,
    search: string,
    categoryFilter: Json,
    reviewFilter: string)

  /** The `useState` initial values. */
  const Initial: TableState := TableState(0, DefaultRowsPerPage, "", Str(""), "")

  /** What the user can do: pick a page, pick a page size, type in the search
      box, pick a category, pick a review filter. */
  datatype Event =
    | ChangePage(newPage: nat)
    | ChangeRowsPerPage(newRowsPerPage: nat)
    | EditSearch(text: string)
    | PickCategory(category: Json)
    | PickReview(filter: string)

  /** The handlers: every control but the page control also goes back to page 0. */
  function Step(s: TableState, e: Event): TableState {
    match e
    case ChangePage(p) => s.(page := p)
    case ChangeRowsPerPage(n) => s.(rowsPerPage := n, page := 0)
    case EditSearch(t) => s.(search := t, page := 0)
    case PickCategory(c) => s.(categoryFilter := c, page := 0)
    case PickReview(f) => s.(reviewFilter := f, page := 0)
  }

  /** What the table shows: the rows of the current page and the total count. */
  datatype View = View(rows: seq<Record>, count: nat)

  /** The rows shown are the filtered rows from index `page * rowsPerPage` on, as
      many as fit on a page and as remain; the count is the whole filtered list. */
  function ViewOf(records: seq<Record>, s: TableState): (v: View)
    ensures |v.rows| <= s.rowsPerPage
    ensures ShowsPage(v.rows, Filtered(records, s.search, s.categoryFilter, s.reviewFilter), s.page, s.rowsPerPage)
    ensures v.count == |Filtered(records, s.search, s.categoryFilter, s.reviewFilter)|
  {
    var list := Filtered(records, s.search, s.categoryFilter, s.reviewFilter);
    var rows := Page(list, s.page, s.rowsPerPage);
    PageContents(list, s.page, s.rowsPerPage);
    View(rows, |list|)
  }

  /** `rows` are the rows of `list` from index `page * n` on, as many as fit on a
      page of `n` and as remain. */
  predicate ShowsPage(rows: seq<Record>, list: seq<Record>, page: nat, n: nat) {
    && |rows| == (if page * n >= |list| then 0 else if |list| - page * n < n then |list| - page * n else n)
    && forall i :: 0 <= i < |rows| ==> page * n + i < |list| && rows[i] == list[page * n + i]
  }

  /** Page `page` holds the rows from `page * n` on, as many as fit and remain. */
  lemma PageContents(list: seq<Record>, page: nat, n: nat)
    ensures ShowsPage(Page(list, page, n), list, page, n)
  {
  }

  /** The first page is the first rows. */
  lemma FirstPage(list: seq<Record>, n: nat)
    ensures Page(list, 0, n) == Take(list, n)
  {
  }

  /** Every event but a page change lands on the first page of the new filtered
      list, and changes only the control it comes from. */
  lemma ControlsResetPage(records: seq<Record>, s: TableState, e: Event)
    requires !e.ChangePage?
    ensures Step(s, e).page == 0
    ensures ViewOf(records, Step(s, e)).rows
      == Take(Filtered(records, Step(s, e).search, Step(s, e).categoryFilter, Step(s, e).reviewFilter), Step(s, e).rowsPerPage)
    ensures Step(s, e).(page := s.page) == match e
      case ChangeRowsPerPage(n) => s.(rowsPerPage := n)
      case EditSearch(t) => s.(search := t)
      case PickCategory(c) => s.(categoryFilter := c)
      case PickReview(f) => s.(reviewFilter := f)
      case ChangePage(_) => s
  {
    var t := Step(s, e);
    FirstPage(Filtered(records, t.search, t.categoryFilter, t.reviewFilter), t.rowsPerPage);
  }

  /** A page change keeps the filters, the page size and the count. */
  lemma PageChangeKeepsList(records: seq<Record>, s: TableState, p: nat)
    ensures Step(s, ChangePage(p)).(page := s.page) == s
    ensures ViewOf(records, Step(s, ChangePage(p))).count == ViewOf(records, s).count
  {
  }

  /** Before any event the table lists every record, ten to a page. */
  lemma InitialView(records: seq<Record>)
    ensures ViewOf(records, Initial) == View(Take(records, DefaultRowsPerPage), |records|)
  {
    forall i | 0 <= i < |records|
      ensures Passes("", Str(""), "", records[i])
    {
      assert |Trim("")| == 0;
    }
    FilterAll(records, x => Passes("", Str(""), "", x));
  }

  /** The table as the component computes it from the query result. */
  function SalesTableView(rawData: Json, suffix: nat -> string, s: TableState): (v: View)
    ensures |v.rows| <= s.rowsPerPage
  {
    ViewOf(Dataset(rawData, suffix), s)
  }
}
