# Sales dashboard: normalisation, chart aggregation, table filtering and upload check

This project is a Dafny model of the data path of a React sales dashboard.
Rows come from a sales API in many shapes: snake_case or camelCase keys, numbers
given as numbers or as text, missing fields.

- `normalizeRow` / `normalizeSalesData` bring each row to one canonical record.
- Four charts aggregate the records:
  - products per category (top 15);
  - average rating per category, rounded to two decimals (top 12);
  - a histogram of discounts in 10-point buckets, capped at 60;
  - the ten most reviewed products, with long names shortened.
- The sales table derives a sorted category menu and applies a search filter, a
  category filter and a review filter. It paginates the result and goes back to
  the first page whenever a filter or the page size changes.
- The upload control checks a chosen file's name and size before sending it.

The JavaScript values these functions see are modelled by the `Json` datatype
(`JsValue`). The built-ins they rely on are written out in `JsText`:

- truthiness and `??`;
- `String(v)`, `parseInt`, `parseFloat`, `trim`, ASCII `toLowerCase`;
- `includes`, `endsWith`, `split(sep)[0]`;
- the default `sort` order.

Grouping with an object used as a map (`forEach` then `Object.entries`) is one
left fold, `Grouping.Accumulate`. Its partner is a reference definition: for
every distinct key, in first-occurrence order, the values under that key.
`Array.prototype.sort` with a numeric comparator is a stable insertion sort,
`StableSort.Sort`.

Modules:

- `Options`: optional values.
- `JsValue`: JS values, truthiness, property access, `String(v)`.
- `JsText`: the string and number built-ins.
- `Seqs`: filter, slice, dedup, map and sum on sequences.
- `StableSort`: the stable sort and `TopN` (sort then `slice(0, n)`).
- `Grouping`: the fold behind the `byCategory` / `buckets` objects.
- `DataNormalizer`: `dataNormalizer.js`.
- `ChartInput`: what every chart and the table do before their own work.
- `ProductsPerCategory`, `CategoryAverageRating`, `DiscountDistribution` and
  `TopReviewedProducts`: the four charts.
- `SalesTable`: the table.
- `FileUpload`: `validateFile`.

## Model

| member | source | states |
|---|---|---|
| DataNormalizer.Get | frontenddashboard/src/utils/dataNormalizer.js:7-12 | the result is `undefined` exactly when no alias holds a value other than `undefined`, `null` or `''`; otherwise it is the value under the first alias that does |
| DataNormalizer.GetFirstMatch | frontenddashboard/src/utils/dataNormalizer.js:8-10 | when alias `i` is the first to hold a present value, `get` returns that alias's value |
| DataNormalizer.FirstPresentUnique | frontenddashboard/src/utils/dataNormalizer.js:8-10 | there is only one first alias holding a present value |
| DataNormalizer.ToFloat | frontenddashboard/src/utils/dataNormalizer.js:18 | a number is kept; text goes through `parseFloat`, and so does an array, through its comma-joined text (`["4"]` reads as 4); `undefined`, `null`, NaN, booleans and plain objects give NaN (`None`) |
| DataNormalizer.ToInt | frontenddashboard/src/utils/dataNormalizer.js:19 | a number is kept; text goes through `parseInt(_, 10)`, and so does an array, through its comma-joined text; `undefined`, `null`, NaN, booleans and plain objects give NaN (`None`); a count read from text is a whole number |
| DataNormalizer.NotNumericText | frontenddashboard/src/utils/dataNormalizer.js:18-20 | `undefined`, `null`, booleans and objects become NaN under both coercions, which the record keeps as `null` |
| DataNormalizer.GetOrPlaceholder | frontenddashboard/src/utils/dataNormalizer.js:23-24 | the value is the first present alias value, or the placeholder `—` when there is none; either way it is present |
| DataNormalizer.NormalizeRow | frontenddashboard/src/utils/dataNormalizer.js:5-30 | a record is produced exactly for objects and arrays (`null` and primitives give `null`); it keeps the row as `raw`, has a non-nullish id, and takes its name and category from the first present alias or `—` |
| DataNormalizer.NormalizeRowId | frontenddashboard/src/utils/dataNormalizer.js:22 | a `row.id` that is neither `null` nor `undefined` is kept as it is, even when empty; otherwise the id is built from the name and category as `get` returned them, before the placeholder, followed by the random suffix |
| DataNormalizer.NormalizeRowNumbers | frontenddashboard/src/utils/dataNormalizer.js:15-27 | rating and discount are the `parseFloat` coercion of the first present alias, the review count its `parseInt` coercion, each NaN turned into `null` |
| DataNormalizer.NormalizeIsIdempotent | frontenddashboard/src/utils/dataNormalizer.js:5-30 | normalizing the object form of a normalized record gives back the same id, name, category, rating, review count and discount |
| DataNormalizer.AsRowNames | frontenddashboard/src/utils/dataNormalizer.js:13-22 | in a normalized record's object form, `id`, `productName` and `category` are found under the keys `get` reads |
| DataNormalizer.AsRowNumbers | frontenddashboard/src/utils/dataNormalizer.js:15-17 | in that object form each number sits under exactly one alias and every other alias is `undefined` |
| DataNormalizer.NumberFieldRoundTrip | frontenddashboard/src/utils/dataNormalizer.js:18-27 | a number or `null` stored under one alias reads back as itself under both coercions |
| DataNormalizer.BareRowId | frontenddashboard/src/utils/dataNormalizer.js:22-24 | an object with no id, name or category gets both placeholders and the id `undefined-undefined-` plus the suffix, because the id is built from the unresolved values |
| DataNormalizer.NormalizeSalesData | frontenddashboard/src/utils/dataNormalizer.js:32-35 | a non-array gives `[]`; for an array the records' `raw` fields are exactly its object-like elements in order, each record the normalization of its element |
| ChartInput.Unpack | frontenddashboard/src/components/charts/ProductsPerCategoryChart.jsx:17 | an array is used as is; otherwise its `data` field whenever that is neither `null` nor `undefined`, and `[]` when it is |
| ChartInput.DatasetRows | frontenddashboard/src/components/SalesTable.jsx:32 | the records come from the array itself or from its `data` field, one per object-like element; anything else gives no records |
| ChartInput.MissingCategoryKey | frontenddashboard/src/components/charts/ProductsPerCategoryChart.jsx:20 | a row without a category is grouped under the placeholder `—`, not under `Unknown` |
| ChartInput.ZeroCategoryKey | frontenddashboard/src/components/charts/ProductsPerCategoryChart.jsx:20 | a row whose category is the number 0 is grouped under `Unknown` |
| ProductsPerCategory.ReferenceBars | frontenddashboard/src/components/charts/ProductsPerCategoryChart.jsx:18-24 | one bar per distinct category key, in first-occurrence order, counting the records with that key |
| ProductsPerCategory.CountingMatchesReference | frontenddashboard/src/components/charts/ProductsPerCategoryChart.jsx:18-24 | counting with the `byCategory` object gives exactly the reference bars |
| ProductsPerCategory.CountByCategory | frontenddashboard/src/components/charts/ProductsPerCategoryChart.jsx:18-26 | the chart is the 15 highest reference bars, stably sorted by count |
| ProductsPerCategory.ReferenceBarsFacts | frontenddashboard/src/components/charts/ProductsPerCategoryChart.jsx:18-24 | bar names are distinct and each bar counts its own key |
| ProductsPerCategory.CountByCategoryFacts | frontenddashboard/src/components/charts/ProductsPerCategoryChart.jsx:23-26 | at most 15 bars, in descending count, names distinct, each counting its key; bars with equal counts keep their first-occurrence order |
| ProductsPerCategory.CountsSumToRecords | frontenddashboard/src/components/charts/ProductsPerCategoryChart.jsx:18-26 | with at most 15 categories the counts add up to the number of records, and every record's category has a bar |
| ProductsPerCategory.ProductsPerCategoryChart | frontenddashboard/src/components/charts/ProductsPerCategoryChart.jsx:16-27 | the chart's data from the query result is the top 15 of the reference bars of its records |
| CategoryAverageRating.Round2 | frontenddashboard/src/components/charts/CategoryAverageRatingChart.jsx:28-29 | `parseFloat(x.toFixed(2))` is a whole number of hundredths within half a hundredth of `x`, and is not negative when `x` is not |
| CategoryAverageRating.Round2OfCents | frontenddashboard/src/components/charts/CategoryAverageRatingChart.jsx:28-29 | a value that is already a whole number of hundredths is unchanged |
| CategoryAverageRating.Round2Idempotent | frontenddashboard/src/components/charts/CategoryAverageRatingChart.jsx:28-29 | rounding twice is rounding once |
| CategoryAverageRating.RatedPairKeys | frontenddashboard/src/components/charts/CategoryAverageRatingChart.jsx:19-21 | only records whose rating is not `null` are grouped, under their category key |
| CategoryAverageRating.GroupValuesAreRatings | frontenddashboard/src/components/charts/CategoryAverageRatingChart.jsx:21-25 | the values added up under a key are the ratings of the rated records with that key, in order |
| CategoryAverageRating.ReferenceAverages | frontenddashboard/src/components/charts/CategoryAverageRatingChart.jsx:18-29 | one bar per distinct key of a rated record, holding the rounded mean of that key's ratings |
| CategoryAverageRating.AveragingMatchesReference | frontenddashboard/src/components/charts/CategoryAverageRatingChart.jsx:18-29 | the sum-and-count object, then `toFixed(2)` and `parseFloat`, gives exactly the reference bars |
| CategoryAverageRating.AverageRatingByCategory | frontenddashboard/src/components/charts/CategoryAverageRatingChart.jsx:18-31 | the chart is the 12 highest reference averages, stably sorted |
| CategoryAverageRating.RatedKeyHasRatings | frontenddashboard/src/components/charts/CategoryAverageRatingChart.jsx:22-28 | every grouped key has at least one rating, so the `count ? … : 0` fallback never applies |
| CategoryAverageRating.AverageRatingFacts | frontenddashboard/src/components/charts/CategoryAverageRatingChart.jsx:27-31 | at most 12 bars, in descending average, names distinct, each the rounded mean of its key's ratings; ties keep their order |
| CategoryAverageRating.AverageWithinRatings | frontenddashboard/src/components/charts/CategoryAverageRatingChart.jsx:23-29 | when every rating of a category lies in `[lo, hi]`, so does the mean, and the bar lies within half a hundredth of that range |
| CategoryAverageRating.BarWithinRatings | frontenddashboard/src/components/charts/CategoryAverageRatingChart.jsx:23-29 | the same bound for any bar that averages its key |
| DiscountDistribution.BucketStart | frontenddashboard/src/components/charts/DiscountDistributionChart.jsx:27 | the bucket is a multiple of 10 and at most 60; below 70 it is the multiple of 10 at or below the discount; from 60 up it is 60 |
| DiscountDistribution.BucketExamples | frontenddashboard/src/components/charts/DiscountDistributionChart.jsx:27 | 65 goes to 60, 9.9 to 0, 10 to 10, 250 to 60 and -5 to -10 |
| DiscountDistribution.LabelRoundTripAsWritten | frontenddashboard/src/components/charts/DiscountDistributionChart.jsx:28-35 | for a bucket of 0 or more, `parseInt(range.split('-')[0], 10)` reads back the bucket from its label |
| DiscountDistribution.NegativeBucketMinIsNaN | frontenddashboard/src/components/charts/DiscountDistributionChart.jsx:28-35 | for a negative bucket the label starts with `-`, its first `-`-separated part is empty, and the min as written is NaN |
| DiscountDistribution.LabelRoundTrip | frontenddashboard/src/components/charts/DiscountDistributionChart.jsx:28-35 | the sign-aware reading gives back every bucket, negative or not, from its label |
| DiscountDistribution.LabelInjective | frontenddashboard/src/components/charts/DiscountDistributionChart.jsx:28 | different buckets have different labels, so counting per label is counting per bucket |
| DiscountDistribution.Discounts | frontenddashboard/src/components/charts/DiscountDistributionChart.jsx:22-24 | the discounts are the non-null discounts of the records, one per record that has one, in record order |
| DiscountDistribution.LabelPairs | frontenddashboard/src/components/charts/DiscountDistributionChart.jsx:26-29 | each discount is counted under the label of its bucket |
| DiscountDistribution.ReferenceBars | frontenddashboard/src/components/charts/DiscountDistributionChart.jsx:25-36 | one bar per distinct bucket in first-occurrence order, with its label, the number of discounts in it and its start |
| DiscountDistribution.BucketingMatchesReference | frontenddashboard/src/components/charts/DiscountDistributionChart.jsx:25-36 | counting with the `buckets` object and reading back each min gives exactly the reference bars |
| DiscountDistribution.DiscountHistogram | frontenddashboard/src/components/charts/DiscountDistributionChart.jsx:25-37 | the histogram is the reference bars sorted by min |
| DiscountDistribution.ReferenceBarsFacts | frontenddashboard/src/components/charts/DiscountDistributionChart.jsx:25-36 | bucket starts are distinct, each bar counts its bucket, and the counts add up to the number of discounts |
| DiscountDistribution.HistogramFacts | frontenddashboard/src/components/charts/DiscountDistributionChart.jsx:31-37 | bars are in strictly ascending min, each counts the discounts in its bucket, and the counts add up to the number of discounts |
| DiscountDistribution.AsWrittenAgreesWithoutNegatives | frontenddashboard/src/components/charts/DiscountDistributionChart.jsx:27-37 | with no negative discount, the source's own `parseInt(range.split('-')[0], 10)` gives every bar's min, so the histogram is what the component as written shows |
| DiscountDistribution.StrictlyAscending | frontenddashboard/src/components/charts/DiscountDistributionChart.jsx:37 | sorted by min with distinct mins means strictly ascending |
| DiscountDistribution.EveryDiscountHasABar | frontenddashboard/src/components/charts/DiscountDistributionChart.jsx:26-37 | every discount's bucket appears in the histogram |
| DiscountDistribution.DiscountChart | frontenddashboard/src/components/charts/DiscountDistributionChart.jsx:20-38 | the chart's data from the query result is the sorted reference histogram of its records' discounts |
| TopReviewedProducts.Truncate | frontenddashboard/src/components/charts/TopReviewedProductsChart.jsx:23 | a string longer than 20 becomes its first 20 characters plus `…`; an array longer than 20 becomes the text of its first 20 elements plus `…`; other values are kept; an object with a numeric `length` above 20 throws (`None`) |
| TopReviewedProducts.TruncateString | frontenddashboard/src/components/charts/TopReviewedProductsChart.jsx:23 | a name of at most 20 characters is kept; a longer one becomes its first 20 characters followed by `…`, 21 in all |
| TopReviewedProducts.TruncateIdempotent | frontenddashboard/src/components/charts/TopReviewedProductsChart.jsx:23 | shortening a shortened name changes nothing |
| TopReviewedProducts.TopRecords | frontenddashboard/src/components/charts/TopReviewedProductsChart.jsx:19-21 | at most 10 records, all from the input and with a positive review count, in descending review count; none more often than it occurs among the reviewed records; records with equal counts ranked in input order |
| TopReviewedProducts.TopReviewed | frontenddashboard/src/components/charts/TopReviewedProductsChart.jsx:18-25 | one bar per ranked record, or an exception when a ranked name cannot be shortened |
| TopReviewedProducts.TopReviewedBars | frontenddashboard/src/components/charts/TopReviewedProductsChart.jsx:22-25 | bar `i` holds the positive review count of the record at rank `i` and its shortened name |
| TopReviewedProducts.TopReviewedFacts | frontenddashboard/src/components/charts/TopReviewedProductsChart.jsx:18-25 | at most 10 bars, in descending reviews, each the count and the shortened name of some input record; bar `i` shows ranked record `i`, and ties are ranked in input order, so the earliest of several records sharing the tenth count are shown |
| TopReviewedProducts.LeftOutHaveFewerReviews | frontenddashboard/src/components/charts/TopReviewedProductsChart.jsx:20-21 | a reviewed record left out means ten were ranked, and it has no more reviews than the tenth |
| TopReviewedProducts.AllShownWhenFew | frontenddashboard/src/components/charts/TopReviewedProductsChart.jsx:19-21 | with at most ten reviewed records, every one of them is ranked |
| TopReviewedProducts.UnreviewedNeverShown | frontenddashboard/src/components/charts/TopReviewedProductsChart.jsx:19 | a record with a `null`, zero or negative count is never ranked |
| TopReviewedProducts.NoReviewsNoBars | frontenddashboard/src/components/charts/TopReviewedProductsChart.jsx:19-25 | with no reviewed record the chart is empty |
| TopReviewedProducts.TopReviewedChart | frontenddashboard/src/components/charts/TopReviewedProductsChart.jsx:16-26 | the chart's data from the query result has at most ten bars |
| SalesTable.SortByText | frontenddashboard/src/components/SalesTable.jsx:36 | the default sort orders by text, character by character (by code point), keeps every element and keeps distinct elements distinct |
| SalesTable.SortByTextStable | frontenddashboard/src/components/SalesTable.jsx:36 | the sort is stable: elements with the same text keep their input order |
| SalesTable.CategoriesStable | frontenddashboard/src/components/SalesTable.jsx:34-37 | distinct categories with the same text, such as the number 5 and the string "5", appear in the menu in first-met order |
| SalesTable.Categories | frontenddashboard/src/components/SalesTable.jsx:34-37 | the menu is sorted by text and has no duplicates |
| SalesTable.CategoriesMembership | frontenddashboard/src/components/SalesTable.jsx:34-37 | a value is in the menu exactly when it is truthy and some record has it as category |
| SalesTable.BySearch | frontenddashboard/src/components/SalesTable.jsx:41-44 | a blank search keeps every row; otherwise the rows whose lower-cased name contains the trimmed, lower-cased search |
| SalesTable.ByCategory | frontenddashboard/src/components/SalesTable.jsx:45-47 | a falsy category filter keeps every row; otherwise the rows whose category is strictly equal to it |
| SalesTable.ByReview | frontenddashboard/src/components/SalesTable.jsx:48-52 | `has_reviews` keeps positive counts, `no_reviews` keeps `null` and zero, anything else keeps every row |
| SalesTable.Filtered | frontenddashboard/src/components/SalesTable.jsx:39-54 | the three filters one after the other keep exactly the rows that pass all three, in their original order |
| SalesTable.FilteredMembership | frontenddashboard/src/components/SalesTable.jsx:39-54 | a row is listed exactly when it is a record and passes all three filters |
| SalesTable.ReviewFiltersSplit | frontenddashboard/src/components/SalesTable.jsx:48-52 | no row passes both review filters; a `null` or non-negative count passes exactly one; a negative count passes neither |
| SalesTable.ReviewFilterCounts | frontenddashboard/src/components/SalesTable.jsx:39-54 | the two review filters together list at most the rows of "All", and exactly that many when no count is negative |
| SalesTable.SearchFindsOwnName | frontenddashboard/src/components/SalesTable.jsx:41-44 | searching for a product's own name finds it |
| SalesTable.CategoryFilterKeepsCategory | frontenddashboard/src/components/SalesTable.jsx:45-47 | picking a category from the menu lists only rows of that category |
| SalesTable.Page | frontenddashboard/src/components/SalesTable.jsx:56-59 | a page has at most `rowsPerPage` rows, and is empty exactly when the page size is 0 or the page starts past the list |
| SalesTable.PageContents | frontenddashboard/src/components/SalesTable.jsx:56-59 | row `i` of page `page` is row `page * n + i` of the list, and the page holds `n` rows or as many as remain after `page * n` |
| SalesTable.PageRow | frontenddashboard/src/components/SalesTable.jsx:56-59 | row `j` of the list is row `j % n` of page `j / n` |
| SalesTable.PageCount | frontenddashboard/src/components/SalesTable.jsx:168 | the least number of pages of size `n` that hold `count` rows |
| SalesTable.PagesUpToPrefix | frontenddashboard/src/components/SalesTable.jsx:56-59 | the first `k` pages one after the other are the first `k * n` rows |
| SalesTable.PagesCoverList | frontenddashboard/src/components/SalesTable.jsx:56-59 | reading every page in turn gives back the whole filtered list, each row once |
| SalesTable.ViewOf | frontenddashboard/src/components/SalesTable.jsx:56-168 | the table shows page `page` of the filtered list: row `i` is filtered row `page * rowsPerPage + i`, and there are `rowsPerPage` rows or as many as remain (none past the end); its count is the length of the filtered list |
| SalesTable.ControlsResetPage | frontenddashboard/src/components/SalesTable.jsx:62-125 | every control except the page control sets the page back to 0, so the table shows the first rows of the new list, and changes nothing else |
| SalesTable.PageChangeKeepsList | frontenddashboard/src/components/SalesTable.jsx:61 | a page change keeps the filters, the page size and the count |
| SalesTable.InitialView | frontenddashboard/src/components/SalesTable.jsx:26-30 | before any event the table lists every record, the first ten on the page |
| SalesTable.SalesTableView | frontenddashboard/src/components/SalesTable.jsx:32-59 | the table from the query result shows at most `rowsPerPage` rows |
| FileUpload.ValidateFile | frontenddashboard/src/components/FileUpload.jsx:31-50 | a file passes exactly when one is chosen, its lower-cased name ends with `.csv`, `.xlsx` or `.xls`, and it is at most 10 MB; the message is empty exactly when it passes, and otherwise names the first failing check |
| FileUpload.SizeLimit | frontenddashboard/src/components/FileUpload.jsx:24-46 | the limit is 10485760 bytes and the message says `File size must be under 10 MB.` |
| FileUpload.SizeBoundary | frontenddashboard/src/components/FileUpload.jsx:45 | a file of exactly the limit passes; one byte more does not |
| FileUpload.TypeCheckedBeforeSize | frontenddashboard/src/components/FileUpload.jsx:41-48 | a wrongly named file gets the type message whatever its size |
| FileUpload.CaseInsensitive | frontenddashboard/src/components/FileUpload.jsx:37-40 | the verdict does not depend on the case of the name |
| FileUpload.UpperCaseCsvAccepted | frontenddashboard/src/components/FileUpload.jsx:37 | `Q1.CSV` passes |
| FileUpload.InnerExtensionRefused | frontenddashboard/src/components/FileUpload.jsx:37-44 | `a.csv.txt` is refused for its type |
| FileUpload.LastLetterDecides | frontenddashboard/src/components/FileUpload.jsx:37-40 | a name whose last letter is not `v`, `x` or `s` in either case is refused |
| FileUpload.NothingChosenRefused | frontenddashboard/src/components/FileUpload.jsx:33-36 | with no file the check fails with `Please select a file.` |
| StableSort.Sort | frontenddashboard/src/components/charts/ProductsPerCategoryChart.jsx:25 | `sort((a, b) => key(b) - key(a))` returns a permutation of its input in descending key |
| StableSort.SortIsStable | frontenddashboard/src/components/charts/ProductsPerCategoryChart.jsx:25 | elements with equal keys keep their input order |
| StableSort.TopN | frontenddashboard/src/components/charts/ProductsPerCategoryChart.jsx:25-26 | sort then `slice(0, n)`: the `min(n, length)` elements in descending key, taken from the input, and for each key a prefix of the input's elements with that key |
| StableSort.TopNLeavesOutSmaller | frontenddashboard/src/components/charts/TopReviewedProductsChart.jsx:20-21 | an element left out means `n` were kept, and it has no larger key than the last one kept |
| Grouping.Accumulate | frontenddashboard/src/components/charts/ProductsPerCategoryChart.jsx:18-22 | the object's keys are the distinct keys in first-insertion order; each key holds the number and the sum of the values seen under it; the counts add up to the number of values |
| JsText.Trim | frontenddashboard/src/components/SalesTable.jsx:41-42 | `trim()` is a window of the text with no white space at either end, and is empty exactly when the text is all white space |
| JsText.Includes | frontenddashboard/src/components/SalesTable.jsx:43 | `includes` holds exactly when the needle occurs at some position |
| JsText.BeforeFirst | frontenddashboard/src/components/charts/DiscountDistributionChart.jsx:35 | `split(sep)[0]` is the longest prefix without `sep` |
| JsText.ParseIntOfIntText | frontenddashboard/src/components/charts/DiscountDistributionChart.jsx:35 | `parseInt` reads back the decimal text of any integer when a non-digit follows it |
| JsText.ParseFloatOfIntText | frontenddashboard/src/utils/dataNormalizer.js:18 | `parseFloat` reads back the decimal text of any integer |
| JsText.ParseRejectsNonNumericStart | frontenddashboard/src/utils/dataNormalizer.js:18-27 | text starting with a character that cannot begin a number gives NaN under `parseInt`, and under `parseFloat` too except for text starting `Infinity` (see Left out) |

## Left out

- React rendering, the MUI components, the loading and error states, the query and upload hooks (`useGetSalesQuery`, `useUploadFileMutation`), `handleChange`, the store, `App.jsx` and `ChartsSection.jsx` are not modelled. They are UI and I/O.
- `ACCEPTED_TYPES` in `FileUpload.jsx` is not modelled: `validateFile` never reads it.
- `Math.random().toString(36).slice(2)` in the synthesised id is a parameter `suffix`, indexed by the row's position.
- Numbers are exact reals. `Infinity`, `-0`, exponent notation in `String(n)` and values of `1e21` or more are not modelled. `String(n)` of a fraction is its exact terminating decimal, cut at 20 digits.
- JsText.ParseRejectsNonNumericStart: its `parseFloat` clause also covers text starting `Infinity`, which JS `parseFloat` reads as Infinity and this model reads as NaN. So a row with `rating: "Infinity"` or `discount: "Infinity"` gets `null` from `DataNormalizer.ToFloat` here, where the source keeps Infinity.
- Round2: does not pin down the double-precision rounding of `toFixed(2)`. It states only that the result is a whole number of hundredths within half a hundredth of the input, which a tie may round either way.
- `toLowerCase` is ASCII-only, and string lengths count characters, not UTF-16 code units.
- SalesTable.SortByText: compares texts by code point, where JS `sort()` compares UTF-16 code units. The two orders differ only between a character above U+FFFF and one in U+E000 to U+FFFF; for example, U+FF01 sorts before U+1F600 here and after it in JS.
- Object identity is not modelled. `new Set` and `===` compare objects and arrays structurally here, whereas JS compares them by reference.
- Category names equal to `Object.prototype` members (`constructor`, `__proto__`) are not modelled. The grouping objects treat every key as an own key.
- `Object.entries` lists integer-like keys first, in ascending order. Here every key keeps its insertion order, which changes the order only for categories such as `"7"`.
- TopReviewedProducts.Truncate: an object whose `length` is not a number but converts to one above 20 (such as the text `"25"`) is kept, where the source would throw.
- The as-written histogram sort is not modelled: with a negative discount its comparator returns NaN and the resulting order is up to the engine. The histogram uses the corrected minimum (see Findings).
- `handleChangeRowsPerPage` is not modelled as `parseInt`: the page size is a natural number. The menu only offers 5, 10, 25 and 50.
- TopReviewedProducts.TopReviewedChart: states only the bound of ten bars. Its full meaning is `TopReviewed` of the unpacked records, whose facts are stated there.
- SalesTable.SalesTableView: states only the page bound. Its full meaning is `ViewOf` of the unpacked records, whose facts are stated there.

## Findings

| source | as written | input that shows it | evidently intended | confidence | as-written member | corrected member |
|---|---|---|---|---|---|---|
| frontenddashboard/src/components/charts/DiscountDistributionChart.jsx:35 | `min: parseInt(range.split('-')[0], 10)` reads the bucket back from its label | a discount of -5 gets the bucket -10 and the label `-10-0`; its first part is the empty text, so `min` is NaN and the ascending sort compares with NaN | `min` is the bucket start, -10 | not executed | DiscountDistribution.NegativeBucketMinIsNaN | DiscountDistribution.LabelRoundTrip |
