# Transaction dashboard: the query engine and its client-side rules

This project models the data path of a small sales dashboard. Four HTTP routes read the
`transactions` collection of a document store. Each route normalizes every document into a
`Transaction` record with default values, keeps the records of the selected month, and
reduces them:

- the listing route returns one page of records and the page count;
- the statistics route returns the total sale and the numbers of sold and unsold records;
- the price-range route returns a histogram of prices in buckets of 100;
- the category route returns how many records fall in each category.

On the client, the transaction table shows a date without its time, filters the fetched
page by a search text, and moves between pages with Previous and Next. The price-range
chart re-sorts the buckets by their lower bound and builds its label and data series.

The model is written in Dafny, one module per file:

| module | file | models |
|---|---|---|
| `Text` | text.dfy | the JavaScript string operations used: the decimal digits of a number, `padStart`, `split`, `join`, `includes`, ASCII `toLowerCase`, `parseInt(s, 10)` and `parseInt(s)` |
| `Seqs` | seqs.dfy | `filter`, counting, and the stable comparator sort of `Array.prototype.sort` |
| `Counters` | counters.dfy | an object used as a counter (`counts[k] += 1`), held as its properties in creation order, and the order `Object.keys` lists them in |
| `Records` | records.dfy | documents, the normalizer, the reduced normalizer, the month filter, the 500 reply |
| `Transactions` | transactions.dfy | the listing route: parameter defaults, `slice`, `Math.ceil` |
| `Statistics` | statistics.dfy | the statistics route and its accumulation loop |
| `BarChartApi` | barchart_api.dfy | the price-range route and its bucket counter |
| `PieChartApi` | piechart_api.dfy | the category route and its category counter |
| `TransactionTable` | transaction_table.dfy | `formatDate`, the search filter, the pager as a class |
| `BarChartView` | barchart_view.dfy | the bucket sort, the chart series and the chart title |

The store's answer is an input, `Option<seq<Document>>`, where None means the answer has no
`documents` array. Each document has `fields: Option<Fields>`, and each field holds the
typed value or None. The reducers that the source writes as `forEach` loops over mutable
accumulators are Dafny methods with `while` loops. Each is proved equal to a specification
function, and the properties are proved as lemmas about that function. The two counter
objects are sequences of `Entry(key, count)` that the loop reassigns.

Prices are natural numbers. A price whose text `parseFloat` cannot read is `Unparsable`,
and it adds nothing to sums and buckets. A query parameter that `parseInt` reads as NaN is
None in `Transactions.Params`. It flows through the arithmetic as NaN does: a NaN page or
limit gives an empty page, and a NaN or zero limit gives `totalPages: null`.

Where the code and its documentation differ, the model follows the code:

- The normalizer is described as total, but a document without a `fields` object makes
  `fields.itemId` throw. The surrounding `catch` then answers 500. `Records.NormalizeWith`
  therefore returns None in that case, and every route answers `InternalServerError`.
- Parameters that are not numbers are not replaced by their defaults. Only a missing or
  empty parameter is, because `||` applies to the raw text before `parseInt`.

## Model

| member | source | states |
|---|---|---|
| Text.PadStart | app/api/transactions/route.ts:70 | the result has length max(\|s\|, n), ends with `s` and is padded only with the pad character |
| Text.Split | app/api/transactions/route.ts:69 | no piece contains the separator; the first piece is a prefix and ends where the first separator is; there is one piece exactly when the separator is absent |
| Text.JoinSplit | app/api/transactions/route.ts:69 | joining the pieces of a split with the separator gives the string back |
| Text.SplitJoin | app/api/barChart/route.ts:51 | splitting the join of separator-free pieces gives the pieces back |
| Text.ContainsAt | app/components/TransactionTable.tsx:57-60 | `includes` holds exactly when the needle starts at some position of the haystack |
| Text.Lower | app/components/TransactionTable.tsx:57-59 | lower-casing keeps the length and maps each character to its lower-case form |
| Text.DigitsValueOfDecimal | app/api/barChart/route.ts:51 | reading back the decimal form of a number gives the number |
| Text.DecimalInjective | app/api/barChart/route.ts:51 | two numbers have the same decimal form exactly when they are equal |
| Text.ParseIntOfDigits | app/api/transactions/route.ts:32-34 | `parseInt` of a string of digits is the value of those digits |
| Text.ParseIntOfIntToString | app/api/transactions/route.ts:32-34 | `parseInt(String(i))` is `i` for every integer, negative ones included |
| Text.ParseInt | app/api/transactions/route.ts:32-34 | `parseInt(s, 10)` is NaN exactly when no digit follows the leading white space and at most one sign, and is non-negative without a `-` |
| Text.ParseIntAnyRadix | app/components/BarChart.tsx:116 | `parseInt(s)` with no radix agrees with `parseInt(s, 10)` on every text whose digits do not start with `0x` or `0X` |
| Text.ParseIntAnyRadixOfHex | app/components/BarChart.tsx:116 | `parseInt("0x" + h)` is the hexadecimal value of the digits `h` |
| Text.ParseIntAnyRadixOfIntToString | app/components/BarChart.tsx:116 | `parseInt(String(i))` with no radix is `i` for every integer |
| Seqs.FilterSpec | app/api/transactions/route.ts:68-71 | a filter result is a subsequence of the input, keeps exactly the elements that satisfy the predicate, and is as long as their number |
| Seqs.FilterIdempotent | app/api/transactions/route.ts:68-71 | filtering twice with the same predicate is filtering once |
| Seqs.FilterPartition | app/api/statistics/route.ts:79-87 | two complementary filters together hold every element exactly once |
| Seqs.SortBy | app/components/BarChart.tsx:46-50 | the sort result is sorted by the key and is a permutation of its input |
| Seqs.SortByStable | app/components/BarChart.tsx:46-50 | elements with equal keys keep their relative order |
| Counters.Bump | app/api/pieChart/route.ts:64 | one count adds 1 to the total and keeps the keys distinct; an existing property is incremented in place, and a new one is appended with count 1 |
| Counters.Tally | app/api/pieChart/route.ts:62-66 | counting a sequence gives distinct keys whose counts add up to its length |
| Counters.TallySpec | app/api/pieChart/route.ts:60-66 | the counter has a property for exactly the values that occur; each count is the number of occurrences, and at least 1 |
| Counters.TallyFirstOccurrenceOrder | app/api/barChart/route.ts:53-56 | properties are listed in the order of the first occurrence of their keys |
| Counters.TotalOfPermutation | app/api/pieChart/route.ts:68-71 | listing the properties in another order keeps the sum of the counts |
| Counters.DistinctKeysOfPermutation | app/api/pieChart/route.ts:68-71 | listing the properties in another order keeps the keys distinct |
| Counters.Enumerate | app/api/pieChart/route.ts:68 | the `Object.keys` listing is a permutation of the properties |
| Counters.EnumerateOrder | app/api/pieChart/route.ts:68 | array-index keys come first, in ascending numeric order, and the other keys follow in creation order |
| Counters.EnumerateNamed | app/api/barChart/route.ts:60 | with no array-index key, `Object.keys` lists the keys in creation order |
| Counters.EnumerateSpec | app/api/pieChart/route.ts:68-71 | the listing keeps every property and count, keeps the keys distinct, and keeps the total |
| Counters.Lookup | app/api/barChart/route.ts:53 | the property lookup finds the position of the key, or reports that there is no such property |
| Counters.Increment | app/api/barChart/route.ts:53-56 | looking up, creating at 0 and incrementing in place is one `Bump` |
| Records.NormalizeFields | app/api/transactions/route.ts:52-64 | every field takes the stored value if it is present and truthy, and otherwise `0`, `""` or `false`; price is a truthy `doubleValue`, else a truthy `integerValue`, else `0` |
| Records.NormalizeIdempotent | app/api/transactions/route.ts:54-63 | normalizing the document of an already normalized record gives that record back |
| Records.NormalizeWith | app/api/transactions/route.ts:52-64 | no `documents` gives the empty list; the result exists exactly when every document has fields, and is then the normalized documents in order |
| Records.NormalizePoint | app/api/barChart/route.ts:27-34 | the reduced normalizer is the full one restricted to `itemId`, `price` and `dateOfSale` |
| Records.MonthOf | app/api/transactions/route.ts:69 | the month piece exists exactly when the date part holds a `-`, and it holds neither `-` nor `T` |
| Records.MonthOfIsoDate | app/api/transactions/route.ts:69 | a date written `year-month-day`, with or without a `T` and a time after it, has `month` as its month piece |
| Records.MonthToken | app/api/transactions/route.ts:70 | `month.toString().padStart(2, '0')` is at least two characters; NaN gives "NaN"; a non-negative month gives digits that read back as the month |
| Records.MonthTokenOfCalendarMonth | app/api/transactions/route.ts:70 | for months 1 to 12 the padded token is two digits that read back as the month |
| Records.MonthTokenInjective | app/api/transactions/route.ts:70 | distinct calendar months have distinct tokens |
| Records.FilterMonth | app/api/transactions/route.ts:66-72 | month 13 returns the list unchanged; any other month keeps records of the list, each dated in that month, and keeps every record dated in it |
| Records.FilterMonthSpec | app/api/transactions/route.ts:67-72 | any other month keeps, in order, exactly the records whose month piece equals the token; a date with no `-` before its `T` is never kept |
| Records.FilterMonthIdempotent | app/api/transactions/route.ts:67-72 | the month filter applied twice equals the filter applied once |
| Records.Query | app/api/statistics/route.ts:52-72 | the records a route works on: none when the store has no documents, and the 500 reply exactly when the normalizer throws |
| Transactions.QueryParams | app/api/transactions/route.ts:32-34 | a given non-empty parameter is `parseInt(…, 10)` of its text; a missing or empty one gives month 13, page 1 and limit 10 |
| Transactions.QueryParamsOfIntegers | app/api/transactions/route.ts:32-34 | parameters written as integers are read back as those integers |
| Transactions.Slice | app/api/transactions/route.ts:76 | `slice` keeps only elements of the list; with bounds inside the list it is the run between them; with a non-negative end, an end not after the start gives nothing; a negative start, and a negative end, count from the end |
| Transactions.PageOf | app/api/transactions/route.ts:75-76 | a NaN page or limit gives the empty page; for a limit of at least 0 a page never holds more than `limit` records; on page 1 a negative limit drops that many records off the end; a page holds only records of the list |
| Transactions.PageOfSpec | app/api/transactions/route.ts:75-76 | for page and limit of at least 1, the page is the records from `(page-1)*limit` up to `min(n, page*limit)`; it holds at most `limit` records and is empty exactly when the start is past the end |
| Transactions.SliceLength | app/api/transactions/route.ts:76 | a slice `limit` wide holds at most `limit` records, even for a page number below 1 |
| Transactions.CeilDivBounds | app/api/transactions/route.ts:79 | `Math.ceil(n / limit)` is the least count of pages of size `limit` that holds `n` records |
| Transactions.TotalPages | app/api/transactions/route.ts:78-79 | `totalPages` is `null` exactly for a NaN or zero limit; with a limit of at least 1 it is a page count that holds every record, one page fewer does not, and it is 0 exactly when the list is empty; a negative limit gives at most 0 |
| Transactions.PageNonEmptyIff | app/api/transactions/route.ts:75-79 | for page and limit of at least 1, a page holds records exactly when its number is at most `totalPages` |
| Transactions.PagesPrefix | app/api/transactions/route.ts:75-76 | the first `k` pages together are the first `k * limit` records, or all of them |
| Transactions.PagesReconstruct | app/api/transactions/route.ts:75-79 | the pages `1..totalPages`, concatenated, give back the filtered list |
| Transactions.List | app/api/transactions/route.ts:52-84 | the route answers 500 exactly when normalization fails; otherwise the reply is the requested page of the month's records and `totalPages` of their number; no documents gives an empty page; for a limit of at least 1 a page never holds more than `limit` records; a page holds only filtered records |
| Statistics.Summarize | app/api/statistics/route.ts:74-88 | the loop computes the sale of the sold records and the counts of sold and unsold records, and these counts add up to the number of records; an empty list gives `{0, 0, 0}` |
| Statistics.SoldRevenueOfSold | app/api/statistics/route.ts:79-83 | the total sale is the price sum of the sold records alone |
| Statistics.UnparsableSoldRecord | app/api/statistics/route.ts:80-84 | a sold record whose price does not parse is counted as sold and adds nothing to the sale |
| Statistics.Summary | app/api/statistics/route.ts:52-97 | the route answers 500 exactly when normalization fails, and otherwise the statistics of the month's records; with month 13 these are the statistics of all records |
| BarChartApi.BucketStart | app/api/barChart/route.ts:49 | the bucket start is a multiple of 100 with `start <= p < start + 100` |
| BarChartApi.BucketStartUnique | app/api/barChart/route.ts:49 | exactly one bucket start holds each price |
| BarChartApi.RangeLabelSplit | app/api/barChart/route.ts:50-51 | a label splits on `-` into the decimal forms of `start` and `start + 99` |
| BarChartApi.RangeLabelInjective | app/api/barChart/route.ts:51 | distinct buckets have distinct labels |
| BarChartApi.RangeLabelNotIndex | app/api/barChart/route.ts:51 | a label is never an array index |
| BarChartApi.LabelKeys | app/api/barChart/route.ts:46-48 | one label is counted per record whose price parses |
| BarChartApi.OccurrencesOfLabel | app/api/barChart/route.ts:46-58 | a bucket's label is counted once for each record whose price falls in the bucket |
| BarChartApi.HistogramOf | app/api/barChart/route.ts:60-63 | the listed histogram holds the counter's entries, reordered by `Object.keys`, and its counts add up to the number of records whose price parses |
| BarChartApi.HistogramInCreationOrder | app/api/barChart/route.ts:60-63 | `Object.keys` lists the buckets in the order in which they were first met |
| BarChartApi.HistogramCounts | app/api/barChart/route.ts:53-63 | each bucket listed counts the records whose price falls in it, at least one |
| BarChartApi.HistogramSpec | app/api/barChart/route.ts:44-63 | a bucket is listed exactly when some record's price falls in it; labels are pairwise distinct; the counts add up to the number of records whose price parses |
| BarChartApi.ToPriceRanges | app/api/barChart/route.ts:60-63 | one `{ range, count }` object per listed key, in the listed order, with the key's count |
| BarChartApi.CountRanges | app/api/barChart/route.ts:44-58 | the loop leaves the counter of the labels of the numeric prices |
| BarChartApi.PriceRanges | app/api/barChart/route.ts:27-65 | the route answers 500 exactly when normalization fails, and otherwise the listed histogram of the month's records |
| PieChartApi.CategoryKeys | app/api/pieChart/route.ts:62-63 | one category is counted per record with a non-empty category |
| PieChartApi.OccurrencesOfCategory | app/api/pieChart/route.ts:63-64 | a non-empty category is counted once per record that has it, and the empty category never |
| PieChartApi.CategoriesOf | app/api/pieChart/route.ts:68-71 | the listed categories hold the counter's entries, reordered by `Object.keys`, and their counts add up to the number of records with a non-empty category |
| PieChartApi.CategoriesCounts | app/api/pieChart/route.ts:64-71 | each category listed is non-empty and counts the records that have it, at least one |
| PieChartApi.CategoriesSpec | app/api/pieChart/route.ts:60-71 | a category is listed exactly when it is non-empty and some record has it; categories are pairwise distinct; the counts add up to the number of records with a non-empty category |
| PieChartApi.CategoriesInCreationOrder | app/api/pieChart/route.ts:68 | when no category is an array index, the categories are listed in the order in which they were first met |
| PieChartApi.CountCategories | app/api/pieChart/route.ts:60-66 | the loop leaves the counter of the non-empty categories |
| PieChartApi.ToCategoryData | app/api/pieChart/route.ts:68-71 | one `{ category, count }` object per listed key, in the listed order, with the key's count |
| PieChartApi.Categories | app/api/pieChart/route.ts:38-73 | the route answers 500 exactly when normalization fails, and otherwise the listed category counts of the month's records; with month 13, of all records |
| Records.DatePart | app/components/TransactionTable.tsx:51-54 | the date part (shown by the table as `formatDate`, and read by the month filter) is the prefix before the first `T`, or the whole string when there is none, and holds no `T` |
| TransactionTable.Matches | app/components/TransactionTable.tsx:57-60 | the four-way match of a record; the empty search matches every record |
| TransactionTable.Search | app/components/TransactionTable.tsx:56-61 | the search keeps records of the page only, each matching, and keeps every matching record |
| TransactionTable.SearchSpec | app/components/TransactionTable.tsx:56-61 | the search keeps, in order, exactly the records whose lower-cased title, description or category contains the lower-cased search, or whose price text contains the search |
| TransactionTable.TitleMatch | app/components/TransactionTable.tsx:57 | a search that occurs in the title, in any case, keeps the record |
| TransactionTable.SearchEmpty | app/components/TransactionTable.tsx:56-61 | the empty search keeps every record |
| TransactionTable.Pager.constructor | app/components/TransactionTable.tsx:21-24 | the pager starts on page 1 of 1 |
| TransactionTable.Pager.Previous | app/components/TransactionTable.tsx:117-123 | Previous does nothing when `page <= 1` and otherwise goes back exactly one page; the page stays at least 1 |
| TransactionTable.Pager.Next | app/components/TransactionTable.tsx:124-130 | Next does nothing when `page >= totalPages` and otherwise goes forward exactly one page |
| TransactionTable.Pager.Loaded | app/components/TransactionTable.tsx:39 | a reply sets `totalPages` and keeps the page |
| TransactionTable.Pager.RequestFor | app/components/TransactionTable.tsx:31-37 | the route reads the table's request back as the current page, 10 records per page and the selected month |
| TransactionTable.NextEnabledIffMoreRecords | app/components/TransactionTable.tsx:126 | with the reply's `totalPages`, Next is enabled exactly when the next page holds records |
| BarChartView.SortRanges | app/components/BarChart.tsx:46-50 | the sorted copy is a permutation of the buckets, non-decreasing by lower bound, and stable |
| BarChartView.LeadingNumber | app/components/BarChart.tsx:47-48 | a label whose part before the first `-` is a non-empty run of digits sorts by the value of those digits; an empty part gives NaN |
| BarChartView.Chart | app/components/BarChart.tsx:40-58 | there is no chart exactly when there are no buckets; labels and data have one entry per bucket, taken from the same sorted bucket |
| BarChartView.HistogramChartOrder | app/components/BarChart.tsx:46-53 | the route's buckets are sortable, and once sorted their lower bounds strictly increase |
| BarChartView.Title | app/components/BarChart.tsx:116 | with the month read by `parseInt` without a radix, the heading shows "All Months" exactly for 13, the month's name for 1 to 12, and nothing otherwise |
| BarChartView.TitleOfSelection | app/page.tsx:29-33 | each option of the month selector shows its own month's name, and the last one "All Months" |
| BarChartView.TitleOfHexadecimal | app/components/BarChart.tsx:116 | without a radix, "0xC" shows "December" and "0xD" shows "All Months" |

## Left out

- Network I/O is not modelled: the store fetch, the `response.ok` check and the error JSON. The store's answer is an input, and the 500 reply stands for any thrown error.
- The `orderBy: 'itemId'` query is not modelled. The store orders the documents, and the model takes their order as given.
- Prices are whole numbers. Sums of doubles, `Math.floor` of fractions, the text of fractional prices and `toFixed` are left out, and negative prices are not represented. A price is written as its decimal digits (`Text.Decimal`), so the exponent form that `String(n)` uses from 10^21 on, and the rounding of `start + 99` above 2^53, are not modelled.
- The store's REST form encodes `integerValue` as a string. The model reads it as the number it spells, so `itemId` is an integer.
- `parseInt` of more digits than a double holds exactly is read as the exact integer.
- Case folding and white space are ASCII only. Full Unicode `toLowerCase` and the Unicode white space that `parseInt` skips are left out.
- Counter keys that name an inherited `Object.prototype` property (such as "constructor") are not modelled. For such a key, the source's `counts[key] || 0` reads the inherited value.
- BarChartView.SortRanges: requires every bucket's lower bound to parse. The comparator returns NaN otherwise, and the order is then left to the engine.
- BarChartApi.CountRanges and PieChartApi.CountCategories: the counter object is a sequence that the loop reassigns, not an object shared by reference.
- Counters.Increment: the category route writes `counts[k] = (counts[k] || 0) + 1` in one statement, and the model uses the same look-up-create-increment method.
- TransactionTable.Pager: React state updates are applied immediately. Re-rendering, effects, the loading flag and the fetch are not modelled. `totalPages` is taken as a number.
- UI, chart drawing, configuration and other routes are not modelled: React rendering, Chart.js, app/layout.tsx, app/components/PieChart.tsx, app/components/StatsBox.tsx, next.config.ts, and the seeding, SDK set-up and fan-out routes (app/api/initialize/route.ts, app/firebaseAdmin.ts, app/api/combinedAPI/route.ts).
- The chart never modifies the fetched buckets: `SortRanges` takes a sequence value and returns a new one, so the model states this by construction rather than in a lemma.
