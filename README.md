# sales-api: the sales reporting pipeline in Dafny

This project models the reporting pipeline of the sales-api Django service and proves properties of it.

- **Catalogue and ledger.** Products, and sales records with their validators and the product snapshot a record captures on its first save.
- **Aggregation.** The query that groups sales by month or by product category and reports, per group, the total amount and the mean unit price.
- **Filters.** The filters of both list endpoints: a start and an end date read on the request's calendar, converted to UTC at the start or end of the day, and a case-insensitive category match.
- **Listings.** The paginated records list, newest sale first.
- **Cache.** Both list endpoints read through a shared cache for twenty minutes. A signal handler evicts their cached pages after every save and delete of a sales record.
- **Serialization.** The JSON shapes: `'YYYY-MM'` groups and decimals with two places.

Units and representation:

- Amounts and prices are integers in units of 0.0001, the four decimal places of the columns.
- Average unit prices are exact `real`s in the same units.
- Instants are integers counting microseconds since 1970-01-01T00:00Z.
- The active time zone is given by its offset from UTC, in microseconds east.
- Querysets are sequences of stored rows.
- Model instances whose fields `save()` and `delete()` change are a class (`SalesRecords.SalesRecord`).
- The shared cache is a class over a map (`ResponseCache.Cache`).

Modules, one per source file of the core:

- `Products`: sales/apps/products/models.py
- `SalesRecords`: the fields, `save` and `__str__` of sales/apps/sales/models.py
- `SalesAggregation`: the aggregation queries of sales/apps/sales/models.py
- `SalesFilters`: sales/apps/sales/api/filters.py
- `Helpers`: sales/utils/helpers.py
- `Signals`: sales/apps/sales/signals.py
- `SalesViews`: sales/apps/sales/api/views.py
- `SalesSerializers`: sales/apps/sales/api/serializers.py

Shared support modules:

- `Wrappers`: Option and Result
- `Text`: substrings, ASCII case folding, decimal digits
- `Decimals`: fixed-point text and half-even rounding
- `Calendar`: the proleptic Gregorian calendar, as days from 1970-01-01
- `ResponseCache`: the cache store and Redis glob patterns

The aggregation is proved against an independent reference:

- `Accumulate` folds the rows into a strictly sorted list of groups.
- `Reference` computes each group directly from its members, the eligible rows with that key (`Members`).
- `AccumulateSpec` proves the two agree for every key.

Where the code and the project's design notes disagree, the model follows the code:

- **Date conversion can fail.** The design notes say that converting a date to UTC has no error conditions. In the code, `localtime` raises `OverflowError` when the UTC instant leaves years 1 to 9999, for example 0001-01-01 in a zone east of UTC. `Helpers.ConvertDateToUtc` returns that error, and a listing that meets it fails (`SalesFilters.ConversionFailed`).
- **Months are read in the active zone.** The design notes say the month key truncates to a month in UTC. `TruncMonth` under time-zone support truncates in the current time zone, so the month key reads the date of sale on that zone's wall clock.

## Model

| member | source | states |
|---|---|---|
| Products.NewProduct | sales/apps/products/models.py:14-21 | a product created with only a name has category '' and price 0 |
| Products.CleanErrors | sales/apps/products/models.py:10-21 | name is rejected iff blank or longer than 255; category iff longer than 255 (blank allowed); price iff negative or wider than 19 digits at 4 places; no other field is reported |
| Products.ValidProductFields | sales/apps/products/models.py:10-21 | a product is valid iff its name is non-blank and at most 255 long, its category at most 255 long and 0 <= price < 10^19 units |
| Products.Str | sales/apps/products/models.py:31-32 | `str(product)` is the product's name |
| Products.PriceStringRoundTrip | sales/apps/sales/models.py:63 | `str(product.price)` reads back as exactly the stored price, sign and magnitude |
| SalesRecords.CaptureSnapshot | sales/apps/sales/models.py:60-64 | the snapshot holds the product's name and category and a price string that parses back to the product's price |
| SalesRecords.CleanErrors | sales/apps/sales/models.py:25-44 | product is rejected iff missing and product_snapshot iff it is the blank `{}` (neither allows blank); quantity_sold iff below 1 or above 2147483647; total_sales_amount iff negative or wider than the column; no other field is reported |
| SalesRecords.ValidRowFields | sales/apps/sales/models.py:25-44 | a record is valid iff it has a product and a captured snapshot, 1 <= quantity_sold <= 2147483647 and 0 <= amount < 10^19 units |
| SalesRecords.SalesRecord.constructor | sales/apps/sales/models.py:25-45 | a new record has no primary key, the empty snapshot `{}`, and the given fields |
| SalesRecords.SalesRecord.Save | sales/apps/sales/models.py:58-65 | the snapshot is replaced by a capture of the product exactly when the record has no (or a falsy) key and has a product, else kept; an insert takes the assigned key; no other field changes |
| SalesRecords.SalesRecord.Delete | sales/apps/sales/signals.py:9 | deletion succeeds iff the instance has a key; the key is cleared and the row's fields are unchanged |
| SalesRecords.SalesRecord.Str | sales/apps/sales/models.py:55-56 | `str(record)` is the product's name, a space and the id (the id's decimal text once saved, 'None' before the first save); it fails iff the product is gone |
| SalesViews.StrShowsId | sales/apps/sales/models.py:55-56 | the text of a saved record with a product is its product's name and a space, and the rest reads back as its id |
| SalesRecords.CreateThenResave | sales/apps/sales/tests.py:56-68 | after a first save, changing the product and saving again keeps the snapshot of the original product |
| SalesRecords.CreateWithoutProduct | sales/apps/sales/models.py:32 | a record without a product keeps the empty snapshot through every save |
| SalesAggregation.ParseAggregateBy | sales/apps/sales/models.py:19-23 | 'month' and 'category' are the only choices, each naming its own grouping |
| SalesAggregation.KeyOf | sales/apps/sales/models.py:126-134 | month grouping gives a valid calendar month; category grouping gives 'Unknown' iff the product is gone, else the product's current category ('' stays its own group) |
| SalesAggregation.MonthKeyWindow | sales/apps/sales/models.py:126-127 | a sale's month key is a month iff its wall-clock reading lies between the first instant of that month and of the next |
| SalesAggregation.KeyLessIrreflexive | sales/apps/sales/models.py:97 | the group order is irreflexive |
| SalesAggregation.KeyLessTransitive | sales/apps/sales/models.py:97 | the group order is transitive |
| SalesAggregation.KeyLessTotal | sales/apps/sales/models.py:97 | any two different group keys are ordered one way or the other |
| SalesAggregation.EligibleRows | sales/apps/sales/models.py:87 | only records with quantity_sold > 0 are kept, and none are added |
| SalesAggregation.Members | sales/apps/sales/models.py:87-89 | a group's members all have units sold, so no unit price divides by zero |
| SalesAggregation.AddToSpec | sales/apps/sales/models.py:88-96 | adding a sale keeps the groups strictly sorted, creates or bumps only its own group, and adds its amount to the grand total |
| SalesAggregation.AccumulateSpec | sales/apps/sales/models.py:86-98 | the fold is strictly sorted by key and each key's group is exactly what its members determine (absent iff it has none) |
| SalesAggregation.AccumulateTotal | sales/apps/sales/models.py:87-91 | the fold's grand total is the sum of the amounts of the records with units sold |
| SalesAggregation.Aggregate | sales/apps/sales/models.py:86-98 | one row per key that has members and none other, in strictly ascending key order; total_sales is the sum of the members' amounts; the row keeps the sum of the members' amount/quantity and their count, whose quotient (AveragePrice) is average_price |
| SalesAggregation.AggregateTotal | sales/apps/sales/models.py:87-91 | the group totals add up to the sum of the amounts of all records with units sold |
| SalesAggregation.ZeroQuantityIgnored | sales/apps/sales/api/tests/test_sales_data_aggregration_api.py:71-88 | records with no units sold change nothing: aggregating only the others gives the same groups |
| SalesAggregation.TwoSalesAccumulate | sales/apps/sales/tests.py:70-88 | two sales of one group, (250.00, 5) and (750.00, 15), fold into one group of total 1000.00 and unit-price sum 100.00 |
| SalesAggregation.TwoSalesOneGroup | sales/apps/sales/tests.py:70-109 | the same two sales give exactly one row: total 1000.00, unit-price sum 100.00 over 2 sales, so an average price of 50.00 |
| SalesAggregation.CategoryKeyOfProduct | sales/apps/sales/tests.py:90-109 | a sale of an 'Electronics' product is grouped under 'Electronics' |
| SalesAggregation.GetDataAggregated | sales/apps/sales/models.py:100-141 | a selector other than 'month' and 'category' fails the assertion; otherwise the rows of that grouping over the given records, or over all records when none are given |
| Helpers.ConvertDateToUtc | sales/utils/helpers.py:6-14 | read on the zone's clock the result falls on the date itself, at 00:00:00.000000 or 23:59:59.999999; it fails iff that instant is outside years 1 to 9999 in UTC |
| Helpers.DayWindow | sales/utils/helpers.py:6-14 | a day starts before it ends, and the next day starts one microsecond after it ends |
| Helpers.AnchorsIncreasing | sales/utils/helpers.py:6-14 | both anchors are strictly increasing in the date, in both directions |
| Helpers.WindowEmptyIff | sales/apps/sales/api/filters.py:57-62 | start > end as dates iff the start-of-day of start comes after the end-of-day of end |
| Helpers.StartOfDayIff | sales/apps/sales/api/filters.py:41-45 | an instant is at or after the start of a date iff it falls on that date or later on the zone's calendar |
| Helpers.EndOfDayIff | sales/apps/sales/api/filters.py:47-51 | an instant is at or before the end of a date iff it falls on that date or earlier on the zone's calendar |
| SalesFilters.Cleaned | sales/apps/sales/api/filters.py:54-55 | a date parameter yields a date iff one was given and parsed |
| SalesFilters.CleanedCategory | sales/apps/sales/api/filters.py:26-31 | the category's form field strips surrounding whitespace: the cleaned text is empty iff the value is absent or all whitespace, and occurs in the value |
| SalesFilters.FormErrors | sales/apps/sales/api/filters.py:16-31 | start_date (resp. end_date) is reported iff it is not a date; category iff it holds a null character; no other field is |
| SalesFilters.FilterStartDate | sales/apps/sales/api/filters.py:41-45 | without a date, unchanged; with one, it fails iff the conversion fails, else keeps each record (with its multiplicity) iff sold on that date or later on the zone's calendar |
| SalesFilters.FilterEndDate | sales/apps/sales/api/filters.py:47-51 | without a date, unchanged; with one, it fails iff the conversion fails, else keeps each record iff sold on that date or earlier on the zone's calendar |
| SalesFilters.FilterCategory | sales/apps/sales/api/filters.py:26-31 | a value that cleans to '' (absent, empty or all whitespace) changes nothing; otherwise a record is kept iff it has a product whose category contains the stripped value, ignoring case |
| SalesFilters.FilterQuerysetSpec | sales/apps/sales/api/filters.py:53-64 | form errors (malformed dates, a null character in the category) are reported together; otherwise start > end is reported on start_date; a failed conversion is reported iff one occurs; otherwise exactly the records matching the dates and the stripped category are kept, each as often as stored |
| SalesFilters.FilterQuerysetShrinks | sales/apps/sales/api/filters.py:41-51 | filtering never adds or duplicates a record |
| SalesFilters.NoFiltersKeepAll | sales/apps/sales/api/tests/mixins.py:119-128 | with no date or category parameters the records are listed unchanged |
| SalesFilters.RangeCheck | sales/apps/sales/api/filters.py:57-62 | two dates are rejected on start_date iff start is after end and the category passed the form; equal dates pass |
| SalesFilters.BlankCategoryIgnored | sales/apps/sales/api/filters.py:26-31 | a category of only whitespace lists the same records as no category |
| SalesFilters.PaddedCategoryMatches | sales/apps/sales/api/filters.py:26-31 | whitespace around a category text lists the same records as the text itself |
| SalesFilters.UnknownCategoryEmpty | sales/apps/sales/api/tests/mixins.py:64-73 | a category no record's product contains lists nothing |
| SalesFilters.ExactDateDependsOnZone | sales/apps/sales/api/tests/mixins.py:130-158 | a sale at 2024-09-01T00:00Z is listed for 2024-09-01 at UTC+3 and not at UTC-7 |
| SalesFilters.ChoiceOf | sales/apps/sales/api/filters.py:67-73 | aggregate_by is a choice iff it is 'month' or 'category' |
| SalesFilters.AggregateFormErrors | sales/apps/sales/api/filters.py:67-73 | aggregate_by is reported iff missing or not a choice; the form is clean iff the dates parse and aggregate_by is a choice |
| SalesFilters.AggregateFilter | sales/apps/sales/api/filters.py:84-85 | form errors reject the request; otherwise the record filter's failure, or the chosen aggregation of the filtered records |
| SalesFilters.AggregateTotalOfFiltered | sales/apps/sales/api/filters.py:84-85 | the aggregated totals add up to the amounts of the filtered records with units sold |
| ResponseCache.InfixPattern | sales/apps/sales/signals.py:12-13 | the pattern `*x*` matches a key iff the key contains x |
| ResponseCache.Evict | sales/apps/sales/signals.py:12-13 | a key survives iff the pattern does not match it, and survivors keep their values |
| ResponseCache.EvictIdempotent | sales/apps/sales/signals.py:12-13 | evicting a pattern twice is evicting it once |
| ResponseCache.EvictCommutes | sales/apps/sales/signals.py:12-13 | two evictions give the same cache in either order |
| ResponseCache.Fetch | sales/apps/sales/api/views.py:46 | a response is found iff stored under the key and not yet expired |
| ResponseCache.Cache.Get | sales/apps/sales/api/views.py:46 | the lookup returns the stored, unexpired response, if any |
| ResponseCache.Cache.Set | sales/apps/sales/api/views.py:46 | the key now holds the response until now + timeout; every other key reads as before |
| ResponseCache.Cache.DeletePattern | sales/apps/sales/signals.py:12 | the matching keys are removed and their number returned |
| Signals.InvalidateSalesRecordApiCache | sales/apps/sales/signals.py:10-15 | evicts the records namespace, then the aggregation namespace; a backend failure is swallowed and stops what follows; failed iff one occurred |
| Signals.InvalidatedExactly | sales/apps/sales/signals.py:11-13 | after a run without failure, a key remains iff it contains neither namespace, with its value unchanged |
| Signals.InvalidatedOnlyRemovesNamespaces | sales/apps/sales/signals.py:11-15 | whatever fails, only keys are removed, and a key outside both namespaces is kept |
| Signals.InvalidatedIdempotent | sales/apps/sales/signals.py:12-13 | running the handler twice is running it once |
| Signals.InvalidatedOrderIrrelevant | sales/apps/sales/signals.py:12-13 | the two evictions could run in the other order |
| Signals.SaveRecord | sales/apps/sales/signals.py:8 | a save captures the snapshot and assigns the key as `save()` does, keeps product, quantity, amount and date unchanged (uuid is immutable), then runs the handler on the cache |
| Signals.DeleteRecord | sales/apps/sales/signals.py:9 | a delete of a saved record runs the handler; an unsaved one leaves the cache alone |
| SalesViews.PageSize | sales/apps/sales/api/views.py:15-18 | the page size is between 1 and 100: a missing, non-integer or non-positive page_size gives 20, a larger one is capped at 100 |
| SalesViews.NumPages | sales/apps/sales/api/views.py:15-18 | at least one page, and exactly enough pages for every item |
| SalesViews.PageNumber | sales/apps/sales/api/views.py:15-18 | absent or empty means page 1, 'last' the last page; any other value must be an integer from 1 to the page count, else not found |
| SalesViews.PageSlice | sales/apps/sales/api/views.py:15-18 | a page holds `size` items from its start, or the remainder on the last page |
| SalesViews.Paginate | sales/apps/sales/api/views.py:15-18 | the page exists iff its number is valid; it reports the full count, its items in list order, a next page iff one follows, a previous iff it is not the first |
| SalesViews.ItemOnPage | sales/apps/sales/api/views.py:15-18 | item i is result i % size of page i / size + 1 |
| SalesViews.SixteenRecordsTenPerPage | sales/apps/sales/api/tests/test_sales_record_api.py:50-65 | sixteen records at page_size=10: the first page holds ten and links to a next page |
| SalesViews.BadPaginationParameters | sales/apps/sales/api/tests/test_sales_record_api.py:67-86 | page_size=-10 gives pages of twenty; page=invalid is not found |
| SalesViews.OrderByDateDesc | sales/apps/sales/api/views.py:41 | the same records (as a multiset), newest sale first |
| SalesViews.PageWithinList | sales/apps/sales/api/views.py:46-48 | a page holds only items of the listing |
| SalesViews.PageKeepsOrder | sales/apps/sales/api/views.py:41 | a page of a newest-first listing is newest first |
| SalesViews.ListSalesRecords | sales/apps/sales/api/views.py:41-48 | a rejected filter is reported as such; otherwise the result is exactly the requested page of the matching records in newest-first order: it counts all matching records and holds only matching records, newest first |
| SalesViews.PageKeyHoldsPrefix | sales/apps/sales/api/views.py:46 | every cache key of a view contains its key prefix |
| SalesViews.CachedList | sales/apps/sales/api/views.py:46-48 | an unexpired cached response is served as is; otherwise the fresh one is served and stored for 1200 s only if its status is 200 |
| SalesViews.RepeatServedFromCache | sales/apps/sales/api/views.py:65 | within 1200 s of a 200 response, the same request gets that response whatever the view renders by then |
| SalesViews.ErrorsNotCached | sales/apps/sales/api/views.py:46 | a response other than 200 is not stored, so the next request is rendered again |
| SalesViews.WriteRefreshesLists | sales/apps/sales/api/tests/mixins.py:160-219 | after the handler runs without failure, no page of either list is served from the cache |
| SalesSerializers.FormatYearMonth | sales/apps/sales/api/serializers.py:77 | a month is written as seven characters with '-' at index 4 |
| SalesSerializers.FormatParseYearMonth | sales/apps/sales/api/serializers.py:76-77 | the 'YYYY-MM' label reads back as the same month |
| SalesSerializers.FormatYearMonthInjective | sales/apps/sales/api/serializers.py:76-77 | different months never share a label |
| SalesSerializers.GetGroup | sales/apps/sales/api/serializers.py:74-79 | a month group is shown as a 'YYYY-MM' label of that month; a category or 'Unknown' is shown unchanged |
| SalesSerializers.AugustLabel | sales/apps/sales/api/serializers.py:44 | August 2024 is shown as '2024-08' |
| SalesSerializers.Decimal2 | sales/apps/sales/api/serializers.py:61-72 | a value is shown iff its hundredths fit 19 digits; the text carries its sign and is within half a hundredth of it |
| SalesSerializers.SerializeAggregateRow | sales/apps/sales/api/serializers.py:59-79 | a row is shown iff its total and its average (unit-price sum over count) fit; its group is the shown group, its amounts the two-place decimals |
| SalesSerializers.TwoSalesShown | sales/apps/sales/api/serializers.py:59-72 | the group of 1000.00 total and 50.00 average is shown as '1000.00' and '50.00' |
| SalesSerializers.SerializeRecord | sales/apps/sales/api/serializers.py:13-36 | id is the uuid; product is null iff it is gone, else its id, name and category; quantity and date as stored; the amount as a two-place decimal |
| SalesSerializers.ValidRecordShown | sales/apps/sales/api/serializers.py:18-26 | the amount of every valid record fits the output field |

## Left out

- Rate limiting, routing and the OpenAPI schema helpers, authentication and the admin are not modelled. They are library wiring and settings that the core does not contain.
- SQL execution is not modelled: `select_related`, indexes, transactions and database-level constraints. Querysets are sequences of rows; a row's `product` is the product the foreign key points at now.
- The time-zone database and daylight-saving rules are not modelled. The active zone is given by its UTC offset, the same for every instant a computation reads.
- Parsing of dates and page numbers is simplified.
  - A date parameter arrives already classified as absent, malformed or a date.
  - Integers are read as an optional sign and ASCII digits.
  - Python's `int()` also accepts surrounding whitespace, underscores and non-ASCII digits; those are not modelled.
- The cache backend's internals are not modelled: Redis's own key prefix and version, the separate header-list key of `cache_page`, `Vary` and `Cache-Control` handling, and the SCAN loop behind `delete_pattern`. Digests of the URL and headers, and the language and time-zone suffix of a key, are parameters.
- The handler's `print` is not modelled; it returns whether a failure was caught.
- Concurrent requests and signal handlers are not modelled.
- ResponseCache.GlobMatch: character classes (`[...]`) and escaping (`\`) are not modelled, because neither eviction pattern uses them.
- SalesFilters.FilterCategory: `icontains` folds case as ASCII does. The database's Unicode case folding and collation are not modelled.
- SalesRecords.CleanErrors: the range of `quantity_sold` is Django's default for `PositiveIntegerField`. Backends that report another range are not modelled. `full_clean`'s uniqueness check of `uuid` and its lookup that the product still exists in the database are not modelled either: both need the database.
- SalesRecords.CaptureSnapshot: the price text is the one for a price loaded from the database, with 4 places ('99.9900'). A `Decimal` that was assigned in memory and never reloaded keeps its own exponent ('99.99'), and that text is not modelled.
- SalesAggregation.KeyLess: category labels are ordered by code point, not by the database collation.
- SalesAggregation.Aggregate: the average is an exact rational. The database's decimal precision for `Avg` is not modelled.
- SalesSerializers.SerializeAggregateRow: requires a row count of at least 1. Every row that Aggregate produces has one, because a group exists only when it has members.
- SalesAggregation.KeysDefined: month grouping requires every date of sale, read on the zone's clock, to lie in years 1 to 9999, where Python can represent it.
- SalesAggregation.TwoSalesAccumulate: stated for any two sales with the same group key rather than for two sales of one product on one date. That covers both tests of the example.
- SalesAggregation.TwoSalesOneGroup: stated for any two sales with the same group key, as above.
- SalesRecords.CreateThenResave: requires the first assigned key to be at least 1, as database keys are. A key of 0 is falsy in `not self.pk` and would capture the snapshot again.
- SalesRecords.SalesRecord.Delete: the rows of the database are not modelled; only the instance's key changes.
- Signals.InvalidateSalesRecordApiCache: which call fails is a parameter. A failing `delete_pattern` is taken to remove nothing.
- SalesSerializers.FormatYearMonth: years are padded to four digits; the platform's `strftime('%Y')` padding for years below 1000 is not modelled.
- SalesSerializers.Decimal2: `min_value=0` validates input only and does not change output, so the shown value is not clamped.
- SalesSerializers.SerializeRecord: `date_of_sale` is kept as the instant; its ISO 8601 text is not modelled.
- SalesViews.ListSalesRecords: records with the same date of sale are placed in some newest-first order; the database's tie order is not modelled.
- SalesViews.CachedList: the rendered response, its JSON body and the clock are parameters.
- The aggregation endpoint is modelled without pagination, since the list view sets no pagination class and the project-wide default is not part of this model.
