# E-commerce admin backend: analytics and stock rules

A Dafny model of the analytics and stock rules of a small e-commerce admin API. The API is written in Python with FastAPI and SQLAlchemy. The model covers these parts:

- the sales, revenue, inventory-health and low-stock reports, and the comparison of two revenue windows (`app/crud/crud.py`);
- the inventory patch with its history record, and the stock step of sale creation;
- the checks the write endpoints make before they touch the store, and the default previous window of the revenue comparison (`app/api/endpoints.py`);
- the dashboard summary (`app/api/dashboard.py`): its two windows, the top-5 products and the per-platform distribution;
- the helpers of `app/core/utils.py`: the order-number format, the fixed-step date range and the percentage helper;
- the sliding-window rate limiter of `app/core/rate_limit.py`;
- the records, the patch records and the defaults of `app/models/models.py` and `app/schemas/schemas.py`.

The database is a `Db` value holding one sequence per table. Each SQL query or pandas group-by becomes an explicit filter, fold or sort over those sequences. Each report is defined twice and the two are tied by lemmas: once the way the code computes it (a window query, then a pass over its rows), and once as a one-step reference over the whole table.

Conventions:

- **Money** is an `int` number of cents. Sums are therefore exact, and "the buckets add up to the total" is an equality.
- **Ratios** are `real`. A percent change is `Finite(r)` or `PosInf`, the latter standing for Python's `float("inf")`.
- **Dates** are Python ordinals (0001-01-01 is day 1, a Monday, up to 9999-12-31). A civil-calendar conversion recovers year, month, day and weekday.
- **Timestamps** are whole seconds since 0001-01-01. The range filters compare a timestamp with a `date` bound. As SQL does, a bound stands for its midnight, so only the first instant of the end day lies inside the window (`Analytics.InWindowByDay`).
- **Python truthiness** is explicit: `if x:` on an optional id treats `None` and `0` as false, and on an optional text treats `None` and `""` as false.
- **Date arithmetic that leaves the calendar** yields `None` or a `Failure`, where Python raises `OverflowError`.
- **Inputs from outside:** the clock, the random characters of an order number, and the primary keys the database assigns are all parameters.

Modules, one file each:

- `Wrappers`, `Digits`, `Calendar`, `Lists`, `Grouping` and `Sorting` are shared helpers: option and result types, decimal rendering, the calendar, filters and pages, the first-appearance group-by fold, and a descending insertion sort with top-N.
- `Models` and `Schemas` hold the records.
- `Analytics` covers the sales and revenue reports and the comparison.
- `StockReports` covers inventory health, low-stock alerts and the two list queries.
- `Stock` covers the inventory patch and the stock step of sales.
- `Endpoints` covers the request checks.
- `Dashboard`, `Utils` and `RateLimit` cover the remaining files.

## Model

| member | source | states |
|---|---|---|
| Analytics.InWindowByDay | app/crud/crud.py:329-331 | a timestamp passes the `>= start_date, <= end_date` filter iff its day is on or after the start day and either before the end day or exactly the end day's midnight |
| Analytics.InWindowDays | app/crud/crud.py:400-402 | every timestamp the window filter keeps falls on a day between the two bounds |
| Analytics.SalesTwoPhase | app/crud/crud.py:338-367 | the kept sales are empty when the window is empty; otherwise, with a truthy product or category id, they are the window's sales having at least one line of that product or of a product in that category, and without one they are the whole window |
| Analytics.SalesAnalytics | app/crud/crud.py:369-379 | `total_sales` is the number of kept sales, `total_revenue` their summed totals, the average is their ratio or 0.0, and no kept sale means 0 / 0 / empty by-date map |
| Analytics.SalesByDateCorrect | app/crud/crud.py:373-379 | the per-day groups have distinct keys that are exactly the kept sales' ISO days; their counts sum to `total_sales` and their revenues to `total_revenue`; each day's count and revenue are those of the kept sales on that day |
| Analytics.SalesByDateInWindow | app/crud/crud.py:373-379 | every key of `sales_by_date` is the ISO rendering of a day between the requested bounds |
| Analytics.MatchingSaleInWindow | app/crud/crud.py:329-331 | every sale the report counts falls on a day between the requested bounds |
| Analytics.DayGroup | app/crud/crud.py:374-379 | grouping sales by day gives each day the number of sales on it and the sum of their totals |
| Analytics.SaleEntriesTotal | app/crud/crud.py:370 | the entries fed to the group-by carry, in total, exactly the revenue of the sales |
| Analytics.SaleEntriesCount | app/crud/crud.py:378 | the entries with a given key are as many as the sales with that key |
| Analytics.SaleEntriesSum | app/crud/crud.py:379 | the entries with a given key sum to the revenue of the sales with that key |
| Analytics.AverageOrderValue | app/crud/crud.py:371 | with at least one order the average times the count is the total; with none it is 0.0 |
| Analytics.ParseGroupBy | app/crud/crud.py:394-398 | the lower-cased `group_by` selects week, month or year exactly when it equals that word, and day otherwise |
| Analytics.ParseGroupByCases | app/crud/crud.py:394-398 | the choice ignores letter case, and unknown or empty words fall back to day |
| Analytics.WeekStartWholeWeeks | app/crud/crud.py:432-434 | the week key is the Monday a whole number of weeks after 0001-01-01 |
| Analytics.BucketKeyExact | app/crud/crud.py:429-444 | two timestamps get the same period key iff they fall in the same day, Monday-started week, month or year |
| Analytics.RevenueAnalytics | app/crud/crud.py:417-448 | `total_revenue` is the sum over the matching sales; the keys of `revenue_by_period` are exactly their period keys, and each key holds the revenue of the matching sales in that period |
| Analytics.RevenueMap | app/crud/crud.py:442-444 | the pandas group-by sum gives exactly one entry per period key present, holding that period's revenue |
| Analytics.RevenueBucketsPartition | app/crud/crud.py:442-447 | the per-period buckets have distinct keys and sum to `total_revenue`, so each sale's total lands in exactly one bucket |
| Analytics.RevenuePeriodsExact | app/crud/crud.py:429-440 | two matching sales share a bucket iff they fall in the same period at the chosen granularity |
| Analytics.PercentChange | app/crud/crud.py:521-524 | the change is infinite iff the previous total is not positive and the current one is positive; 0 when neither is positive; finite whenever the previous total is positive |
| Analytics.PercentChangeInverse | app/crud/crud.py:521-522 | with a positive previous total, the percentage times the previous total is 100 times the difference |
| Analytics.PercentChangeSign | app/crud/crud.py:521-522 | with a positive previous total, the percentage is positive, zero or negative exactly as revenue grew, stayed or fell |
| Analytics.CompareRevenuePeriods | app/crud/crud.py:487-543 | each period reports its own ISO bounds, total and bucket map unchanged; previous plus `absolute_change` is current; `percent_change` follows the zero and infinity rule |
| Analytics.CompareSameWindow | app/crud/crud.py:518-542 | comparing a window with itself gives zero change and two equal period reports |
| Analytics.CompareSwapped | app/crud/crud.py:540 | swapping the two windows negates the absolute change |
| StockReports.AlertFor | app/crud/crud.py:471-478 | an alert carries the row's product id, that product's name, the row's quantity and the row's own threshold |
| StockReports.CollectAlertsFilters | app/crud/crud.py:465-478 | the alert loop, whether or not `low_stock_only` is set, yields exactly the alerts of the rows at or under their own threshold, in row order |
| StockReports.InventoryAnalytics | app/crud/crud.py:452-484 | `total_products` counts the rows in the category filter, `out_of_stock_products` the rows with quantity 0, and the alerts are those of the rows at or under their threshold, each with its product's name |
| StockReports.LowStockOnlyIrrelevant | app/crud/crud.py:467-470 | `low_stock_only` never changes the inventory report |
| StockReports.OutOfStockIsAlerted | app/crud/crud.py:462-478 | with non-negative thresholds, out-of-stock rows are at most the alerts, and the alerts are at most the rows |
| StockReports.JoinAlerts | app/crud/crud.py:193-214 | the result is one alert per joined row: the rows with a known product under the alert line, in row order, none repeated and none left out; a truthy override replaces each row's threshold in the comparison only |
| StockReports.JoinLoopExact | app/crud/crud.py:193-213 | the join taken row by row equals the alert of each joinable row of the one-pass filter, in order |
| StockReports.LowStockAlerts | app/crud/crud.py:190-214 | the low-stock query returns exactly one alert for each inventory row with a known product under the alert line, in table order, and nothing else |
| StockReports.ZeroOverrideIsNoOverride | app/crud/crud.py:200-203 | an override of 0, being falsy, behaves as no override |
| StockReports.JoinAlertsMatchesSummary | app/crud/crud.py:203 | without an override, the joined alerts are those of the inventory report's loop |
| StockReports.LowStockAlertsMatchSummary | app/crud/crud.py:190-214 | without an override the low-stock query returns the same list as the inventory report |
| StockReports.OverrideKeepsOwnThreshold | app/crud/crud.py:197-211 | with override 20, a row at 15 with threshold 10 is alerted with threshold 10; without the override it is not alerted |
| StockReports.ListInventories | app/crud/crud.py:125-140 | the page is the `OFFSET skip LIMIT limit` slice of the rows passing both filters in table order; with n passing rows it holds `min(limit, n - skip)` of them (none when `skip >= n`), all from the table and passing the low-stock and category filters; with no skip and a large limit it holds them all |
| StockReports.InventoryQueryOnePass | app/crud/crud.py:131-138 | chaining the optional low-stock filter and the category join keeps exactly the rows meeting both, in table order |
| StockReports.ListSales | app/crud/crud.py:283-306 | the page is the `OFFSET skip LIMIT limit` slice of a latest-first permutation of the passing sales (any order among ties); with n passing sales it holds exactly `min(limit, n - skip)` of them (none when `skip >= n`), latest first, all passing the customer, date and platform filters; on the first page any passing sale left out is no later than every listed one, and a first page with `limit` at least the table size holds every passing sale |
| StockReports.ListSalesFacts | app/crud/crud.py:292-306 | sorting the filtered sales latest first and paging them gives the `OFFSET`/`LIMIT` slice of a latest-first permutation of the passing sales, with that slice's length, in order, holding only passing sales; on the first page it leaves out none later than a listed one, and a large first page drops none |
| StockReports.ListSalesPage | app/crud/crud.py:292-306 | the same facts, stated with the listing's customer, date and platform filter |
| StockReports.ListedSalesRankFirst | app/crud/crud.py:306 | a first page holds the latest passing sales |
| StockReports.SortedMember | app/crud/crud.py:306 | ordering by date keeps exactly the same sales |
| Stock.UpdateInventory | app/crud/crud.py:143-174 | an unknown row gives `None`; otherwise only the supplied fields change, no other row or table changes, and a history record (old, new, reason) is appended iff a quantity is supplied that differs from the current one |
| Stock.UpdateInventoryAgain | app/crud/crud.py:153-169 | applying the same patch twice is the same as once, and the second application records no history |
| Stock.UpdateInventoryKeepsKeys | app/crud/crud.py:168-169 | a patch never changes a row's id or product, so unique ids and one row per product are kept |
| Stock.StockAfterSale | app/crud/crud.py:262 | the stock after a line is never negative, and is either 0 or the old stock minus the ordered quantity |
| Stock.SaleReason | app/crud/crud.py:267 | the history reason is `Sale: ` followed by the order number |
| Stock.SellItem | app/crud/crud.py:258-268 | one line leaves the other tables and all row keys alone; it leaves the store unchanged for a product without inventory; it keeps stock non-negative and appends at most one history record, with the sale's reason |
| Stock.SellItemStock | app/crud/crud.py:260-268 | one line sets its product's stock to the floored difference and leaves every other product's stock as it was |
| Stock.SellItems | app/crud/crud.py:257-268 | the whole order keeps stock non-negative and row keys unchanged, and appends at most one history record per line, all with the sale's reason |
| Stock.SellItemsUntouched | app/crud/crud.py:257-268 | a product the order does not name keeps its stock |
| Stock.SellItemsExact | app/crud/crud.py:257-268 | with one line per product, each product's stock ends at the floored difference between its stock and its line |
| Stock.SellItemsCovered | app/crud/crud.py:257-268 | when a product's stock covers the order's total for it, its stock ends at exactly the stock minus that total |
| Stock.OrderedDistinct | app/crud/crud.py:257-262 | with one line per product, the order's total for a line's product is that line's quantity |
| Stock.SaleRecord | app/crud/crud.py:251-258 | the stored sale copies the request's fields, and item k becomes a sale item with the k-th assigned id, the sale's id and the line's product, quantity, price and discount |
| Stock.CreateSale | app/crud/crud.py:250-272 | creating a sale appends its record, leaves categories, products and customers alone, keeps row keys and non-negative stock, and only appends history records carrying the sale's reason |
| Schemas.ApplyProductUpdate | app/schemas/schemas.py:44-48 | each supplied field (name, description, price, category) takes the supplied value, each absent one keeps its value, and id and SKU never change |
| Schemas.ApplyInventoryUpdate | app/schemas/schemas.py:75-79 | each supplied field (quantity, location, threshold, restock date) takes the supplied value, each absent one keeps its value, and the row's id and product never change |
| Schemas.ApplySaleUpdate | app/schemas/schemas.py:184-186 | a supplied status or total amount is stored, an absent one is kept, and every other field of the sale is unchanged |
| Schemas.PatchesIdempotent | app/schemas/schemas.py:44-48 | applying a patch twice equals applying it once, and the empty patch changes nothing |
| Schemas.SchemaDefaults | app/schemas/schemas.py:64-223 | an inventory threshold defaults to 10, a discount to 0, a sale's platform to `website` and status to `completed`, `group_by` to `day`, and the inventory report to no low-stock-only and no category |
| Endpoints.CreateCategory | app/api/endpoints.py:14-19 | creation fails with 400 `Category already exists` iff the name is taken; otherwise exactly one category is appended |
| Endpoints.CreateCategoryKeepsNamesUnique | app/api/endpoints.py:16-19 | creation keeps category names unique, and the name then finds the new category |
| Endpoints.CreateProduct | app/api/endpoints.py:62-70 | a taken SKU gives 400, then an unknown category gives 404; success iff neither, appending exactly the new product |
| Endpoints.CreateProductKeepsSkusUnique | app/api/endpoints.py:64-70 | creation keeps SKUs unique and only ever uses an existing category |
| Endpoints.UpdateProduct | app/api/endpoints.py:95-110 | an unknown product gives 404; a truthy unknown category gives 404; otherwise the product gets the patch, every product with another id is unchanged, and the other tables are unchanged |
| Endpoints.UpdateProductKeepsSkus | app/api/endpoints.py:101-110 | a product update keeps SKUs unique |
| Endpoints.UpdateProductZeroCategory | app/api/endpoints.py:105-108 | a `category_id` of 0 skips the check and moves the product to a category that does not exist |
| Endpoints.CreateInventory | app/api/endpoints.py:124-134 | an unknown product gives 404, a product that already has inventory gives 400; success iff neither, appending exactly the new row |
| Endpoints.CreateInventoryKeepsOnePerProduct | app/api/endpoints.py:126-134 | creation keeps one inventory row per product and every row's product known |
| Endpoints.UpdateInventoryChecked | app/api/endpoints.py:179-197 | an unknown row gives 404 `Inventory not found`; otherwise the result is that of the inventory patch |
| Endpoints.ItemProblem | app/api/endpoints.py:268-285 | a line fails with 404 for an unknown product, then with 404 for a product without inventory, then with 400 `Insufficient stock for product with ID n` when the stock is below what the rule demands |
| Endpoints.ItemsProblem | app/api/endpoints.py:268-285 | the lines pass iff each passes, and otherwise the error is that of the first failing line |
| Endpoints.CreateSaleChecked | app/api/endpoints.py:263-287 | an unknown customer gives 404, then the first failing line's error; the sale is created iff the customer exists and every line passes |
| Endpoints.AcceptedSaleExactStock | app/api/endpoints.py:263-287 | with one line per product, an accepted sale takes exactly each line's quantity off its product |
| Endpoints.SplitLinesOversell | app/api/endpoints.py:268-285 | two lines of 3 units against a stock of 5 are accepted, and the stock ends at 0 |
| Endpoints.SplitLinesRefused | app/api/endpoints.py:281-285 | under the per-product rule, the same order is refused with 400 `Insufficient stock for product with ID 1` |
| Endpoints.AcceptedSaleCovered | app/api/endpoints.py:281-287 | under the per-product rule, an accepted sale takes each product's ordered total off its stock, and that stock covered the total |
| Endpoints.RulesAgreeOnDistinctLines | app/api/endpoints.py:268-287 | with one line per product, the per-line and per-product rules give the same response |
| Endpoints.DefaultPreviousWindow | app/api/endpoints.py:380-389 | given bounds are kept; a missing end is the day before the current start; a missing start makes the previous window as long as the current one; leaving the calendar gives `None` |
| Endpoints.DefaultWindowAdjacent | app/api/endpoints.py:380-389 | with both bounds omitted, the previous window has the current window's length and ends the day before it starts |
| Endpoints.CompareRevenue | app/api/endpoints.py:367-401 | `None` iff the previous window cannot be derived; otherwise each period reports its ISO bounds and the revenue report of its window (the current one, and the derived previous one) under the same filters, previous plus `absolute_change` is current, and the percent change follows the comparator's rule |
| Dashboard.DashboardWindows | app/api/dashboard.py:27-40 | `period_days` outside 1..365 is refused; otherwise the current window ends today and spans `period_days` days, and the previous window is as long and ends on the current start |
| Dashboard.WindowsShareBoundary | app/api/dashboard.py:30-40 | an order at midnight of the current start day is counted in both windows |
| Dashboard.ProductRowsCorrect | app/api/dashboard.py:51-63 | each product row's units and revenue are the sums over that product's in-window lines, the product was sold in the window, and no product appears twice |
| Dashboard.TopProducts | app/api/dashboard.py:51-76 | `min(5, n)` rows for n products sold, by units sold descending, taken from the per-product rows, and no row left out sold more than a listed one |
| Dashboard.TopProductsCorrect | app/api/dashboard.py:55-56 | each listed product's units sold and revenue are the sums of quantity and of price times quantity minus discount over its in-window lines |
| Dashboard.TopProductsRanked | app/api/dashboard.py:64-65 | a product sold in the window but not listed sold no more units than any listed product |
| Dashboard.QuantityEntriesSum | app/api/dashboard.py:55 | the grouped quantity of a product is the sum of its lines' quantities |
| Dashboard.RevenueEntriesSum | app/api/dashboard.py:56 | the grouped revenue of a product is the sum of its lines' revenues |
| Dashboard.PlatformDistribution | app/api/dashboard.py:78-87 | the platform rows are the per-platform groups of the in-window sales, by revenue descending |
| Dashboard.PlatformDistributionCorrect | app/api/dashboard.py:78-96 | the order counts sum to the number of in-window sales and the revenues to their revenue, and each platform's row holds its own count and revenue |
| Dashboard.DashboardSummary | app/api/dashboard.py:25-119 | the summary fails iff the windows do, and each field is the corresponding report's figure, with `revenue_change_percent` the comparator's percent change |
| Dashboard.DashboardFigures | app/api/dashboard.py:98-116 | the summary's revenue is the window's revenue, its change percent is the change from the previous window, and its low-stock count is the number of rows at or under their threshold |
| Utils.RenderOrderNumber | app/core/utils.py:9-12 | an order number is 15 characters, `ORD-`, six digits, `-` and four more |
| Utils.ParseOrderNumber | app/core/utils.py:9-12 | a string reads back as an order number iff it has that format with the last four characters drawn from A-Z and 0-9 |
| Utils.ParseRender | app/core/utils.py:9-12 | reading back a rendered order number gives its parts |
| Utils.RenderParse | app/core/utils.py:9-12 | rendering the parts read from a well-formed order number gives the number back |
| Utils.GenerateOrderNumber | app/core/utils.py:7-12 | the generated number has the format, and its last four characters are the alphabet letters the random picks name |
| Utils.OrderNumberFields | app/core/utils.py:8-10 | the number encodes the two-digit year, the month, the day and the picked characters of its day |
| Utils.OrderNumberCollision | app/core/utils.py:8-12 | within one century, equal order numbers mean the same day and the same picked characters |
| Utils.OrderNumberCentury | app/core/utils.py:9 | 2024-01-05 and 1924-01-05 with the same picks give the same order number |
| Utils.IntervalDays | app/core/utils.py:21-30 | the step is 7 days for week, 30 for month, 365 for year and 1 day for anything else |
| Utils.DateRange | app/core/utils.py:15-36 | the range has one element per step up to the end, the k-th being start plus k steps; it is empty when start is after end; it is `None` iff the step after the last element leaves the calendar, where Python raises |
| Utils.RangeCovers | app/core/utils.py:32-34 | a non-empty range ends at or before the end, and one more step would pass the end |
| Utils.CalculatePercentageChange | app/core/utils.py:43-47 | with old 0 the result is infinite iff new is positive and 0 otherwise; else the result times old is 100 times the difference, whatever the sign of old |
| Utils.PercentageAgreesWithComparator | app/core/utils.py:43-47 | for non-negative old totals the helper agrees with the comparator |
| Utils.PercentageNegativeOld | app/core/utils.py:43-47 | for old -100 and new 50 the helper gives -150 where the comparator gives infinity |
| RateLimit.IsAllowed | app/core/rate_limit.py:13-28 | a call is let through iff fewer than `calls` timestamps remain after dropping those at or before `now - period`; the key then holds the remaining ones, plus `now` if let through; other keys are untouched |
| RateLimit.IsAllowedKeepsLimit | app/core/rate_limit.py:24-25 | no key ever holds more than `calls` timestamps |
| RateLimit.FirstCallAllowed | app/core/rate_limit.py:15-16 | an unseen key's first call is let through iff `calls` is positive |
| RateLimit.RunKeyCache | app/core/rate_limit.py:18-26 | after a run of requests from one key, with a clock that does not go back, the key holds exactly the accepted times inside the latest window |
| RateLimit.RateLimitHolds | app/core/rate_limit.py:13-28 | at each request, the accepted requests of the preceding `period` seconds number at most `calls` |
| Grouping.GroupByCorrect | app/crud/crud.py:373-379 | the dictionary-style fold gives one group per distinct key, none empty, each with the number and summed amount of its entries, and the groups add up to the entries |
| Sorting.TopN | app/api/dashboard.py:64-65 | `order_by … desc` then `limit n` keeps at most n rows in descending order, drawn from the input, none left out ranking above a kept one |
| Sorting.SortDesc | app/crud/crud.py:306 | ordering descending is a permutation in descending order |
| Calendar.WeekStart | app/crud/crud.py:432-434 | the week key is a Monday on or before the day, less than a week before it |
| Calendar.MonthStart | app/crud/crud.py:435-438 | the month key is the first of the day's month, on or before the day |
| Calendar.IsoDateInjective | app/crud/crud.py:375 | two days get the same ISO key iff they are the same day |
| Calendar.IsoDateFields | app/crud/crud.py:375 | the ISO key is the four-digit year, two-digit month and two-digit day, joined by dashes |

## Left out

- Timestamps keep whole seconds. Microseconds and time zones are not modelled.
- The floating-point results are exact: cents and `real`. Float rounding, `format_money` (`%.2f`) and the IEEE value of `float("inf")` are not modelled.
- SQLAlchemy sessions, `commit`/`refresh`, relationship loading and the order in which SQL returns tied rows are not modelled. Sorts are stable insertion sorts; ties may come in any order, and the contracts allow any.
- Queries without `ORDER BY` are read in table order: `get_inventories`, the low-stock join, the inventory report's loop, and every `.first()` lookup. SQL does not fix that order. `ListInventories`, `JoinAlerts` and `LowStockAlerts` state their results in table order, which is one order the database may return.
- Revenue analytics with both a product id and a category id runs two SQL joins. The model reads them as "one line item satisfies both". The sales report's Python loop uses "any line satisfies either", and is modelled as written.
- Explicit JSON `null` in a patch, for a column that cannot be null, is not modelled. A patch field is either absent or a value.
- `skip` and `limit` are natural numbers. Negative values, which SQL would reject or treat specially, are not modelled.
- Database-assigned ids, `datetime.now()`, `time.time()` and `random.choices` are parameters.
- Database-enforced uniqueness (category name, SKU, order number, customer email) is stated as predicates on `Db`. The database's rejection of a duplicate write is not modelled.
- Letter-case folding for `group_by` is modelled for the characters that can lower-case into one of the words `week`, `month` or `year`: the ASCII capitals and the Kelvin sign (U+212A), which Python's `lower()` maps to `k`. Every other character is kept as it is, so other words are still not any of those three and still fall back to day.
- The inventory-history listing, its `created_at` order, and the customer, category-update, read and delete operations are not modelled. They are not part of the stock and analytics rules.
- HTTP routing is not modelled, including that `/inventory/low-stock` is registered after `/inventory/{inventory_id}` and is shadowed by it. `low_stock_alerts` is modelled as the query it calls.
- A `PUT` with no body makes `update_product` and `update_inventory` dereference `None`; that crash is not modelled.
- The rate limiter's HTTP 429 dependency and its default limits (100 calls per 60 s) are wiring and are not modelled.
- The demo-data and export scripts, `main.py`, the middleware, the docs and the configuration are not modelled. They are I/O and wiring.
- StockReports.InventoryAnalytics: requires every row it reads that is at or under its own threshold to have its product on record. The code reads `inv.product.name` only for those rows and raises on a dangling one; that crash is not modelled. With a category id the join already drops dangling rows, so the requirement then always holds.
- Dashboard.DashboardSummary: requires every inventory row at or under its own threshold to have its product on record, for the same reason. Its window arithmetic reports a `Failure` where Python would raise `OverflowError` before year 1.
- RateLimit.RateLimitHolds: proved for one key, a positive period and a clock that does not go back. The limiter itself makes no assumption about the clock.
- Utils.DateRange: returns `None` where Python's `timedelta` addition would raise `OverflowError` past year 9999.
- Analytics.SalesAnalytics: with a truthy category id, the code reads `item.product.category_id` for each line it reaches, and raises when that line's product is gone. The model counts such a line as not in the category and answers normally.
- Analytics.SalesTwoPhase: the same dangling-product crash of the category test is not modelled; such a line counts as no match.
- Endpoints.AcceptedSaleCovered: requires non-negative line quantities. The schema accepts negative quantities, which the per-product rule would count against other lines of the same product.

## Findings

| source | as written | input that shows it | evidently intended | confidence | as-written member | corrected member |
|---|---|---|---|---|---|---|
| app/api/endpoints.py:268-285 with app/crud/crud.py:262 | each line of a sale is checked on its own against the stock as it was before the sale; `create_sale` then floors each product's stock at 0 | stock 5 for product 1; one order with two lines of 3 units of product 1: both lines pass, the sale is stored, and the stock ends at 0 while 6 units were sold | an order is refused with 400 when a product's total over all its lines exceeds its stock, so an accepted sale never reaches the floor | medium, not executed | Endpoints.SplitLinesOversell | Endpoints.AcceptedSaleCovered |

The corrected rule is `CreateSaleChecked` with `StockRule.PerProduct`. `Endpoints.SplitLinesRefused` shows it refuses the example above with the endpoint's own 400. `Endpoints.RulesAgreeOnDistinctLines` shows that it answers exactly as the written check whenever each product has one line.
