# BMLT metrics: collectors and range query, modelled in Dafny

The BMLT metrics service keeps a daily record of how large the BMLT root-server
network is. It has three entry points, and each is modelled as a pure function.

- **Collector** (`logger_handler` in metrics.py):
  - reads the decoded root-server list;
  - sums eight statistics per record (zones, areas, groups and regions; total, in-person, virtual and hybrid meetings);
  - upserts one per-source row per record, keyed by the date hash (`YYYYMMDD`) followed by `str(sourceId)`, with every counter stored as its decimal string;
  - after the loop, upserts one aggregate row keyed by the date label (`YYYY-MM-DD`).
- **Flat collector** (`lambda_handler` in metrics_logger.py): the older variant. It sums five flat fields and upserts one row per day, with the totals stored as numbers.
- **Query handler** (`api_handler` and `bad_response` in metrics.py):
  - rejects paths outside `/metrics` with a 403 `{"error_response": "bad path"}`;
  - settles the date range, with `start_date` defaulting to `2021-06-27` and `end_date` to today;
  - scans the aggregate table with an inclusive `BETWEEN` filter on `date`, which the store rejects when the start sorts after the end;
  - returns the rows sorted by date, which `json.dumps` rejects when a row holds a number.

How the model maps the environment:

- **Tables.** The DynamoDB tables are maps from primary key to item, and `put_item` is a map update.
- **Handler results.** A handler's raised exception is a `Failure`, or the `error` field of the collector's `Effect`. The collector's per-source rows written before a failing record stay written.
- **Dates.** The date a run uses is a parameter (`Dates.Date`). The two date formats are the functions `Dates.Label` and `Dates.Hash`.
- **Scan order.** The order a scan visits the table in is a parameter (`order`).
- **String order.** Python's and DynamoDB's string order is `Strings.Le`, lexicographic by code point.

Modules:

| module | file | what it holds |
|---|---|---|
| `Wrappers` | wrappers.dfy | `Option` and `Result` |
| `Seqs` | seqs.dfy | a multiset fact the permutation proofs share |
| `Strings` | strings.dfy | lexicographic order, `startswith` |
| `Decimal` | decimal.dfy | `str(int)`, zero padding, parsing back |
| `Dates` | dates.dfy | calendar dates, `%Y-%m-%d` and `%Y%m%d` |
| `Json` | json.dfy | decoded JSON values; subscripting, `+=`, `str`, what `json.dumps` accepts, and the exceptions they raise |
| `Store` | store.dfy | attributes, items, tables |
| `Tally` | tally.dfy | counter vectors and their sums |
| `Records` | records.dfy | reading a record's statistics |
| `Sorting` | sorting.dfy | stable sort by a string key |
| `MetricsCollector` | metrics_collector.dfy | the collector |
| `MetricsLogger` | metrics_logger.dfy | the flat collector |
| `MetricsApi` | metrics_api.dfy | the query handler |

Two behaviours of the collector are worth stating plainly:

- **Missing or mistyped statistic.** A record that lacks a statistic, or holds a non-number where one is expected, makes the handler raise. It does not contribute zero.
- **Collector failure part-way.** When the collector fails part-way, the per-source rows written before the failing record persist, and the aggregate row is not put.

## Model

| member | source | states |
|---|---|---|
| Strings.LeTotal | metrics.py:82 | any two date strings are comparable, so sorting by date is well defined |
| Strings.LeTransitive | metrics.py:82 | the string order used for sorting and filtering is transitive |
| Strings.LeAntisymmetric | metrics.py:82 | two strings each at most the other are equal |
| Decimal.NatToStringValue | metrics.py:47-54 | `str` of a natural number is a digit string whose value is that number |
| Decimal.ParseIntRoundTrip | metrics.py:47-54 | the stored decimal string of any counter, negative included, parses back to the counter |
| Decimal.IntToStringInjective | metrics.py:59-66 | distinct totals are stored as distinct strings |
| Decimal.PadOrder | metrics.py:11 | zero-padded numbers of one width compare as strings exactly as they compare as numbers |
| Dates.LabelOrder | metrics.py:11 | `%Y-%m-%d` labels compare as strings exactly as their dates compare on the calendar |
| Dates.LabelInjective | metrics.py:11 | two dates share a label only when they are the same day |
| Dates.HashInjective | metrics.py:12 | two dates share a `%Y%m%d` hash only when they are the same day |
| Records.ReadCountsSpec | metrics.py:34-41 | reading a record's statistics succeeds exactly when every path leads to a number, and slot `j` is the number at path `j` |
| Records.ReadAllElementwise | metrics_logger.py:21-26 | reading every record succeeds exactly when each record reads, with each record's counters in place |
| Records.ReadAllPermutation | metrics_logger.py:21-26 | reordering the records reorders the counters read and keeps success or failure |
| Tally.SumIsColumnTotal | metrics.py:33-41 | slot `j` of the summed counters is the total of statistic `j` over all records |
| Tally.SumPermutation | metrics.py:33-41 | the totals do not depend on the order of the records |
| Sorting.SortBySorted | metrics.py:82 | the sort returns a permutation of its input with dates non-decreasing |
| Sorting.SortedUnique | metrics.py:82 | when the date determines the row, a set of rows has exactly one date-sorted arrangement |
| MetricsCollector.LoggerHandler | metrics.py:27-67 | a run that raises leaves the aggregate table as it was; one that does not adds exactly today's label to its keys |
| MetricsCollector.LoggerHandlerSpec | metrics.py:27-67 | the per-source table gains the rows of the records up to the first failing one; the run raises that record's exception, or none when every record is read; the aggregate row is put only when none is raised |
| MetricsCollector.LoopWrites | metrics.py:33-55 | the loop upserts the per-source rows of the records it gets through, in order |
| MetricsCollector.LoopTotals | metrics.py:33-41 | the loop ends with the starting totals plus every record's statistics, or with the first failing record's exception |
| MetricsCollector.PutRowsSpec | metrics.py:42-55 | successive upserts add their keys, keep every key they do not write, and leave the last write of a key in place |
| MetricsCollector.PutRowsIdempotent | metrics.py:42-55 | upserting the same rows twice leaves the table as upserting them once |
| MetricsCollector.PerSourceKeyInjective | metrics.py:43 | two per-source ids are equal exactly when the dates and source-id strings are |
| MetricsCollector.PerSourceRow | metrics.py:42-55 | a per-source row carries the id, today's label, the record's name, `str(sourceId)` and the eight counters, and nothing else |
| MetricsCollector.PerSourceCounters | metrics.py:47-54 | each per-source counter is the decimal string of the record's own statistic and parses back to it |
| MetricsCollector.AggregateAfter | metrics.py:57-67 | the aggregate row is put exactly when every record was got through, and then holds the summed totals |
| MetricsCollector.AggregateRow | metrics.py:57-67 | after a run that raised nothing, the day's aggregate row is the row of the summed totals |
| MetricsCollector.TotalsRow | metrics.py:57-67 | the aggregate row holds exactly the date and eight counters, each the decimal string of one statistic totalled over all readings, which parses back to the total |
| MetricsCollector.ReadingsAreStatistics | metrics.py:34-41 | when every record gets through, the readings summed are each record's own eight statistics, in order |
| MetricsCollector.EmptyRunWritesZeros | metrics.py:28-67 | with no root servers the run writes no per-source row and an aggregate row of "0" counters |
| MetricsCollector.RunTwiceSameAsOnce | metrics.py:42-67 | repeating a run on the same day with the same records leaves both tables as one run left them |
| MetricsCollector.SecondRunReplacesAggregate | metrics.py:57-67 | a second successful run on the same day replaces the day's aggregate row instead of adding to it |
| MetricsCollector.FailedRunKeepsEarlierRows | metrics.py:33-55 | a run that raises at record `n` leaves the aggregate table untouched but keeps the per-source rows of records before `n` |
| MetricsCollector.AggregateStaysServable | metrics.py:57-67 | the aggregate rows hold only strings, so a run keeps every aggregate row one the query handler can serve |
| MetricsCollector.TablesStayKeyed | metrics.py:42-67 | every row written carries its own key, so the per-source table stays keyed by `id` and the aggregate table by `date` |
| MetricsLogger.LambdaHandler | metrics_logger.py:11-37 | a successful run adds exactly today's label to the table and changes no other row |
| MetricsLogger.FoldIsSum | metrics_logger.py:21-26 | the loop's totals are the starting totals plus every record's five fields, or the first unreadable record's exception |
| MetricsLogger.LambdaHandlerOutcome | metrics_logger.py:21-26 | the run succeeds exactly when every record has all five fields as numbers |
| MetricsLogger.LambdaHandlerRow | metrics_logger.py:28-37 | the row written holds exactly the date and the five fields, each the number totalling that field |
| MetricsLogger.EmptyRunWritesZeros | metrics_logger.py:13-37 | with no root servers the row written holds five zeros |
| MetricsLogger.FoldAppend | metrics_logger.py:21-26 | the totals over two lists joined are the sum of the totals over each |
| MetricsLogger.OrderIndependent | metrics_logger.py:21-37 | reordering the root servers changes neither the outcome nor the table written |
| MetricsLogger.RerunReplaces | metrics_logger.py:37 | a second run on the same day leaves the table as if only the second run had happened |
| MetricsLogger.SnapshotNotServable | metrics_logger.py:28-37 | the row the flat collector writes holds numbers, which `json.dumps` in the query handler rejects |
| MetricsLogger.TableStaysKeyed | metrics_logger.py:28-37 | the table stays keyed by `date` |
| MetricsApi.Param | metrics.py:75-79 | a query parameter is the supplied value when it is present and non-empty, the fallback otherwise |
| MetricsApi.Scan | metrics.py:80-81 | the scan returns only items in range, and every visited item in range |
| MetricsApi.Query | metrics.py:80-82 | the answer is a permutation of the scan, sorted by date |
| MetricsApi.ApiHandler | metrics.py:70-93 | an event without a path raises `NoPath`; a path outside `/metrics` is always answered, with 403; a `/metrics` request either raises, for a reversed range or an undumpable row, or is answered 200 |
| MetricsApi.RejectsBadPath | metrics.py:72-74 | a path outside `/metrics` gets the 403 "bad path" body whatever the parameters, table, scan order and date |
| MetricsApi.ServesRange | metrics.py:75-93 | a `/metrics` request is answered exactly when its start does not sort after its end and no stored row in range holds a number; otherwise it raises the store's range error or the `json.dumps` error; the answer is 200 with exactly the stored rows whose date lies in the range, both ends included, one per key, sorted by date |
| MetricsApi.QueryRows | metrics.py:80-82 | an item is in the answer exactly when it is the item of a key in range, and the answer has one item per such key |
| MetricsApi.ScanCount | metrics.py:81 | a scan visiting each key once returns one item per visited key in range |
| MetricsApi.ScanPermutation | metrics.py:81 | the items a scan returns do not depend, as a multiset, on the order it visits keys in |
| MetricsApi.ScanOrderIrrelevant | metrics.py:81-82 | on a table keyed by date, the sorted answer does not depend on the scan order |
| MetricsApi.DefaultRange | metrics.py:75-79 | a request without parameters, or with an empty map, is answered as one asking for 2021-06-27 to today |
| MetricsApi.CalendarRange | metrics.py:80 | for rows dated by the calendar, the string range is the calendar range, both ends included |

## Left out

- Network, JSON decoding and the DynamoDB client are outside the model. The handlers receive the decoded root-server list and the tables as arguments, and return the tables they would leave.
- Failures of the remote fetch, of decoding and of the store are outside the model too. A failed fetch or decode aborts the handler before the modelled logic. A failed per-source `put_item` (metrics.py:42) would raise inside the loop: the rows of earlier records stay written and the aggregate row is not put, as for a record that cannot be read. The model has no such failure.
- The current date is a parameter. In metrics.py it is computed when the module is loaded (lines 11-12), so a reused process keeps the load-time date. The model takes whatever date the run uses.
- MetricsCollector.LoggerHandler: builds the date label and the date hash from one date. metrics.py reads the clock twice (lines 11 and 12), so a module loaded at midnight can pair the hash of one day with the label of the next, and the per-source id and `date` would then disagree. The agreement `MetricsCollector.PerSourceRow` states rests on the single date.
- The final aggregate `put_item` of metrics.py (line 57) is less indented than the loop body, which does not match any enclosing block. The model puts the aggregate row once, after the loop, as the structure of the function shows was meant.
- JSON booleans and fractional numbers are not in the value model.
- `MetricsCollector.Process` does not model Python's `repr` of an array or object `sourceId`. Such a value makes it fail with `UnsupportedId`, where the source would build an id from the repr.
- `Dates.Label`: pads the year to four digits. Some platforms' `%Y` does not pad years below 1000; the collectors never run on such dates.
- `MetricsApi.Scan`: models a single scan that returns every match. A DynamoDB scan stops after one page of results, and the handler ignores `LastEvaluatedKey`.
- The response headers are not modelled. They are constant: content type and CORS.
- The body is modelled as the list of rows. Its JSON text is not modelled; only whether `json.dumps` accepts the rows is.
- The `print` logging of both handlers is not modelled.
- The dashboard's client-side store (src/lib/plotlyStore.ts) is not part of this model.
