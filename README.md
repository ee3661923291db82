# CloudFront real-time metrics pipeline, modelled in Dafny

The sample turns CloudFront real-time log lines into per-edge-location request metrics. It uses two
Lambda functions that share one key-value counter table.

- **Record processor** (`src/record_processor/lambda_function.py`). It handles each stream record:
  - it takes one decoded log line, strips it and splits it on TAB;
  - it reads the timestamp, status, host and edge location;
  - it performs one atomic upsert on the item keyed by
    (`str(round(ts)) + '.' + host`, `edge + '.' + status`);
  - the upsert sets `status_count = if_not_exists(status_count, 0) + 1` and overwrites `ttl`
    (`round(ts) + 900`), `status_code` and `edge_location`.

  The records are handled in order, and the first record that raises aborts the batch.
- **Metric put** (`src/metric_put/lambda_function.py`). It runs once per distribution and window:
  - it queries the 60 partition keys of the seconds `current-58 … current+1` and flattens the
    paginated results;
  - it sums the counts into a nested dictionary, edge location → status code → count;
  - for every edge location, it sends seven metric points: the request total, then the count and
    percentage of the 2xx, 4xx and 5xx classes.

The Dafny modules follow this structure:

- `Wrappers`: `Option`, `Result` and the failures the handlers raise.
- `Text`: Python's `str.strip()` and `str.split(sep)`, and `Join` as the inverse of `Split`.
- `Decimal`: Python's `str()` of an int, and the parse that reads it back.
- `OrderedDict`: Python dicts, which are insertion-ordered keys plus a map. It also defines selective
  sums over a dict.
- `CounterTable`: the stored item, the upsert (`Upsert`, `Replay`), and the class `Table`. Its
  `Increment` method is the single atomic `update_item`.
- `RecordProcessor`: line parsing, rounding, key and ttl construction, and `DynamodbUpload`. It
  also holds the per-record loop body `HandleRecord` and the handler `LambdaHandler`. These are all
  proved against the specification functions `Attempt` and `Ingest`.
- `MinuteCounts`: the nested dictionary that `aggregate_data_by_minute` builds, as a fold (`Tally`)
  over query rows, with its properties.
- `MetricPut`: `DynamodbQuery` has nested page and item loops. `AggregateDataByMinute` has the
  60-second `while` loop. The handler's loops over edge locations and status classes return the
  metric points instead of sending them. All of these are proved against specification functions
  (`WindowCounts`, `Aggregated`, `EdgePoints`, `HandlerEmission`).
- `Pipeline`: properties that link the two functions through the shared key format.

The code's behaviour on points a reader might not expect:

- The window covers `current-58 … current+1`. The counter starts at `current - 59` and is
  incremented before each query, so the second `current - 59` is never queried and `current + 1`
  is.
- A status class counts the codes that contain its digit anywhere, not only as the leading digit.
  So `"520"` counts in both 2xx and 5xx, and the class counts can add up to more than the total.
- The percentage has no zero guard. A zero total raises after the RequestCount and 2xx Count points.
- Parsing fails only when there are fewer than five fields. Any fields after the fifth are ignored.
- Every metric point has `StorageResolution` 60.

## Model

| member | source | states |
|---|---|---|
| Text.StripLeft | src/record_processor/lambda_function.py:79 | the result is a suffix of the input, what was removed is all whitespace, and the result does not start with whitespace |
| Text.StripRight | src/record_processor/lambda_function.py:79 | the result is a prefix of the input, what was removed is all whitespace, and the result does not end with whitespace |
| Text.Strip | src/record_processor/lambda_function.py:79 | `strip()` never lengthens the text, and the result neither starts nor ends with whitespace |
| Text.StripPadded | src/record_processor/lambda_function.py:79 | stripping whitespace padding off a text that has no whitespace at either end gives back exactly that text |
| Text.StripLeftPadded | src/record_processor/lambda_function.py:79 | stripping a whitespace prefix off a text that does not start with whitespace gives back that text |
| Text.StripRightPadded | src/record_processor/lambda_function.py:79 | stripping a whitespace suffix off a text that does not end with whitespace gives back that text |
| Text.Split | src/record_processor/lambda_function.py:79 | `split('\t')` always gives at least one piece, and no piece contains the separator |
| Text.SplitJoin | src/record_processor/lambda_function.py:79 | joining the pieces of a split with the separator rebuilds the line |
| Text.JoinSplit | src/record_processor/lambda_function.py:79 | splitting the join of separator-free pieces gives back exactly those pieces, empty pieces included |
| Text.SplitPrefix | src/record_processor/lambda_function.py:79 | a separator-free prefix joins the first piece of the split of the rest |
| Text.JoinAppend | src/record_processor/lambda_function.py:79 | joining one more piece appends the separator and that piece |
| Text.JoinEnds | src/record_processor/lambda_function.py:79 | a join starts with its first piece and ends with its last piece |
| Decimal.NatToDecimal | src/record_processor/lambda_function.py:20 | `str()` of a natural number is a non-empty string of digits with no leading zero, except for 0 itself |
| Decimal.IntToDecimal | src/record_processor/lambda_function.py:24 | `str()` of an int is non-empty and has no '.', so it cannot blur the key separator |
| Decimal.NatRoundTrip | src/record_processor/lambda_function.py:24 | the digits written for n read back as n |
| Decimal.IntRoundTrip | src/record_processor/lambda_function.py:24 | the decimal text written for any int, negative ones included, parses back to that int |
| Decimal.IntToDecimalInjective | src/metric_put/lambda_function.py:19 | two ints with the same decimal text are equal |
| OrderedDict.Dict.Put | src/metric_put/lambda_function.py:82-89 | `d[k] = v` replaces k's value; a new key goes after all others, and an existing key keeps its place |
| OrderedDict.PutValid | src/metric_put/lambda_function.py:82-89 | an assignment keeps every key listed once, and exactly the listed keys have values |
| OrderedDict.Empty | src/metric_put/lambda_function.py:59 | `{}` has no keys and is well formed |
| OrderedDict.SumOverUpdate | src/metric_put/lambda_function.py:155 | changing one value of a key that is listed once moves a selective sum by the difference, only when that key is selected |
| OrderedDict.PutSum | src/metric_put/lambda_function.py:155 | the effect of `d[k] = v` on `sum(v for k, v in d.items() if selected(k))`, for a new key and for an existing one |
| OrderedDict.SumOverMonotone | src/metric_put/lambda_function.py:127 | over non-negative values, selecting fewer keys never gives a larger sum |
| CounterTable.Upsert | src/record_processor/lambda_function.py:36-46 | the item's count becomes its old count, or 0 when absent, plus one; ttl, status_code and edge_location are overwritten; no other item changes and no other key appears |
| CounterTable.ReplayCount | src/record_processor/lambda_function.py:36-43 | after any sequence of upserts, the count of a key is its initial count plus the number of upserts of that key, whatever other keys are interleaved |
| CounterTable.ReplayUntouched | src/record_processor/lambda_function.py:26-58 | a key that no upsert targets keeps its presence and its item |
| CounterTable.ReplayLastWriteWins | src/record_processor/lambda_function.py:36 | ttl, status_code and edge_location hold the values of the last upsert of that key |
| CounterTable.ReplayPositive | src/record_processor/lambda_function.py:36-43 | upserts keep every stored count at least 1 |
| CounterTable.Table.constructor | src/record_processor/lambda_function.py:26 | the table starts empty and valid |
| CounterTable.Table.Increment | src/record_processor/lambda_function.py:26-58 | one `update_item` with ReturnValues ALL_NEW: the table becomes the upsert of its old items, the returned item is the new stored item, and counts stay at least 1 |
| RecordProcessor.RoundToSecond | src/record_processor/lambda_function.py:20 | Python's `round` of a millisecond timestamp: the result is within half a second, and a tie goes to the even second |
| RecordProcessor.RoundToSecondUnique | src/record_processor/lambda_function.py:20 | only one second meets that rule, so the rounding is exactly Python's half-to-even |
| RecordProcessor.ParseLineFields | src/record_processor/lambda_function.py:79-84 | a line of five or more tab-free fields, the first not starting and the last not ending with whitespace, with any whitespace before and after it, parses to its first five fields; extra fields are ignored |
| RecordProcessor.ParseLineTooFewFields | src/record_processor/lambda_function.py:79-84 | a line of 1 to 4 tab-free fields, the first not starting and the last not ending with whitespace, with any whitespace before and after it, fails at the index of the first missing field |
| RecordProcessor.ParseLineEmptyEdgeLocation | src/record_processor/lambda_function.py:79-84 | an empty fifth field at the end of the line is stripped off along with the newline, so the line has only four values and fails at index 4 |
| RecordProcessor.BeforeFirstDotOf | src/record_processor/lambda_function.py:20 | the text before the first '.' of `str(second) + '.' + host` is the second's text |
| RecordProcessor.AfterLastDotOf | src/record_processor/lambda_function.py:21 | the text after the last '.' of `edge + '.' + status` is a dot-free status |
| RecordProcessor.PartitionKeyInjective | src/record_processor/lambda_function.py:20 | equal partition keys mean the same second and the same distribution |
| RecordProcessor.SortKeyInjective | src/record_processor/lambda_function.py:21 | equal sort keys with dot-free statuses mean the same edge location and status |
| RecordProcessor.TtlRoundTrip | src/record_processor/lambda_function.py:24 | the ttl written is the decimal text of the rounded second plus 900 |
| RecordProcessor.Applied | src/record_processor/lambda_function.py:76-96 | the upserts of the first n successful records: exactly n of them, the j-th being the j-th record's upsert |
| RecordProcessor.FirstErr | src/record_processor/lambda_function.py:76-96 | the first failing record at or after a position: every record before it succeeds, and it fails unless it is the end |
| RecordProcessor.IngestFrom | src/record_processor/lambda_function.py:76-96 | the handler, from any position, stops at the first failure and leaves exactly the upserts of the records before it |
| RecordProcessor.ReplayAppliedStep | src/record_processor/lambda_function.py:76-96 | one more successful record adds exactly its upsert |
| RecordProcessor.IngestFirstFailure | src/record_processor/lambda_function.py:76-96 | either every record succeeds and the table holds all their upserts, or the first failing record is reported, the earlier upserts stay applied and no later record is handled |
| RecordProcessor.DynamodbUpload | src/record_processor/lambda_function.py:11-59 | builds the keys and ttl; an accepted write upserts the item and returns it, and a refused write changes nothing and raises |
| RecordProcessor.HandleRecord | src/record_processor/lambda_function.py:77-96 | one loop iteration: its outcome is the record's `Attempt`; on success the table gets that upsert, and on failure it is unchanged |
| RecordProcessor.LambdaHandler | src/record_processor/lambda_function.py:61-96 | the final table and outcome are those of `Ingest` over the records in order, and stored counts stay at least 1 |
| MinuteCounts.CodesOf | src/metric_put/lambda_function.py:82-86 | the status-code dictionary of a well-formed nested dictionary is well formed |
| MinuteCounts.PutNestedValid | src/metric_put/lambda_function.py:82-89 | storing a well-formed code dictionary under an edge location keeps the nested dictionary well formed |
| MinuteCounts.AddRowValid | src/metric_put/lambda_function.py:77-89 | one row keeps the nested dictionary well formed |
| MinuteCounts.AddRowsValid | src/metric_put/lambda_function.py:77-89 | any rows keep the nested dictionary well formed |
| MinuteCounts.TallyValid | src/metric_put/lambda_function.py:59-89 | the dictionary built from empty is well formed at both levels |
| MinuteCounts.AddRowsAppend | src/metric_put/lambda_function.py:62-89 | folding the rows of two queries one after the other is folding their concatenation |
| MinuteCounts.EdgeSetMembers | src/metric_put/lambda_function.py:78 | the edge set of the rows is exactly the edge locations some row has |
| MinuteCounts.PairSetMembers | src/metric_put/lambda_function.py:78-79 | the pair set of the rows is exactly the (edge, code) pairs some row has |
| MinuteCounts.AddRowKeys | src/metric_put/lambda_function.py:82-83 | a row adds its edge location as the last key only when it is new |
| MinuteCounts.AddRowCount | src/metric_put/lambda_function.py:85-89 | a row creates its (edge, code) pair at 0 if missing and adds its count to it; every other pair is unchanged |
| MinuteCounts.AddRowSameEdge | src/metric_put/lambda_function.py:85-89 | the row's edge location gets its code's count raised by the row's count |
| MinuteCounts.AddRowOtherEdge | src/metric_put/lambda_function.py:82-89 | other edge locations are unchanged |
| MinuteCounts.AddRowSum | src/metric_put/lambda_function.py:89 | a row raises every selective sum of its edge location by its count, when its code is selected |
| MinuteCounts.AddRowsKeys | src/metric_put/lambda_function.py:82-83 | the outer keys are the rows' edge locations in order of first appearance |
| MinuteCounts.AddRowsEdges | src/metric_put/lambda_function.py:82-83 | exactly the rows' edge locations are added |
| MinuteCounts.AddRowsCount | src/metric_put/lambda_function.py:77-89 | a pair is present exactly when some row has it, and its count is the sum of those rows' counts |
| MinuteCounts.AddRowsSum | src/metric_put/lambda_function.py:77-89 | every selective sum of an edge location grows by the counts of that edge's selected rows |
| MinuteCounts.TallyFacts | src/metric_put/lambda_function.py:77-89 | the dictionary's edge keys, its pairs, each count (the sum of `status_count` over the rows with that pair) and each selective sum, all in terms of the rows |
| MinuteCounts.RowSumAppend | src/metric_put/lambda_function.py:77-89 | a sum over rows splits over concatenation |
| MinuteCounts.RowSumRemove | src/metric_put/lambda_function.py:77-89 | taking a row out takes its contribution out of a sum |
| MinuteCounts.RowSumPermutation | src/metric_put/lambda_function.py:77-89 | a sum over rows does not depend on their order |
| MinuteCounts.TallyOrderIndependent | src/metric_put/lambda_function.py:77-89 | rows in any order give the same edge locations and the same code counts; only the key order can differ |
| MinuteCounts.TallyEdgeOrderIndependent | src/metric_put/lambda_function.py:77-89 | the same, for one edge location |
| MinuteCounts.TallyPairOrderIndependent | src/metric_put/lambda_function.py:77-89 | the same, for one (edge, code) pair |
| MinuteCounts.RowSumPositive | src/metric_put/lambda_function.py:127 | rows with counts of at least 1, at least one of them selected, give a sum of at least 1 |
| MinuteCounts.RowSumNonNegative | src/metric_put/lambda_function.py:155 | non-negative counts give a non-negative sum |
| MetricPut.FlattenAt | src/metric_put/lambda_function.py:37-47 | item j of page i is in the flattened response, after all items of the earlier pages |
| MetricPut.FlattenLength | src/metric_put/lambda_function.py:37-47 | the flattened response has exactly as many entries as the pages have items |
| MetricPut.ProjectAppend | src/metric_put/lambda_function.py:38-45 | projection distributes over concatenation |
| MetricPut.AppendPage | src/metric_put/lambda_function.py:39-45 | the inner loop appends the page's projected items, in order |
| MetricPut.DynamodbQuery | src/metric_put/lambda_function.py:11-47 | queries the partition key `str(second) + '.' + distribution`; returns every item of every page once, in page-then-item order, or raises when the paginator raises |
| MetricPut.FlattenHasRow | src/metric_put/lambda_function.py:37-47 | every row returned comes from an item on some page |
| MetricPut.WindowSeconds | src/metric_put/lambda_function.py:55-65 | the window has 60 seconds, the first is `current - 58`, the last is `current + 1`, and each is one more than the one before |
| MetricPut.WindowSecondsCover | src/metric_put/lambda_function.py:55-65 | a second is in the window if and only if it lies between `current - 58` and `current + 1` |
| MetricPut.WindowSecondsGrow | src/metric_put/lambda_function.py:62-65 | one more iteration adds the next second |
| MetricPut.AggregatedValid | src/metric_put/lambda_function.py:59-91 | a successful aggregation is a well-formed nested dictionary |
| MetricPut.AggregatedFails | src/metric_put/lambda_function.py:68-72 | once a query has failed, the whole aggregation is that failure |
| MetricPut.AccumulateRows | src/metric_put/lambda_function.py:77-89 | the item loop folds the query's rows into the dictionary |
| MetricPut.AggregateDataByMinute | src/metric_put/lambda_function.py:49-91 | returns the counts of the 60 seconds, or the error of the earliest failing query with no partial dictionary; it processes a prefix of the window seconds, all 60 exactly on success |
| MetricPut.QueryAndAccumulate | src/metric_put/lambda_function.py:65-89 | one iteration extends the window's counts by one second, or raises that second's query failure |
| MetricPut.WindowCountsStep | src/metric_put/lambda_function.py:65-89 | the counts after one more second: its query failure, or its rows folded in |
| MetricPut.WindowRowsStep | src/metric_put/lambda_function.py:65-89 | the rows after one more second: its query failure, or its rows appended |
| MetricPut.WindowRowsStaysFailed | src/metric_put/lambda_function.py:68-72 | later seconds do not change an earlier failure |
| MetricPut.WindowRowsOk | src/metric_put/lambda_function.py:62-72 | the window succeeds if and only if every one of its seconds' queries succeeds |
| MetricPut.WindowRowsAllPages | src/metric_put/lambda_function.py:62-72 | a successful window had every query succeed |
| MetricPut.WindowRowsFailingSecond | src/metric_put/lambda_function.py:68-72 | a failed window had some second's query fail |
| MetricPut.WindowRowsFrom | src/metric_put/lambda_function.py:62-89 | every row of the window comes from an item that the query of one of its seconds returned |
| MetricPut.StatusGroupsShape | src/metric_put/lambda_function.py:153-156 | `status_groups` always holds the three keys 2xx, 4xx, 5xx, in that order and even when zero, each with its class count |
| MetricPut.StatusGroupsUnfold | src/metric_put/lambda_function.py:154-156 | the class loop is three assignments, in order |
| MetricPut.StatusGroupsStep | src/metric_put/lambda_function.py:154-156 | one class iteration assigns `f'{group}xx'` its count |
| MetricPut.ThreeClasses | src/metric_put/lambda_function.py:153-156 | three assignments of distinct keys to an empty dict give those keys, in order, with their values |
| MetricPut.SumStatusGroups | src/metric_put/lambda_function.py:153-156 | the class loop produces 2xx, 4xx and 5xx, in order, with the count of codes containing each digit |
| MetricPut.ClassPointsStep | src/metric_put/lambda_function.py:159-205 | one class sends a Count point and then a Percent point, or only the Count point and the division failure when the total is 0 |
| MetricPut.ClassPointsStaysFailed | src/metric_put/lambda_function.py:200 | after the division failure, no more class points are sent |
| MetricPut.EdgesEmissionStep | src/metric_put/lambda_function.py:124-205 | one more edge location appends its points, or ends with its failure |
| MetricPut.EdgesEmissionStaysFailed | src/metric_put/lambda_function.py:124-205 | after a failure, later edge locations send nothing |
| MetricPut.PutClassMetrics | src/metric_put/lambda_function.py:159-205 | the loop over `status_groups` sends exactly the class points, stopping at the division by a zero total |
| MetricPut.PutEdgeMetrics | src/metric_put/lambda_function.py:124-205 | one edge location sends RequestCount with the total, then its class points |
| MetricPut.PutAllEdges | src/metric_put/lambda_function.py:124-205 | the loop over the edge locations sends their points in dictionary order and stops at the first failure |
| MetricPut.LambdaHandler | src/metric_put/lambda_function.py:93-205 | the handler sends nothing and raises when aggregation fails, and otherwise sends the points of every edge location |
| MetricPut.EdgePointsSeven | src/metric_put/lambda_function.py:124-205 | with a non-zero total, an edge location gets exactly seven points in a fixed order, each with the stated namespace, name, value and unit (see below the table) |
| MetricPut.ClassPointsThree | src/metric_put/lambda_function.py:159-205 | three classes with a non-zero total give Count, Percent, Count, Percent, Count, Percent |
| MetricPut.EdgePointsCount | src/metric_put/lambda_function.py:124-205 | with a non-zero total, an edge location sends seven points and does not fail |
| MetricPut.EdgePointsZeroTotal | src/metric_put/lambda_function.py:200 | with a zero total, RequestCount 0 and the 2xx Count are sent, then the division by zero is raised |
| MetricPut.EdgePointsShared | src/metric_put/lambda_function.py:129-205 | every point carries the window timestamp, the cs-host and x-edge-location dimensions, and StorageResolution 60 |
| MetricPut.ClassCountBounds | src/metric_put/lambda_function.py:155 | with non-negative counts, each class count lies between 0 and the total |
| MetricPut.ClassesOverlap | src/metric_put/lambda_function.py:155 | code "520" counts in both 2xx and 5xx, so the class counts can add up to more than the total |
| MetricPut.PercentageBounds | src/metric_put/lambda_function.py:200 | a class count within a positive total is a percentage between 0 and 100 |
| MetricPut.WindowRowsPositive | src/metric_put/lambda_function.py:62-89 | when the queries return only counts of at least 1, every window row has count at least 1 |
| MetricPut.TallyTotalPositive | src/metric_put/lambda_function.py:127 | with such rows, every edge location in the result has a total of at least 1 |
| MetricPut.EdgesEmissionLength | src/metric_put/lambda_function.py:124-205 | edge locations with non-zero totals send seven points each, with no failure |
| MetricPut.EdgesEmissionBlock | src/metric_put/lambda_function.py:124-205 | the i-th block of seven points is exactly the points of the i-th edge location |
| MetricPut.EdgesEmissionBlocks | src/metric_put/lambda_function.py:124-205 | both of the above together |
| MetricPut.HandlerSevenPointsPerEdge | src/metric_put/lambda_function.py:124-205 | when aggregation succeeds over positive counts, the handler sends seven points per edge location, each block being that edge's points |
| Pipeline.KeysAgree | src/metric_put/lambda_function.py:19 | the partition key written for (second, host) is the key queried for (second', distribution) exactly when the seconds and the names agree |
| Pipeline.WindowReadsRecord | src/metric_put/lambda_function.py:55-69 | window `current` reads a record's item exactly when its host is the distribution and its rounded second lies in `current-58 … current+1` |
| Pipeline.TtlOutlivesWindow | src/record_processor/lambda_function.py:24 | the ttl of an item lies at least 841 seconds after the last second (`current + 1`) queried by any window that reads it |
| Pipeline.ServedCountsPositive | src/metric_put/lambda_function.py:38-45 | queries against a table whose counts are at least 1 return only counts of at least 1 |
| Pipeline.IngestKeepsPositive | src/record_processor/lambda_function.py:76-96 | the ingest handler keeps every stored count at least 1, whether it completes or aborts |
| Pipeline.StoredTableNeverDividesByZero | src/metric_put/lambda_function.py:200 | over a table whose stored counts are all at least 1, the metric handler never divides by zero: a failed aggregation sends nothing and raises, and a successful one sends seven points per edge location |
| Pipeline.IngestedTableNeverDividesByZero | src/metric_put/lambda_function.py:200 | over the table the ingest handler leaves behind, completed or aborted, starting from a table whose counts are all at least 1 (an empty one included), the metric handler never divides by zero |
| RecordProcessor.ParseLine | src/record_processor/lambda_function.py:79-84 | defines `strip().split('\t')` and the five field reads; its behaviour is stated by ParseLineFields, ParseLineTooFewFields and ParseLineEmptyEdgeLocation |
| RecordProcessor.PartitionKey | src/record_processor/lambda_function.py:20 | defines the partition key; stated by BeforeFirstDotOf, PartitionKeyInjective and Pipeline.KeysAgree |
| RecordProcessor.SortKey | src/record_processor/lambda_function.py:21 | defines the sort key; stated by AfterLastDotOf and SortKeyInjective |
| RecordProcessor.BuildUpdate | src/record_processor/lambda_function.py:20-24 | defines the keys and ttl of one `update_item`; stated by TtlRoundTrip, Pipeline.TtlOutlivesWindow and DynamodbUpload |
| RecordProcessor.PrepareRecord | src/record_processor/lambda_function.py:79-92 | defines the field extraction and `float(timestamp)` before the upload; stated through Attempt by HandleRecord |
| RecordProcessor.Attempt | src/record_processor/lambda_function.py:76-96 | defines the handling of one record; stated by HandleRecord |
| RecordProcessor.Ingest | src/record_processor/lambda_function.py:76-96 | defines the handler's ordered, abort-on-first-failure loop; stated by IngestFirstFailure, IngestFrom and LambdaHandler |
| CounterTable.Replay | src/record_processor/lambda_function.py:26-58 | defines a sequence of upserts; stated by ReplayCount, ReplayUntouched, ReplayLastWriteWins and ReplayPositive |
| MinuteCounts.AddRow | src/metric_put/lambda_function.py:77-89 | defines one item of the aggregation loop; stated by AddRowKeys, AddRowCount, AddRowSameEdge, AddRowOtherEdge, AddRowSum and AddRowValid |
| MinuteCounts.AddRows | src/metric_put/lambda_function.py:77-89 | defines the aggregation loop over rows; stated by AddRowsKeys, AddRowsEdges, AddRowsCount, AddRowsSum and AddRowsAppend |
| MinuteCounts.Tally | src/metric_put/lambda_function.py:59-89 | defines the dictionary built from empty; stated by TallyFacts, TallyValid and TallyOrderIndependent |
| MetricPut.QueryKey | src/metric_put/lambda_function.py:19 | defines the queried partition key; stated by DynamodbQuery and Pipeline.KeysAgree |
| MetricPut.Flatten | src/metric_put/lambda_function.py:37-47 | defines the page-by-page item list; stated by FlattenAt, FlattenLength and FlattenHasRow |
| MetricPut.WindowRows | src/metric_put/lambda_function.py:62-89 | defines the rows of the window's queries; stated by WindowRowsOk, WindowRowsAllPages, WindowRowsFailingSecond, WindowRowsFrom and WindowRowsStep |
| MetricPut.WindowCounts | src/metric_put/lambda_function.py:62-89 | defines the dictionary after some of the window's queries; stated by WindowCountsStep and AggregateDataByMinute |
| MetricPut.Aggregated | src/metric_put/lambda_function.py:49-91 | defines what `aggregate_data_by_minute` returns; stated by AggregatedValid, AggregatedFails and AggregateDataByMinute |
| MetricPut.Total | src/metric_put/lambda_function.py:127 | defines `sum(status_codes.values())`; stated by ClassCountBounds and TallyTotalPositive |
| MetricPut.ClassCount | src/metric_put/lambda_function.py:155 | defines the sum over codes containing a digit; stated by ClassCountBounds and ClassesOverlap |
| MetricPut.StatusGroupsOver | src/metric_put/lambda_function.py:153-156 | defines `status_groups`; stated by StatusGroupsShape and SumStatusGroups |
| MetricPut.Percentage | src/metric_put/lambda_function.py:200 | defines `count * 100 / status_sum`; stated by PercentageBounds |
| MetricPut.ClassPoints | src/metric_put/lambda_function.py:159-205 | defines the class loop's points; stated by ClassPointsStep, ClassPointsThree, ClassPointsStaysFailed and PutClassMetrics |
| MetricPut.EdgePoints | src/metric_put/lambda_function.py:124-205 | defines one edge location's points; stated by EdgePointsSeven, EdgePointsCount, EdgePointsZeroTotal, EdgePointsShared and PutEdgeMetrics |
| MetricPut.EdgesEmission | src/metric_put/lambda_function.py:124-205 | defines the edge loop's points; stated by EdgesEmissionStep, EdgesEmissionBlocks and PutAllEdges |
| MetricPut.HandlerEmission | src/metric_put/lambda_function.py:93-205 | defines what the handler sends; stated by LambdaHandler and HandlerSevenPointsPerEdge |

`MetricPut.EdgePointsSeven` fixes the seven points as follows:

1. RequestCount, holding the total, in the Count namespace.
2. The 2xx count (Count namespace), then its percentage of the total (Percent namespace).
3. The same two points for 4xx.
4. The same two points for 5xx.

## Left out

- The AWS clients are not modelled: boto3, the network side of `update_item`, the query paginator
  and `put_metric_data`.
  - The table is an in-memory map.
  - The paginator is a parameter `paginate: string -> Fetch` that yields pages or a read failure.
  - The refused `update_item` calls are a parameter `rejected: set<nat>` of record positions.
  - The metric points are returned as a sequence instead of being sent.
- A failure of `put_metric_data` itself is not modelled. Only the division by zero ends the
  sequence of points.
- Concurrency is not modelled. Several Lambda invocations against the table are out of scope; each
  `update_item` is one atomic step (`Table.Increment`).
- TTL-driven deletion is not modelled, because the storage service performs it.
- `base64.b64decode` and UTF-8 decoding are library calls. Each record is given as its decoded line.
- The float parse is not modelled. `float(timestamp)` is a parameter
  `parseMillis: string -> Option<int>`, which yields integer milliseconds or None when the parse
  raises. Python's `round` is then modelled exactly, as half-to-even, on those milliseconds.
- The metric event's input is not modelled: `json.loads`, `strptime` and the timezone-dependent
  `.timestamp()`. The window's integer second `current` and the timestamp text are parameters.
- Environment lookups and logging are not modelled, including the mislabelled log line at
  src/metric_put/lambda_function.py:115. The successfully queried seconds that the loop logs are
  returned as `processed`.
- MetricPut.Percentage: an exact rational `count * 100 / total`. The float division and
  `round(…, 2)` are not modelled.
- MinuteCounts.CountRow: `int(status_count)` on the N-typed attribute is left out. Counts are
  stored and read as integers, so a malformed N string cannot occur in the model.
- CounterTable.Item: the item keeps only the attributes the code writes and reads. The key
  attribute names 'timestamp.distribution' and 'edgelocation.statuscode' are not modelled.
