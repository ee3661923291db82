/** The metric function: it rebuilds the counts of one distribution over a 60-second window from
    the counter table, sums them per edge location and status code, and derives the metric points
    (request count, and the 2xx/4xx/5xx counts and percentages) sent to the metrics service. */
module MetricPut {
  import opened Wrappers
  import opened Decimal
  import opened OrderedDict
  import opened CounterTable
  import opened MinuteCounts

  /** str(current_timestamp) + '.' + distribution_domain_name. */
  function QueryKey(second: int, distribution: string): string
  {
    IntToDecimal(second) + "." + distribution
  }

  /** What the query paginator yields for one partition key: its pages of items, or an exception. */
  datatype Fetch = Pages(pages: seq<seq<Item>>) | ReadFailed

  function ToRow(item: Item): CountRow
  {
    CountRow(item.edgeLocation, item.statusCode, item.statusCount)
  }

  /** The items of all pages, page by page. */
  function Flatten(pages: seq<seq<Item>>): seq<Item>
  {
    if pages == [] then [] else Flatten(pages[..|pages| - 1]) + pages[|pages| - 1]
  }

  function Project(items: seq<Item>): (rows: seq<CountRow>)
    ensures |rows| == |items|
    ensures forall k | 0 <= k < |items| :: rows[k] == ToRow(items[k])
  {
    seq(|items|, k requires 0 <= k < |items| => ToRow(items[k]))
  }

  /** The number of items on all pages. */
  function ItemCount(pages: seq<seq<Item>>): nat
  {
    if pages == [] then 0 else ItemCount(pages[..|pages| - 1]) + |pages[|pages| - 1]|
  }

  /** Flattening keeps every item of every page exactly once, in page-then-item order: item j of
      page i sits after all items of the earlier pages, and there are no other items. */
  lemma {:induction false} FlattenAt(pages: seq<seq<Item>>, i: nat, j: nat)
    requires i < |pages| && j < |pages[i]|
    ensures |Flatten(pages)| == ItemCount(pages)
    ensures ItemCount(pages[..i]) + j < |Flatten(pages)|
    ensures Flatten(pages)[ItemCount(pages[..i]) + j] == pages[i][j]
  {
    var n := |pages|;
    FlattenLength(pages[..i]);
    if i < n - 1 {
      var init := pages[..n - 1];
      assert init[..i] == pages[..i];
      FlattenAt(init, i, j);
    } else {
      assert pages[..n - 1] == pages[..i];
    }
    FlattenLength(pages);
  }

  lemma {:induction false} FlattenLength(pages: seq<seq<Item>>)
    ensures |Flatten(pages)| == ItemCount(pages)
  {
    if pages != [] {
      FlattenLength(pages[..|pages| - 1]);
    }
  }

  lemma ProjectAppend(a: seq<Item>, b: seq<Item>)
    ensures Project(a + b) == Project(a) + Project(b)
  {
  }

  /** The inner loop of dynamodb_query: the items of one page appended, projected, in order. */
  method AppendPage(response: seq<CountRow>, page: seq<Item>) returns (extended: seq<CountRow>)
    ensures extended == response + Project(page)
  {
    extended := response;
    for j := 0 to |page|
      invariant extended == response + Project(page[..j])
    {
      assert page[..j + 1] == page[..j] + [page[j]];
      ProjectAppend(page[..j], [page[j]]);
      extended := extended + [ToRow(page[j])];
    }
    assert page[..|page|] == page;
  }

  /** dynamodb_query: every item of every page for the second's partition key, projected, in
      order; an exception of the paginator is raised. */
  method DynamodbQuery(second: int, distribution: string, paginate: string -> Fetch)
    returns (r: Result<seq<CountRow>>)
    ensures paginate(QueryKey(second, distribution)).ReadFailed? ==> r == Err(QueryFailed(QueryKey(second, distribution)))
    ensures paginate(QueryKey(second, distribution)).Pages? ==>
              r == Ok(Project(Flatten(paginate(QueryKey(second, distribution)).pages)))
  {
    var partitionKey := QueryKey(second, distribution);
    var fetched := paginate(partitionKey);
    if fetched.ReadFailed? {
      return Err(QueryFailed(partitionKey));
    }
    var pages := fetched.pages;
    var response: seq<CountRow> := [];
    for p := 0 to |pages|
      invariant response == Project(Flatten(pages[..p]))
    {
      response := AppendPage(response, pages[p]);
      assert pages[..p + 1][..p] == pages[..p];
      ProjectAppend(Flatten(pages[..p]), pages[p]);
    }
    assert pages[..|pages|] == pages;
    return Ok(response);
  }

  /** The seconds queried for window `current`: current - 58 up to current + 1, because the counter
      starts at current - 59 and is incremented before each query. */
  function WindowSeconds(current: int): (seconds: seq<int>)
    ensures |seconds| == 60
    ensures seconds[0] == current - 58 && seconds[59] == current + 1
    ensures forall k | 0 <= k < 59 :: seconds[k + 1] == seconds[k] + 1
  {
    seq(60, k => current - 58 + k)
  }

  /** The window holds exactly the seconds current - 58 .. current + 1. */
  lemma WindowSecondsCover(current: int)
    ensures forall second :: second in WindowSeconds(current) <==> current - 58 <= second <= current + 1
  {
    var seconds := WindowSeconds(current);
    forall second | current - 58 <= second <= current + 1
      ensures second in seconds
    {
      assert seconds[second - current + 58] == second;
    }
  }

  lemma WindowSecondsGrow(current: int, i: nat)
    requires i < 60
    ensures WindowSeconds(current)[..i + 1] == WindowSeconds(current)[..i] + [current - 58 + i]
  {
    var w := WindowSeconds(current);
    assert w[..i + 1] == w[..i] + [w[i]];
  }

  /** The rows of the n consecutive seconds from `first`, or the failure of the earliest query that
      raises. */
  function WindowRows(first: int, n: nat, distribution: string, paginate: string -> Fetch): Result<seq<CountRow>>
  {
    if n == 0 then Ok([])
    else
      match WindowRows(first, n - 1, distribution, paginate)
      case Err(e) => Err(e)
      case Ok(rows) =>
        match paginate(QueryKey(first + n - 1, distribution))
        case ReadFailed => Err(QueryFailed(QueryKey(first + n - 1, distribution)))
        case Pages(pages) => Ok(rows + Project(Flatten(pages)))
  }

  /** The dictionary after the first n queries of the window from `first`: the nested counts of
      their rows, or the error of the earliest failing query. */
  function WindowCounts(first: int, n: nat, distribution: string, paginate: string -> Fetch): Result<Counts>
  {
    match WindowRows(first, n, distribution, paginate)
    case Ok(rows) => Ok(Tally(rows))
    case Err(e) => Err(e)
  }

  /** What aggregate_data_by_minute returns for window `current`: the counts of the 60 seconds
      current - 58 .. current + 1, or the error of the earliest failing query. */
  function Aggregated(current: int, distribution: string, paginate: string -> Fetch): Result<Counts>
  {
    WindowCounts(current - 58, |WindowSeconds(current)|, distribution, paginate)
  }

  lemma AggregatedValid(current: int, distribution: string, paginate: string -> Fetch)
    ensures Aggregated(current, distribution, paginate).Ok? ==> NestedValid(Aggregated(current, distribution, paginate).value)
  {
    if WindowRows(current - 58, 60, distribution, paginate).Ok? {
      TallyValid(WindowRows(current - 58, 60, distribution, paginate).value);
    }
  }

  lemma AggregatedFails(current: int, distribution: string, paginate: string -> Fetch, i: nat)
    requires i <= 60
    requires WindowCounts(current - 58, i, distribution, paginate).Err?
    ensures Aggregated(current, distribution, paginate) == WindowCounts(current - 58, i, distribution, paginate)
  {
    WindowRowsStaysFailed(current - 58, i, 60, distribution, paginate);
  }

  /** The inner loop of aggregate_data_by_minute: one query's rows folded into the dictionary. */
  method AccumulateRows(dict: Counts, rows: seq<CountRow>) returns (result: Counts)
    ensures result == AddRows(dict, rows)
  {
    result := dict;
    for j := 0 to |rows|
      invariant result == AddRows(dict, rows[..j])
    {
      assert rows[..j + 1][..j] == rows[..j];
      result := AddRow(result, rows[j]);
    }
    assert rows[..|rows|] == rows;
  }

  /** aggregate_data_by_minute: 60 queries, for current - 58 .. current + 1, each folded into the
      dictionary; the first failing query is raised and no dictionary is returned. `processed` lists
      the seconds whose query succeeded, as the function logs them. */
  method AggregateDataByMinute(current: int, distribution: string, paginate: string -> Fetch)
    returns (r: Result<Counts>, processed: seq<int>)
    ensures r == Aggregated(current, distribution, paginate)
    ensures |processed| <= 60 && processed == WindowSeconds(current)[..|processed|]
    ensures r.Ok? <==> |processed| == 60
  {
    var timestampCounter := current - 59;
    var dict: Counts := Empty();
    processed := [];
    ghost var done: nat := 0;
    while timestampCounter <= current
      invariant done == timestampCounter - (current - 59) <= 60
      invariant |processed| == done
      invariant processed == WindowSeconds(current)[..done]
      invariant WindowCounts(current - 58, done, distribution, paginate) == Ok(dict)
    {
      timestampCounter := timestampCounter + 1;
      var response;
      response, dict := QueryAndAccumulate(timestampCounter, distribution, paginate, dict, current - 58, done);
      if response.Err? {
        AggregatedFails(current, distribution, paginate, done + 1);
        return Err(response.error), processed;
      }
      WindowSecondsGrow(current, done);
      processed := processed + [timestampCounter];
      done := done + 1;
    }
    r := Ok(dict);
  }

  /** One iteration of aggregate_data_by_minute: the query for `second`, the (i+1)-th second of the
      window from `first`, folded into the dictionary when it succeeds. */
  method QueryAndAccumulate(second: int, distribution: string, paginate: string -> Fetch, dict: Counts,
                            ghost first: int, ghost i: nat)
    returns (response: Result<seq<CountRow>>, dict': Counts)
    requires second == first + i
    requires WindowCounts(first, i, distribution, paginate) == Ok(dict)
    ensures response.Err? ==> paginate(QueryKey(first + i, distribution)).ReadFailed?
    ensures WindowCounts(first, i + 1, distribution, paginate) == if response.Ok? then Ok(dict') else Err(response.error)
  {
    WindowCountsStep(first, i, distribution, paginate, dict);
    response := DynamodbQuery(second, distribution, paginate);
    ghost var fetch := paginate(QueryKey(first + i, distribution));
    assert QueryKey(second, distribution) == QueryKey(first + i, distribution);
    if response.Err? {
      assert fetch.ReadFailed? && response == Err(QueryFailed(QueryKey(first + i, distribution)));
      dict' := dict;
      return;
    }
    assert fetch.Pages? && response == Ok(Project(Flatten(fetch.pages)));
    dict' := AccumulateRows(dict, response.value);
  }

  /** One more query either fails the window with its error or folds its rows into the dictionary. */
  lemma WindowCountsStep(first: int, i: nat, distribution: string, paginate: string -> Fetch, dict: Counts)
    requires WindowCounts(first, i, distribution, paginate) == Ok(dict)
    ensures WindowCounts(first, i + 1, distribution, paginate)
         == match paginate(QueryKey(first + i, distribution))
            case ReadFailed => Err(QueryFailed(QueryKey(first + i, distribution)))
            case Pages(pages) => Ok(AddRows(dict, Project(Flatten(pages))))
  {
    var rowsSoFar := WindowRows(first, i, distribution, paginate).value;
    WindowRowsStep(first, i, distribution, paginate);
    match paginate(QueryKey(first + i, distribution))
    case ReadFailed =>
    case Pages(pages) =>
      AddRowsAppend(Empty(), rowsSoFar, Project(Flatten(pages)));
  }

  lemma WindowRowsStep(first: int, i: nat, distribution: string, paginate: string -> Fetch)
    requires WindowRows(first, i, distribution, paginate).Ok?
    ensures WindowRows(first, i + 1, distribution, paginate)
         == match paginate(QueryKey(first + i, distribution))
            case ReadFailed => Err(QueryFailed(QueryKey(first + i, distribution)))
            case Pages(pages) => Ok(WindowRows(first, i, distribution, paginate).value + Project(Flatten(pages)))
  {
  }

  /** Once a query fails, the window fails with that query's error, however many seconds follow. */
  lemma {:induction false} WindowRowsStaysFailed(first: int, i: nat, n: nat, distribution: string, paginate: string -> Fetch)
    requires i <= n
    requires WindowRows(first, i, distribution, paginate).Err?
    ensures WindowRows(first, n, distribution, paginate) == WindowRows(first, i, distribution, paginate)
  {
    if n > i {
      WindowRowsStaysFailed(first, i, n - 1, distribution, paginate);
    }
  }

  /** The window succeeds exactly when no query of its seconds raises. */
  lemma WindowRowsOk(first: int, n: nat, distribution: string, paginate: string -> Fetch)
    ensures WindowRows(first, n, distribution, paginate).Ok?
        <==> forall second | first <= second < first + n :: paginate(QueryKey(second, distribution)).Pages?
  {
    if WindowRows(first, n, distribution, paginate).Ok? {
      WindowRowsAllPages(first, n, distribution, paginate);
    } else {
      WindowRowsFailingSecond(first, n, distribution, paginate);
    }
  }

  lemma {:induction false} WindowRowsAllPages(first: int, n: nat, distribution: string, paginate: string -> Fetch)
    requires WindowRows(first, n, distribution, paginate).Ok?
    ensures forall second | first <= second < first + n :: paginate(QueryKey(second, distribution)).Pages?
  {
    if n > 0 {
      var prev := WindowRows(first, n - 1, distribution, paginate);
      var fetch := paginate(QueryKey(first + n - 1, distribution));
      assert prev.Ok? && fetch.Pages? by {
        if prev.Err? || fetch.ReadFailed? {
          assert false;
        }
      }
      WindowRowsAllPages(first, n - 1, distribution, paginate);
      forall second | first <= second < first + n
        ensures paginate(QueryKey(second, distribution)).Pages?
      {
        if second == first + n - 1 {
          assert QueryKey(second, distribution) == QueryKey(first + n - 1, distribution);
        }
      }
    }
  }

  lemma {:induction false} WindowRowsFailingSecond(first: int, n: nat, distribution: string, paginate: string -> Fetch)
    requires WindowRows(first, n, distribution, paginate).Err?
    ensures exists second | first <= second < first + n :: paginate(QueryKey(second, distribution)).ReadFailed?
  {
    if WindowRows(first, n - 1, distribution, paginate).Err? {
      WindowRowsFailingSecond(first, n - 1, distribution, paginate);
    } else {
      WindowRowsStep(first, n - 1, distribution, paginate);
    }
  }

  /** Every row of a successful window comes from an item of some page of one of its seconds. */
  lemma {:induction false} WindowRowsFrom(first: int, n: nat, distribution: string, paginate: string -> Fetch, row: CountRow)
    requires WindowRows(first, n, distribution, paginate).Ok?
    requires row in WindowRows(first, n, distribution, paginate).value
    ensures exists second | first <= second < first + n :: FetchHasRow(paginate(QueryKey(second, distribution)), row)
  {
    var rows := WindowRows(first, n - 1, distribution, paginate).value;
    var last := paginate(QueryKey(first + n - 1, distribution));
    if row in rows {
      WindowRowsFrom(first, n - 1, distribution, paginate, row);
    } else {
      FlattenHasRow(last.pages, row);
      assert FetchHasRow(last, row);
    }
  }

  /** `row` is the projection of an item on one of the fetched pages. */
  ghost predicate FetchHasRow(fetch: Fetch, row: CountRow)
  {
    fetch.Pages? && exists page, item | page in fetch.pages && item in page :: row == ToRow(item)
  }

  lemma {:induction false} FlattenHasRow(pages: seq<seq<Item>>, row: CountRow)
    requires row in Project(Flatten(pages))
    ensures exists page, item | page in pages && item in page :: row == ToRow(item)
  {
    var items := Flatten(pages);
    var k :| 0 <= k < |items| && Project(items)[k] == row;
    var init, last := pages[..|pages| - 1], pages[|pages| - 1];
    assert items == Flatten(init) + last;
    if k < |Flatten(init)| {
      assert Project(Flatten(init))[k] == row;
      FlattenHasRow(init, row);
      var page, item :| page in init && item in page && row == ToRow(item);
      assert page in pages;
    } else {
      assert last[k - |Flatten(init)|] in last;
    }
  }

  /** One dimension of a metric point. */
  datatype Dimension = Dimension(name: string, value: string)

  /** One metric datum sent by put_metric_data, with the namespace of its call. */
  datatype MetricPoint = MetricPoint(namespace: string, metricName: string, timestamp: string,
                                     dimensions: seq<Dimension>, value: real, unit: string,
                                     storageResolution: int)

  const CountNamespace: string := "CloudFront by Edge Location - Count"
  const PercentNamespace: string := "CloudFront by Edge Location - Percent"
  const StorageResolution: int := 60

  /** The status classes, in the order status_groups is filled. */
  const ClassDigits: seq<char> := ['2', '4', '5']

  /** The cs-host and x-edge-location dimensions every point carries. */
  function Dimensions(distribution: string, edge: string): seq<Dimension>
  {
    [Dimension("cs-host", distribution), Dimension("x-edge-location", edge)]
  }

  function CountPoint(timestamp: string, distribution: string, edge: string, name: string, count: int): MetricPoint
  {
    MetricPoint(CountNamespace, name, timestamp, Dimensions(distribution, edge), count as real, "Count", StorageResolution)
  }

  function PercentPoint(timestamp: string, distribution: string, edge: string, name: string, percent: real): MetricPoint
  {
    MetricPoint(PercentNamespace, name, timestamp, Dimensions(distribution, edge), percent, "Percent", StorageResolution)
  }

  function AnyCode(): string -> bool
  {
    (code: string) => true
  }

  function HasDigit(digit: char): string -> bool
  {
    (code: string) => digit in code
  }

  /** sum(status_codes.values()): all requests of an edge location. */
  function Total(codes: Dict<int>): int
    requires codes.Valid()
  {
    SumWhere(codes, AnyCode())
  }

  /** The requests whose status code contains the digit anywhere, not only in front. */
  function ClassCount(codes: Dict<int>, digit: char): int
    requires codes.Valid()
  {
    SumWhere(codes, HasDigit(digit))
  }

  /** f'{group}xx' */
  function ClassName(digit: char): string
  {
    [digit] + "xx"
  }

  /** count * 100.0 / status_sum, as an exact fraction; a zero total has no percentage. */
  function Percentage(count: int, total: int): real
    requires total != 0
  {
    (count as real) * 100.0 / (total as real)
  }

  /** status_groups after the classes of `digits`. */
  function StatusGroupsOver(codes: Dict<int>, digits: seq<char>): Dict<int>
    requires codes.Valid()
  {
    if digits == [] then Empty()
    else
      var digit := digits[|digits| - 1];
      StatusGroupsOver(codes, digits[..|digits| - 1]).Put(ClassName(digit), ClassCount(codes, digit))
  }

  /** All three classes are present, in the order 2xx, 4xx, 5xx, even when their count is zero,
      and each holds its class count. */
  lemma StatusGroupsShape(codes: Dict<int>)
    requires codes.Valid()
    ensures var groups := StatusGroupsOver(codes, ClassDigits);
            && groups.keys == ["2xx", "4xx", "5xx"]
            && "2xx" in groups.entries && groups.entries["2xx"] == ClassCount(codes, '2')
            && "4xx" in groups.entries && groups.entries["4xx"] == ClassCount(codes, '4')
            && "5xx" in groups.entries && groups.entries["5xx"] == ClassCount(codes, '5')
  {
    StatusGroupsUnfold(codes);
    ThreeClasses(ClassCount(codes, '2'), ClassCount(codes, '4'), ClassCount(codes, '5'));
  }

  /** The fold over the digits is three insertions, in order. */
  lemma StatusGroupsUnfold(codes: Dict<int>)
    requires codes.Valid()
    ensures StatusGroupsOver(codes, ClassDigits)
         == Empty<int>().Put("2xx", ClassCount(codes, '2')).Put("4xx", ClassCount(codes, '4')).Put("5xx", ClassCount(codes, '5'))
  {
    assert ClassName('2') == "2xx" && ClassName('4') == "4xx" && ClassName('5') == "5xx";
    assert ClassDigits[..0] == [];
    StatusGroupsStep(codes, 0);
    StatusGroupsStep(codes, 1);
    StatusGroupsStep(codes, 2);
    assert ClassDigits[..3] == ClassDigits;
  }

  lemma StatusGroupsStep(codes: Dict<int>, i: nat)
    requires codes.Valid()
    requires i < |ClassDigits|
    ensures StatusGroupsOver(codes, ClassDigits[..i + 1])
         == StatusGroupsOver(codes, ClassDigits[..i]).Put(ClassName(ClassDigits[i]), ClassCount(codes, ClassDigits[i]))
  {
    assert ClassDigits[..i + 1][..i] == ClassDigits[..i];
  }

  lemma ThreeClasses(c2: int, c4: int, c5: int)
    ensures var groups := Empty<int>().Put("2xx", c2).Put("4xx", c4).Put("5xx", c5);
            && groups.keys == ["2xx", "4xx", "5xx"]
            && "2xx" in groups.entries && groups.entries["2xx"] == c2
            && "4xx" in groups.entries && groups.entries["4xx"] == c4
            && "5xx" in groups.entries && groups.entries["5xx"] == c5
  {
    assert "4xx"[0] != "2xx"[0];
    assert "5xx"[0] != "2xx"[0] && "5xx"[0] != "4xx"[0];
  }

  /** The loop that fills status_groups. */
  method SumStatusGroups(codes: Dict<int>) returns (statusGroups: Dict<int>)
    requires codes.Valid()
    ensures statusGroups == StatusGroupsOver(codes, ClassDigits)
    ensures statusGroups.keys == ["2xx", "4xx", "5xx"]
    ensures "2xx" in statusGroups.entries && statusGroups.entries["2xx"] == ClassCount(codes, '2')
    ensures "4xx" in statusGroups.entries && statusGroups.entries["4xx"] == ClassCount(codes, '4')
    ensures "5xx" in statusGroups.entries && statusGroups.entries["5xx"] == ClassCount(codes, '5')
  {
    statusGroups := Empty();
    for i := 0 to |ClassDigits|
      invariant statusGroups == StatusGroupsOver(codes, ClassDigits[..i])
    {
      var group := ClassDigits[i];
      assert ClassDigits[..i + 1][..i] == ClassDigits[..i];
      statusGroups := statusGroups.Put(ClassName(group), ClassCount(codes, group));
    }
    assert ClassDigits[..|ClassDigits|] == ClassDigits;
    StatusGroupsShape(codes);
  }

  /** What a stretch of put_metric_data calls sends, and the exception that ends it, if any. */
  datatype Emission = Emission(points: seq<MetricPoint>, failure: Option<Failure>)

  /** The points of the class loop for the given class names: for each, a Count point and then a
      Percent point; with a zero total the first percentage divides by zero after its Count point. */
  function ClassPoints(timestamp: string, distribution: string, edge: string, groups: Dict<int>,
                       names: seq<string>, total: int): Emission
    requires forall name | name in names :: name in groups.entries
  {
    if names == [] then Emission([], None)
    else
      var prev := ClassPoints(timestamp, distribution, edge, groups, names[..|names| - 1], total);
      var name := names[|names| - 1];
      var countPoint := CountPoint(timestamp, distribution, edge, name, groups.entries[name]);
      if prev.failure.Some? then prev
      else if total == 0 then Emission(prev.points + [countPoint], Some(DivisionByZero(edge)))
      else
        var percentPoint := PercentPoint(timestamp, distribution, edge, name, Percentage(groups.entries[name], total));
        Emission(prev.points + [countPoint, percentPoint], None)
  }

  lemma ClassPointsStep(timestamp: string, distribution: string, edge: string, groups: Dict<int>,
                        names: seq<string>, i: nat, total: int)
    requires i < |names|
    requires forall name | name in names :: name in groups.entries
    requires ClassPoints(timestamp, distribution, edge, groups, names[..i], total).failure == None
    ensures ClassPoints(timestamp, distribution, edge, groups, names[..i + 1], total)
         == var prev := ClassPoints(timestamp, distribution, edge, groups, names[..i], total).points;
            var countPoint := CountPoint(timestamp, distribution, edge, names[i], groups.entries[names[i]]);
            if total == 0 then Emission(prev + [countPoint], Some(DivisionByZero(edge)))
            else Emission(prev + [countPoint, PercentPoint(timestamp, distribution, edge, names[i], Percentage(groups.entries[names[i]], total))], None)
  {
    assert names[..i + 1][..i] == names[..i];
  }

  /** Everything the handler sends for one edge location: RequestCount, then the class points. */
  function EdgePoints(timestamp: string, distribution: string, edge: string, codes: Dict<int>): Emission
    requires codes.Valid()
  {
    var total := Total(codes);
    var groups := StatusGroupsOver(codes, ClassDigits);
    StatusGroupsShape(codes);
    var classes := ClassPoints(timestamp, distribution, edge, groups, groups.keys, total);
    Emission([CountPoint(timestamp, distribution, edge, "RequestCount", total)] + classes.points, classes.failure)
  }

  /** The points of the handler's loop over the given edge locations, which stops at the first
      exception. */
  function EdgesEmission(timestamp: string, distribution: string, agg: Counts, edges: seq<string>): Emission
    requires NestedValid(agg)
    requires forall edge | edge in edges :: edge in agg.entries
  {
    if edges == [] then Emission([], None)
    else
      var prev := EdgesEmission(timestamp, distribution, agg, edges[..|edges| - 1]);
      var edge := edges[|edges| - 1];
      if prev.failure.Some? then prev
      else
        var next := EdgePoints(timestamp, distribution, edge, agg.entries[edge]);
        Emission(prev.points + next.points, next.failure)
  }

  lemma EdgesEmissionStep(timestamp: string, distribution: string, agg: Counts, edges: seq<string>, i: nat)
    requires NestedValid(agg)
    requires forall edge | edge in edges :: edge in agg.entries
    requires i < |edges|
    requires EdgesEmission(timestamp, distribution, agg, edges[..i]).failure == None
    ensures EdgesEmission(timestamp, distribution, agg, edges[..i + 1])
         == var next := EdgePoints(timestamp, distribution, edges[i], agg.entries[edges[i]]);
            Emission(EdgesEmission(timestamp, distribution, agg, edges[..i]).points + next.points, next.failure)
  {
    assert edges[..i + 1][..i] == edges[..i];
  }

  /** What lambda_handler sends for window `current`: nothing if the aggregation raises, else the
      points of every edge location in dictionary order. */
  function HandlerEmission(timestamp: string, current: int, distribution: string, paginate: string -> Fetch): Emission
  {
    AggregatedValid(current, distribution, paginate);
    match Aggregated(current, distribution, paginate)
    case Err(e) => Emission([], Some(e))
    case Ok(agg) => EdgesEmission(timestamp, distribution, agg, agg.keys)
  }

  /** The body of the handler's loop for one edge location: the total, RequestCount, the class
      counts, then the class points. */
  method PutEdgeMetrics(timestamp: string, distribution: string, edge: string, codes: Dict<int>)
    returns (points: seq<MetricPoint>, failure: Option<Failure>)
    requires codes.Valid()
    ensures Emission(points, failure) == EdgePoints(timestamp, distribution, edge, codes)
  {
    var statusSum := Total(codes);
    var statusGroups := SumStatusGroups(codes);
    StatusGroupsShape(codes);
    var classPoints;
    classPoints, failure := PutClassMetrics(timestamp, distribution, edge, statusGroups, statusSum);
    points := [CountPoint(timestamp, distribution, edge, "RequestCount", statusSum)] + classPoints;
  }

  /** The handler's loop over status_groups: a Count point, then a Percent point, per class. */
  method PutClassMetrics(timestamp: string, distribution: string, edge: string, statusGroups: Dict<int>, statusSum: int)
    returns (points: seq<MetricPoint>, failure: Option<Failure>)
    requires forall name | name in statusGroups.keys :: name in statusGroups.entries
    ensures Emission(points, failure) == ClassPoints(timestamp, distribution, edge, statusGroups, statusGroups.keys, statusSum)
  {
    var names := statusGroups.keys;
    points := [];
    for i := 0 to |names|
      invariant ClassPoints(timestamp, distribution, edge, statusGroups, names[..i], statusSum) == Emission(points, None)
    {
      var name := names[i];
      var count := statusGroups.entries[name];
      ClassPointsStep(timestamp, distribution, edge, statusGroups, names, i, statusSum);
      points := points + [CountPoint(timestamp, distribution, edge, name, count)];
      if statusSum == 0 {
        ClassPointsStaysFailed(timestamp, distribution, edge, statusGroups, names, i + 1, statusSum);
        return points, Some(DivisionByZero(edge));
      }
      points := points + [PercentPoint(timestamp, distribution, edge, name, Percentage(count, statusSum))];
    }
    assert names[..|names|] == names;
    failure := None;
  }

  /** Once a class fails, the remaining classes send nothing. */
  lemma {:induction false} ClassPointsStaysFailed(timestamp: string, distribution: string, edge: string, groups: Dict<int>,
                                                  names: seq<string>, i: nat, total: int)
    requires i <= |names|
    requires forall name | name in names :: name in groups.entries
    requires ClassPoints(timestamp, distribution, edge, groups, names[..i], total).failure.Some?
    ensures ClassPoints(timestamp, distribution, edge, groups, names, total)
         == ClassPoints(timestamp, distribution, edge, groups, names[..i], total)
  {
    if i < |names| {
      var init := names[..|names| - 1];
      assert init[..i] == names[..i];
      ClassPointsStaysFailed(timestamp, distribution, edge, groups, init, i, total);
    } else {
      assert names[..i] == names;
    }
  }

  /** Once an edge location fails, the remaining ones send nothing. */
  lemma {:induction false} EdgesEmissionStaysFailed(timestamp: string, distribution: string, agg: Counts, edges: seq<string>, i: nat)
    requires NestedValid(agg)
    requires forall edge | edge in edges :: edge in agg.entries
    requires i <= |edges|
    requires EdgesEmission(timestamp, distribution, agg, edges[..i]).failure.Some?
    ensures EdgesEmission(timestamp, distribution, agg, edges) == EdgesEmission(timestamp, distribution, agg, edges[..i])
  {
    if i < |edges| {
      var init := edges[..|edges| - 1];
      assert init[..i] == edges[..i];
      EdgesEmissionStaysFailed(timestamp, distribution, agg, init, i);
    } else {
      assert edges[..i] == edges;
    }
  }

  /** lambda_handler for the window second `current`: aggregate, then send the points of every edge
      location; an exception ends the run. */
  method LambdaHandler(timestamp: string, current: int, distribution: string, paginate: string -> Fetch)
    returns (points: seq<MetricPoint>, failure: Option<Failure>)
    ensures Emission(points, failure) == HandlerEmission(timestamp, current, distribution, paginate)
  {
    var aggregated, _ := AggregateDataByMinute(current, distribution, paginate);
    if aggregated.Err? {
      return [], Some(aggregated.error);
    }
    AggregatedValid(current, distribution, paginate);
    points, failure := PutAllEdges(timestamp, distribution, aggregated.value);
  }

  /** The handler's loop over the aggregated dictionary, in its key order. */
  method PutAllEdges(timestamp: string, distribution: string, agg: Counts)
    returns (points: seq<MetricPoint>, failure: Option<Failure>)
    requires NestedValid(agg)
    ensures Emission(points, failure) == EdgesEmission(timestamp, distribution, agg, agg.keys)
  {
    points := [];
    for i := 0 to |agg.keys|
      invariant EdgesEmission(timestamp, distribution, agg, agg.keys[..i]) == Emission(points, None)
    {
      var edge := agg.keys[i];
      var edgePoints, edgeFailure := PutEdgeMetrics(timestamp, distribution, edge, agg.entries[edge]);
      EdgesEmissionStep(timestamp, distribution, agg, agg.keys, i);
      points := points + edgePoints;
      if edgeFailure.Some? {
        EdgesEmissionStaysFailed(timestamp, distribution, agg, agg.keys, i + 1);
        return points, edgeFailure;
      }
    }
    assert agg.keys[..|agg.keys|] == agg.keys;
    failure := None;
  }

  /** With a non-zero total an edge location gets exactly seven points: RequestCount with the total,
      then for 2xx, 4xx and 5xx in turn the class count and its percentage of the total, all with
      the same timestamp, dimensions and storage resolution. */
  lemma EdgePointsSeven(timestamp: string, distribution: string, edge: string, codes: Dict<int>)
    requires codes.Valid()
    requires Total(codes) != 0
    ensures EdgePoints(timestamp, distribution, edge, codes)
         == var total := Total(codes);
            var c2, c4, c5 := ClassCount(codes, '2'), ClassCount(codes, '4'), ClassCount(codes, '5');
            Emission([CountPoint(timestamp, distribution, edge, "RequestCount", total),
                      CountPoint(timestamp, distribution, edge, "2xx", c2),
                      PercentPoint(timestamp, distribution, edge, "2xx", Percentage(c2, total)),
                      CountPoint(timestamp, distribution, edge, "4xx", c4),
                      PercentPoint(timestamp, distribution, edge, "4xx", Percentage(c4, total)),
                      CountPoint(timestamp, distribution, edge, "5xx", c5),
                      PercentPoint(timestamp, distribution, edge, "5xx", Percentage(c5, total))], None)
  {
    StatusGroupsShape(codes);
    var total := Total(codes);
    var groups := StatusGroupsOver(codes, ClassDigits);
    var names := groups.keys;
    assert names[0] == "2xx" && names[1] == "4xx" && names[2] == "5xx";
    assert groups.entries["2xx"] == ClassCount(codes, '2');
    assert groups.entries["4xx"] == ClassCount(codes, '4');
    assert groups.entries["5xx"] == ClassCount(codes, '5');
    ClassPointsThree(timestamp, distribution, edge, groups, names, total);
    var classes := ClassPoints(timestamp, distribution, edge, groups, names, total);
    var c2, c4, c5 := ClassCount(codes, '2'), ClassCount(codes, '4'), ClassCount(codes, '5');
    assert classes == Emission([CountPoint(timestamp, distribution, edge, "2xx", c2),
                                PercentPoint(timestamp, distribution, edge, "2xx", Percentage(c2, total)),
                                CountPoint(timestamp, distribution, edge, "4xx", c4),
                                PercentPoint(timestamp, distribution, edge, "4xx", Percentage(c4, total)),
                                CountPoint(timestamp, distribution, edge, "5xx", c5),
                                PercentPoint(timestamp, distribution, edge, "5xx", Percentage(c5, total))], None);
    var requestCount := CountPoint(timestamp, distribution, edge, "RequestCount", total);
    assert EdgePoints(timestamp, distribution, edge, codes) == Emission([requestCount] + classes.points, classes.failure);
    PrependToSix(requestCount, classes.points);
  }

  lemma PrependToSix<T>(first: T, rest: seq<T>)
    requires |rest| == 6
    ensures [first] + rest == [first, rest[0], rest[1], rest[2], rest[3], rest[4], rest[5]]
  {
    assert rest == [rest[0], rest[1], rest[2], rest[3], rest[4], rest[5]];
  }

  /** Three class names with a non-zero total give a Count and a Percent point each, in order. */
  lemma ClassPointsThree(timestamp: string, distribution: string, edge: string, groups: Dict<int>,
                         names: seq<string>, total: int)
    requires |names| == 3
    requires forall name | name in names :: name in groups.entries
    requires total != 0
    ensures ClassPoints(timestamp, distribution, edge, groups, names, total)
         == Emission([CountPoint(timestamp, distribution, edge, names[0], groups.entries[names[0]]),
                      PercentPoint(timestamp, distribution, edge, names[0], Percentage(groups.entries[names[0]], total)),
                      CountPoint(timestamp, distribution, edge, names[1], groups.entries[names[1]]),
                      PercentPoint(timestamp, distribution, edge, names[1], Percentage(groups.entries[names[1]], total)),
                      CountPoint(timestamp, distribution, edge, names[2], groups.entries[names[2]]),
                      PercentPoint(timestamp, distribution, edge, names[2], Percentage(groups.entries[names[2]], total))], None)
  {
    assert names[..0] == [];
    ClassPointsStep(timestamp, distribution, edge, groups, names, 0, total);
    ClassPointsStep(timestamp, distribution, edge, groups, names, 1, total);
    ClassPointsStep(timestamp, distribution, edge, groups, names, 2, total);
    assert names[..3] == names;
  }

  lemma EdgePointsCount(timestamp: string, distribution: string, edge: string, codes: Dict<int>)
    requires codes.Valid()
    requires Total(codes) != 0
    ensures EdgePoints(timestamp, distribution, edge, codes).failure == None
    ensures |EdgePoints(timestamp, distribution, edge, codes).points| == 7
  {
    EdgePointsSeven(timestamp, distribution, edge, codes);
  }

  /** Block i of seven points of a + b lies in a, or is b when b is the block after a's. */
  lemma BlockOfAppend(a: seq<MetricPoint>, b: seq<MetricPoint>, n: nat, i: nat)
    requires |a| == 7 * n && |b| == 7
    requires i <= n
    ensures 7 * i + 7 <= |a| + |b|
    ensures (a + b)[7 * i..7 * i + 7] == if i < n then a[7 * i..7 * i + 7] else b
  {
  }

  /** With a zero total the first percentage divides by zero: RequestCount and the 2xx count are
      sent, then the handler raises. */
  lemma EdgePointsZeroTotal(timestamp: string, distribution: string, edge: string, codes: Dict<int>)
    requires codes.Valid()
    requires Total(codes) == 0
    ensures EdgePoints(timestamp, distribution, edge, codes)
         == Emission([CountPoint(timestamp, distribution, edge, "RequestCount", 0),
                      CountPoint(timestamp, distribution, edge, "2xx", ClassCount(codes, '2'))],
                     Some(DivisionByZero(edge)))
  {
    StatusGroupsShape(codes);
    var groups := StatusGroupsOver(codes, ClassDigits);
    var names := groups.keys;
    assert names[..0] == [];
    ClassPointsStep(timestamp, distribution, edge, groups, names, 0, 0);
    ClassPointsStaysFailed(timestamp, distribution, edge, groups, names, 1, 0);
  }

  /** Every point sent for an edge location carries the window's timestamp, the distribution and
      the edge location as dimensions, and a storage resolution of 60 seconds. */
  lemma EdgePointsShared(timestamp: string, distribution: string, edge: string, codes: Dict<int>)
    requires codes.Valid()
    ensures forall point | point in EdgePoints(timestamp, distribution, edge, codes).points ::
              && point.timestamp == timestamp
              && point.dimensions == Dimensions(distribution, edge)
              && point.storageResolution == 60
  {
    if Total(codes) == 0 {
      EdgePointsZeroTotal(timestamp, distribution, edge, codes);
    } else {
      EdgePointsSeven(timestamp, distribution, edge, codes);
    }
  }

  /** A class never counts more requests than the edge location has, but 2xx, 4xx and 5xx can
      together count more, because a code such as "520" belongs to two classes. */
  lemma ClassCountBounds(codes: Dict<int>, digit: char)
    requires codes.Valid()
    requires forall code | code in codes.entries :: codes.entries[code] >= 0
    ensures 0 <= ClassCount(codes, digit) <= Total(codes)
  {
    SumOverMonotone(codes.keys, codes.entries, HasDigit(digit), AnyCode());
  }

  lemma ClassesOverlap()
    ensures var codes := Dict(["520"], map["520" := 1]);
            && codes.Valid()
            && Total(codes) == 1
            && ClassCount(codes, '2') == 1
            && ClassCount(codes, '4') == 0
            && ClassCount(codes, '5') == 1
  {
    var codes := Dict(["520"], map["520" := 1]);
    assert codes.keys[..0] == [];
    assert '2' in "520" && '5' in "520" && '4' !in "520";
  }

  /** A class count between 0 and a positive total is a percentage between 0 and 100. */
  lemma PercentageBounds(count: int, total: int)
    requires 0 <= count <= total
    requires total > 0
    ensures 0.0 <= Percentage(count, total) <= 100.0
  {
    var p := Percentage(count, total);
    assert p * (total as real) == (count as real) * 100.0;
  }

  /** Every item the paginator returns has a count of at least 1, as every stored counter has. */
  ghost predicate PositivePages(paginate: string -> Fetch)
  {
    forall key :: FetchPositive(paginate(key))
  }

  ghost predicate FetchPositive(fetch: Fetch)
  {
    fetch.Pages? ==> forall page, item | page in fetch.pages && item in page :: item.statusCount >= 1
  }

  lemma WindowRowsPositive(first: int, n: nat, distribution: string, paginate: string -> Fetch)
    requires PositivePages(paginate)
    requires WindowRows(first, n, distribution, paginate).Ok?
    ensures forall row | row in WindowRows(first, n, distribution, paginate).value :: row.statusCount >= 1
  {
    forall row | row in WindowRows(first, n, distribution, paginate).value
      ensures row.statusCount >= 1
    {
      WindowRowsFrom(first, n, distribution, paginate, row);
      var second :| first <= second < first + n && FetchHasRow(paginate(QueryKey(second, distribution)), row);
      assert FetchPositive(paginate(QueryKey(second, distribution)));
    }
  }

  /** With every row counting at least 1, every edge location in the dictionary has a total of at
      least 1. */
  lemma TallyTotalPositive(rows: seq<CountRow>, edge: string)
    requires forall row | row in rows :: row.statusCount >= 1
    requires edge in Tally(rows).entries
    ensures Tally(rows).entries[edge].Valid()
    ensures Total(Tally(rows).entries[edge]) >= 1
  {
    TallyValid(rows);
    AddRowsEdges(Empty(), rows);
    EdgeSetMembers(rows, edge);
    AddRowsSum(Empty(), rows, edge, AnyCode());
    var row :| row in rows && row.edgeLocation == edge;
    assert AtEdge(edge, AnyCode())(row);
    RowSumPositive(rows, AtEdge(edge, AnyCode()));
  }

  /** The handler's loop sends seven points per edge location, one block after the other, when no
      total is zero. */
  lemma {:induction false} EdgesEmissionBlocks(timestamp: string, distribution: string, agg: Counts, edges: seq<string>)
    requires NestedValid(agg)
    requires forall edge | edge in edges :: edge in agg.entries && Total(agg.entries[edge]) != 0
    ensures EdgesEmission(timestamp, distribution, agg, edges).failure == None
    ensures |EdgesEmission(timestamp, distribution, agg, edges).points| == 7 * |edges|
    ensures forall i | 0 <= i < |edges| ::
              EdgesEmission(timestamp, distribution, agg, edges).points[7 * i..7 * i + 7]
              == EdgePoints(timestamp, distribution, edges[i], agg.entries[edges[i]]).points
  {
    EdgesEmissionLength(timestamp, distribution, agg, edges);
    forall i | 0 <= i < |edges|
      ensures EdgesEmission(timestamp, distribution, agg, edges).points[7 * i..7 * i + 7]
           == EdgePoints(timestamp, distribution, edges[i], agg.entries[edges[i]]).points
    {
      EdgesEmissionBlock(timestamp, distribution, agg, edges, i);
    }
  }

  lemma {:induction false} EdgesEmissionLength(timestamp: string, distribution: string, agg: Counts, edges: seq<string>)
    requires NestedValid(agg)
    requires forall edge | edge in edges :: edge in agg.entries && Total(agg.entries[edge]) != 0
    ensures EdgesEmission(timestamp, distribution, agg, edges).failure == None
    ensures |EdgesEmission(timestamp, distribution, agg, edges).points| == 7 * |edges|
  {
    if edges != [] {
      var last := edges[|edges| - 1];
      EdgesEmissionLength(timestamp, distribution, agg, edges[..|edges| - 1]);
      EdgePointsCount(timestamp, distribution, last, agg.entries[last]);
    }
  }

  lemma {:induction false} EdgesEmissionBlock(timestamp: string, distribution: string, agg: Counts, edges: seq<string>, i: nat)
    requires NestedValid(agg)
    requires forall edge | edge in edges :: edge in agg.entries && Total(agg.entries[edge]) != 0
    requires i < |edges|
    ensures 7 * i + 7 <= |EdgesEmission(timestamp, distribution, agg, edges).points|
    ensures EdgesEmission(timestamp, distribution, agg, edges).points[7 * i..7 * i + 7]
         == EdgePoints(timestamp, distribution, edges[i], agg.entries[edges[i]]).points
  {
    var init, last := edges[..|edges| - 1], edges[|edges| - 1];
    EdgesEmissionLength(timestamp, distribution, agg, init);
    EdgePointsCount(timestamp, distribution, last, agg.entries[last]);
    var a := EdgesEmission(timestamp, distribution, agg, init).points;
    var b := EdgePoints(timestamp, distribution, last, agg.entries[last]).points;
    assert EdgesEmission(timestamp, distribution, agg, edges).points == a + b;
    BlockOfAppend(a, b, |init|, i);
    if i < |init| {
      EdgesEmissionBlock(timestamp, distribution, agg, init, i);
      assert edges[i] == init[i];
    } else {
      assert edges[i] == last;
    }
  }

  /** When every stored count is at least 1 and the 60 queries succeed, the handler never divides
      by zero: it sends exactly seven points per edge location, in dictionary order. */
  lemma HandlerSevenPointsPerEdge(timestamp: string, current: int, distribution: string, paginate: string -> Fetch)
    requires PositivePages(paginate)
    requires Aggregated(current, distribution, paginate).Ok?
    ensures var agg := Aggregated(current, distribution, paginate).value;
            var sent := HandlerEmission(timestamp, current, distribution, paginate);
            && NestedValid(agg)
            && sent.failure == None
            && |sent.points| == 7 * |agg.keys|
            && forall i | 0 <= i < |agg.keys| ::
                 sent.points[7 * i..7 * i + 7] == EdgePoints(timestamp, distribution, agg.keys[i], agg.entries[agg.keys[i]]).points
  {
    var rows := WindowRows(current - 58, 60, distribution, paginate).value;
    var agg := Tally(rows);
    assert Aggregated(current, distribution, paginate).value == agg;
    TallyValid(rows);
    WindowRowsPositive(current - 58, 60, distribution, paginate);
    forall edge | edge in agg.keys
      ensures edge in agg.entries && Total(agg.entries[edge]) != 0
    {
      TallyTotalPositive(rows, edge);
    }
    EdgesEmissionBlocks(timestamp, distribution, agg, agg.keys);
  }
}
