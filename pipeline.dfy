/** How the two functions meet in the counter table: the ingest function writes the item of a
    record under its second and host, and the metric function reads the items of the 60 seconds
    of its window for one distribution. */
module Pipeline {
  import opened Wrappers
  import opened Decimal
  import opened CounterTable
  import opened MinuteCounts
  import opened RecordProcessor
  import opened MetricPut

  /** The partition key written for (second, host) is the key queried for (second', distribution)
      exactly when the seconds and the names agree. */
  lemma KeysAgree(second: int, host: string, queried: int, distribution: string)
    ensures PartitionKey(second, host) == QueryKey(queried, distribution) <==> second == queried && host == distribution
  {
    if PartitionKey(second, host) == QueryKey(queried, distribution) {
      assert PartitionKey(second, host) == PartitionKey(queried, distribution);
      PartitionKeyInjective(second, host, queried, distribution);
    }
  }

  /** Window `current` of a distribution reads the item of a record exactly when the record's host
      is that distribution and its rounded second lies in current - 58 .. current + 1. */
  lemma WindowReadsRecord(current: int, distribution: string, second: int, host: string)
    ensures (exists k | 0 <= k < 60 :: QueryKey(WindowSeconds(current)[k], distribution) == PartitionKey(second, host))
        <==> host == distribution && current - 58 <= second <= current + 1
  {
    var seconds := WindowSeconds(current);
    if exists k | 0 <= k < 60 :: QueryKey(seconds[k], distribution) == PartitionKey(second, host) {
      var k :| 0 <= k < 60 && QueryKey(seconds[k], distribution) == PartitionKey(second, host);
      KeysAgree(second, host, seconds[k], distribution);
    }
    if host == distribution && current - 58 <= second <= current + 1 {
      var k := second - current + 58;
      KeysAgree(second, host, seconds[k], distribution);
      assert QueryKey(seconds[k], distribution) == PartitionKey(second, host);
    }
  }

  /** The ttl of a record's item lies at least 841 seconds after the last second queried by any
      window that reads the item (current + 1): the ttl is the rounded second plus 900, and the
      window's last queried second is at most 59 seconds after the record's. */
  lemma TtlOutlivesWindow(millis: int, host: string, status: string, edgeLocation: string, current: int)
    requires current - 58 <= RoundToSecond(millis) <= current + 1
    ensures var ttl := ParseInt(BuildUpdate(millis, host, status, edgeLocation).ttl);
            ttl.Some? && ttl.value >= current + 1 + 841
  {
    TtlRoundTrip(millis, host, status, edgeLocation);
  }

  /** The paginator returns, for every partition key, only items the table holds under that key. */
  ghost predicate Serves(items: map<Key, Item>, paginate: string -> Fetch)
  {
    forall key :: ServesKey(items, key, paginate(key))
  }

  ghost predicate ServesKey(items: map<Key, Item>, key: string, fetch: Fetch)
  {
    fetch.Pages? ==>
      forall page, item | page in fetch.pages && item in page ::
        exists k | k in items :: k.0 == key && items[k] == item
  }

  /** Reading a table whose counts are all at least 1 yields only counts of at least 1. */
  lemma ServedCountsPositive(items: map<Key, Item>, paginate: string -> Fetch)
    requires AllPositive(items)
    requires Serves(items, paginate)
    ensures PositivePages(paginate)
  {
    forall key
      ensures FetchPositive(paginate(key))
    {
      assert ServesKey(items, key, paginate(key));
    }
  }

  /** The ingest handler keeps every stored count at least 1, whether it completes or aborts. */
  lemma IngestKeepsPositive(items: map<Key, Item>, steps: seq<Result<Update>>)
    requires AllPositive(items)
    ensures AllPositive(Ingest(items, steps, 0).items)
  {
    IngestFirstFailure(items, steps);
    var rep := Ingest(items, steps, 0);
    if rep.outcome.Completed? {
      ReplayPositive(items, Applied(steps, |steps|));
    } else {
      ReplayPositive(items, Applied(steps, rep.outcome.index));
    }
  }

  /** A metric run over a table whose stored counts are all at least 1 never divides by zero: when
      its 60 queries succeed it sends seven points for every edge location of the window. */
  lemma StoredTableNeverDividesByZero(items: map<Key, Item>, timestamp: string, current: int, distribution: string,
                                      paginate: string -> Fetch)
    requires AllPositive(items)
    requires Serves(items, paginate)
    ensures var sent := HandlerEmission(timestamp, current, distribution, paginate);
            match Aggregated(current, distribution, paginate)
            case Err(e) => sent == Emission([], Some(e))
            case Ok(agg) => sent.failure == None && |sent.points| == 7 * |agg.keys|
  {
    ServedCountsPositive(items, paginate);
    if Aggregated(current, distribution, paginate).Ok? {
      HandlerSevenPointsPerEdge(timestamp, current, distribution, paginate);
    }
  }

  /** A metric run over the table the ingest handler leaves behind, starting from a table whose
      counts are all at least 1 (an empty one included), never divides by zero, whether the ingest
      run completed or aborted. */
  lemma IngestedTableNeverDividesByZero(items: map<Key, Item>, steps: seq<Result<Update>>, timestamp: string,
                                        current: int, distribution: string, paginate: string -> Fetch)
    requires AllPositive(items)
    requires Serves(Ingest(items, steps, 0).items, paginate)
    ensures var sent := HandlerEmission(timestamp, current, distribution, paginate);
            match Aggregated(current, distribution, paginate)
            case Err(e) => sent == Emission([], Some(e))
            case Ok(agg) => sent.failure == None && |sent.points| == 7 * |agg.keys|
  {
    IngestKeepsPositive(items, steps);
    StoredTableNeverDividesByZero(Ingest(items, steps, 0).items, timestamp, current, distribution, paginate);
  }
}
