/** The ingest function: each stream record is one tab-separated CloudFront real-time log line; its
    status count is bumped in the counter table under its second, distribution, edge location and
    status code. */
module RecordProcessor {
  import opened Wrappers
  import opened Decimal
  import opened Text
  import opened CounterTable

  /** The five leading fields of a log line. */
  datatype LogRecord = LogRecord(timestamp: string, clientIp: string, status: string, host: string, edgeLocation: string)

  const Tab: char := '\t'

  /** values = line.strip().split('\t') and values[0] .. values[4]; a line with fewer than five
      values fails at the first missing index, extra values are ignored. */
  function ParseLine(line: string): Result<LogRecord>
  {
    var values := Split(Strip(line), Tab);
    if |values| < 5 then Err(FieldMissing(|values|))
    else Ok(LogRecord(values[0], values[1], values[2], values[3], values[4]))
  }

  /** Python's round() of a timestamp given in whole milliseconds: the nearest whole second, and the
      even one of two equally near seconds. */
  function RoundToSecond(millis: int): (second: int)
    ensures 1000 * second - 500 <= millis <= 1000 * second + 500
    ensures (millis == 1000 * second - 500 || millis == 1000 * second + 500) ==> second % 2 == 0
  {
    var q, r := millis / 1000, millis % 1000;
    if r < 500 then q else if r > 500 then q + 1 else if q % 2 == 0 then q else q + 1
  }

  /** str(round(timestamp)) + '.' + distribution. */
  function PartitionKey(second: int, distribution: string): string
  {
    IntToDecimal(second) + "." + distribution
  }

  /** edge_location + '.' + status_code. */
  function SortKey(edgeLocation: string, status: string): string
  {
    edgeLocation + "." + status
  }

  const TtlSeconds: int := 900

  /** The update_item request dynamodb_upload sends for one record. */
  function BuildUpdate(millis: int, distribution: string, status: string, edgeLocation: string): Update
  {
    var second := RoundToSecond(millis);
    Update((PartitionKey(second, distribution), SortKey(edgeLocation, status)),
           IntToDecimal(second + TtlSeconds), status, edgeLocation)
  }

  /** A line made of five or more tab-free fields, the first not starting and the last not ending
      with whitespace, with any whitespace before and after it, parses to its first five fields;
      the fields after the fifth are ignored. */
  lemma ParseLineFields(lead: string, fields: seq<string>, trailer: string)
    requires |fields| >= 5
    requires forall i | 0 <= i < |fields| :: Tab !in fields[i]
    requires fields[0] != [] && !IsSpace(fields[0][0])
    requires fields[|fields| - 1] != [] && !IsSpace(fields[|fields| - 1][|fields[|fields| - 1]| - 1])
    requires AllSpace(lead) && AllSpace(trailer)
    ensures ParseLine(lead + Join(fields, Tab) + trailer) == Ok(LogRecord(fields[0], fields[1], fields[2], fields[3], fields[4]))
  {
    JoinEnds(fields, Tab);
    StripPadded(lead, Join(fields, Tab), trailer);
    JoinSplit(fields, Tab);
  }

  /** A line of one to four such fields, with any whitespace around it, raises at the first
      missing index. */
  lemma ParseLineTooFewFields(lead: string, fields: seq<string>, trailer: string)
    requires 1 <= |fields| < 5
    requires forall i | 0 <= i < |fields| :: Tab !in fields[i]
    requires fields[0] != [] && !IsSpace(fields[0][0])
    requires fields[|fields| - 1] != [] && !IsSpace(fields[|fields| - 1][|fields[|fields| - 1]| - 1])
    requires AllSpace(lead) && AllSpace(trailer)
    ensures ParseLine(lead + Join(fields, Tab) + trailer) == Err(FieldMissing(|fields|))
  {
    JoinEnds(fields, Tab);
    StripPadded(lead, Join(fields, Tab), trailer);
    JoinSplit(fields, Tab);
  }

  /** An empty edge location is lost: the tab in front of it is whitespace, which strip() removes,
      so the line has only four values and raises at values[4]. */
  lemma ParseLineEmptyEdgeLocation(timestamp: string, clientIp: string, status: string, host: string)
    requires Tab !in timestamp && Tab !in clientIp && Tab !in status && Tab !in host
    requires timestamp != [] && !IsSpace(timestamp[0])
    requires host != [] && !IsSpace(host[|host| - 1])
    ensures ParseLine(Join([timestamp, clientIp, status, host, ""], Tab) + "\n") == Err(FieldMissing(4))
  {
    var four := [timestamp, clientIp, status, host];
    assert [timestamp, clientIp, status, host, ""] == four + [""];
    JoinAppend(four, "", Tab);
    assert Join(four, Tab) + [Tab] + "" + "\n" == Join(four, Tab) + "\t\n";
    assert "" + Join(four, Tab) + "\t\n" == Join(four, Tab) + "\t\n";
    ParseLineTooFewFields("", four, "\t\n");
  }

  /** The rounding above has exactly one result: any second within half a second of the timestamp,
      and even on a tie, is the rounded one. */
  lemma RoundToSecondUnique(millis: int, second: int)
    requires 1000 * second - 500 <= millis <= 1000 * second + 500
    requires (millis == 1000 * second - 500 || millis == 1000 * second + 500) ==> second % 2 == 0
    ensures RoundToSecond(millis) == second
  {
  }

  /** The text before the first dot (all of it when there is none). */
  function BeforeFirstDot(s: string): string
  {
    if s == [] || s[0] == '.' then [] else [s[0]] + BeforeFirstDot(s[1..])
  }

  /** The text after the last dot (all of it when there is none). */
  function AfterLastDot(s: string): string
  {
    if s == [] || s[|s| - 1] == '.' then [] else AfterLastDot(s[..|s| - 1]) + [s[|s| - 1]]
  }

  lemma {:induction false} BeforeFirstDotOf(a: string, rest: string)
    requires '.' !in a
    ensures BeforeFirstDot(a + "." + rest) == a
  {
    if a != [] {
      assert (a + "." + rest)[1..] == a[1..] + "." + rest;
      BeforeFirstDotOf(a[1..], rest);
    } else {
      assert a + "." + rest == "." + rest;
    }
  }

  lemma {:induction false} AfterLastDotOf(rest: string, c: string)
    requires '.' !in c
    ensures AfterLastDot(rest + "." + c) == c
  {
    if c != [] {
      assert (rest + "." + c)[..|rest + "." + c| - 1] == rest + "." + c[..|c| - 1];
      AfterLastDotOf(rest, c[..|c| - 1]);
    } else {
      assert rest + "." + c == rest + ".";
    }
  }

  /** Different (second, distribution) pairs never share a partition key, even when the
      distribution contains dots: the decimal second never does. */
  lemma PartitionKeyInjective(second1: int, distribution1: string, second2: int, distribution2: string)
    requires PartitionKey(second1, distribution1) == PartitionKey(second2, distribution2)
    ensures second1 == second2 && distribution1 == distribution2
  {
    var a, b := IntToDecimal(second1), IntToDecimal(second2);
    var k := PartitionKey(second1, distribution1);
    BeforeFirstDotOf(a, distribution1);
    BeforeFirstDotOf(b, distribution2);
    IntToDecimalInjective(second1, second2);
    assert k[|a| + 1..] == distribution1;
  }

  /** Different (edge location, status) pairs never share a sort key when status codes contain no
      dot, as three-digit codes do not. */
  lemma SortKeyInjective(edge1: string, status1: string, edge2: string, status2: string)
    requires '.' !in status1 && '.' !in status2
    requires SortKey(edge1, status1) == SortKey(edge2, status2)
    ensures edge1 == edge2 && status1 == status2
  {
    var k := SortKey(edge1, status1);
    AfterLastDotOf(edge1, status1);
    AfterLastDotOf(edge2, status2);
    assert k[..|edge1|] == edge1;
  }

  /** The ttl written is the record's rounded second plus 900, as a decimal the store reads back. */
  lemma TtlRoundTrip(millis: int, distribution: string, status: string, edgeLocation: string)
    ensures ParseInt(BuildUpdate(millis, distribution, status, edgeLocation).ttl) == Some(RoundToSecond(millis) + 900)
  {
    IntRoundTrip(RoundToSecond(millis) + TtlSeconds);
  }

  /** Everything done for one record before update_item is called: the field extraction, then
      float(timestamp), which parseMillis stands for (None where float() or round() raises). */
  function PrepareRecord(line: string, parseMillis: string -> Option<int>): Result<Update>
  {
    match ParseLine(line)
    case Err(e) => Err(e)
    case Ok(rec) =>
      match parseMillis(rec.timestamp)
      case None => Err(TimestampInvalid(rec.timestamp))
      case Some(millis) => Ok(BuildUpdate(millis, rec.host, rec.status, rec.edgeLocation))
  }

  /** The whole handling of record i: rejected holds the positions whose update_item call raises. */
  function Attempt(records: seq<string>, i: nat, parseMillis: string -> Option<int>, rejected: set<nat>): Result<Update>
    requires i < |records|
  {
    match PrepareRecord(records[i], parseMillis)
    case Err(e) => Err(e)
    case Ok(u) => if i in rejected then Err(StoreWriteFailed(u.key.0, u.key.1)) else Ok(u)
  }

  /** The result of handling each record on its own. */
  function Attempts(records: seq<string>, parseMillis: string -> Option<int>, rejected: set<nat>): (steps: seq<Result<Update>>)
    ensures |steps| == |records|
    ensures forall i | 0 <= i < |records| :: steps[i] == Attempt(records, i, parseMillis, rejected)
  {
    seq(|records|, i requires 0 <= i < |records| => Attempt(records, i, parseMillis, rejected))
  }

  /** The upserts of the first n steps, all of which succeed. */
  function Applied(steps: seq<Result<Update>>, n: nat): (us: seq<Update>)
    requires n <= |steps|
    requires forall j | 0 <= j < n :: steps[j].Ok?
    ensures |us| == n
    ensures forall j | 0 <= j < n :: us[j] == steps[j].value
  {
    if n == 0 then [] else Applied(steps, n - 1) + [steps[n - 1].value]
  }

  datatype Outcome = Completed | Aborted(index: nat, error: Failure)

  /** What lambda_handler leaves behind: the table, and whether a record raised. */
  datatype Report = Report(items: map<Key, Item>, outcome: Outcome)

  /** The handling of steps[from..], in order, until the first failure. */
  function Ingest(items: map<Key, Item>, steps: seq<Result<Update>>, from: nat): Report
    requires from <= |steps|
    decreases |steps| - from
  {
    if from == |steps| then Report(items, Completed)
    else
      match steps[from]
      case Err(e) => Report(items, Aborted(from, e))
      case Ok(u) => Ingest(Upsert(items, u), steps, from + 1)
  }

  /** The index of the first failing step at or after from, or |steps| when none fails. */
  function FirstErr(steps: seq<Result<Update>>, from: nat): (n: nat)
    requires from <= |steps|
    ensures from <= n <= |steps|
    ensures forall j | from <= j < n :: steps[j].Ok?
    ensures n < |steps| ==> steps[n].Err?
    decreases |steps| - from
  {
    if from == |steps| || steps[from].Err? then from else FirstErr(steps, from + 1)
  }

  /** Handling steps[from..] after the upserts of the steps before it stops at the first failure
      at or after from, having applied exactly the upserts before that failure. */
  lemma {:induction false} IngestFrom(items: map<Key, Item>, steps: seq<Result<Update>>, from: nat)
    requires from <= |steps|
    requires forall j | 0 <= j < from :: steps[j].Ok?
    ensures Ingest(Replay(items, Applied(steps, from)), steps, from)
         == var n := FirstErr(steps, from);
            Report(Replay(items, Applied(steps, n)), if n == |steps| then Completed else Aborted(n, steps[n].error))
    decreases |steps| - from
  {
    if from < |steps| && steps[from].Ok? {
      ReplayAppliedStep(items, steps, from);
      IngestFrom(items, steps, from + 1);
    }
  }

  /** One more successful step is one more upsert. */
  lemma ReplayAppliedStep(items: map<Key, Item>, steps: seq<Result<Update>>, from: nat)
    requires from < |steps|
    requires forall j | 0 <= j <= from :: steps[j].Ok?
    ensures Replay(items, Applied(steps, from + 1)) == Upsert(Replay(items, Applied(steps, from)), steps[from].value)
  {
    assert Applied(steps, from + 1)[..from] == Applied(steps, from);
  }

  /** Records are handled in list order: either every record succeeds and the table holds all their
      upserts, or the first record that fails is reported, the upserts of the records before it
      stay applied, and no later record is handled. */
  lemma IngestFirstFailure(items: map<Key, Item>, steps: seq<Result<Update>>)
    ensures var rep := Ingest(items, steps, 0);
            && (rep.outcome.Completed? ==>
                  && (forall j | 0 <= j < |steps| :: steps[j].Ok?)
                  && rep.items == Replay(items, Applied(steps, |steps|)))
            && (rep.outcome.Aborted? ==>
                  && rep.outcome.index < |steps|
                  && (forall j | 0 <= j < rep.outcome.index :: steps[j].Ok?)
                  && steps[rep.outcome.index] == Err(rep.outcome.error)
                  && rep.items == Replay(items, Applied(steps, rep.outcome.index)))
  {
    IngestFrom(items, steps, 0);
    var n := FirstErr(steps, 0);
    assert Applied(steps, 0) == [];
    if n < |steps| {
      assert steps[n] == Err(steps[n].error);
    }
  }

  /** dynamodb_upload: builds the keys and ttl and applies the upsert, unless the store refuses the
      write (accepted is false), in which case nothing changes and the failure is raised. */
  method DynamodbUpload(table: Table, millis: int, distribution: string, status: string, edgeLocation: string, accepted: bool)
    returns (r: Result<Item>)
    modifies table
    ensures var u := BuildUpdate(millis, distribution, status, edgeLocation);
            && (accepted ==> table.items == Upsert(old(table.items), u) && r == Ok(table.items[u.key]))
            && (!accepted ==> table.items == old(table.items) && r == Err(StoreWriteFailed(u.key.0, u.key.1)))
  {
    var second := RoundToSecond(millis);
    var partitionKey := PartitionKey(second, distribution);
    var sortKey := SortKey(edgeLocation, status);
    var ttl := IntToDecimal(second + TtlSeconds);
    if !accepted {
      return Err(StoreWriteFailed(partitionKey, sortKey));
    }
    var updated := table.Increment(Update((partitionKey, sortKey), ttl, status, edgeLocation));
    return Ok(updated);
  }

  /** The body of lambda_handler's loop for record i: field extraction, float(timestamp), upload. */
  method HandleRecord(table: Table, records: seq<string>, i: nat, parseMillis: string -> Option<int>, rejected: set<nat>)
    returns (r: Result<Update>)
    requires i < |records|
    modifies table
    ensures r == Attempt(records, i, parseMillis, rejected)
    ensures r.Ok? ==> table.items == Upsert(old(table.items), r.value)
    ensures r.Err? ==> table.items == old(table.items)
  {
    var parsed := ParseLine(records[i]);
    if parsed.Err? {
      return Err(parsed.error);
    }
    var rec := parsed.value;
    var millis := parseMillis(rec.timestamp);
    if millis.None? {
      return Err(TimestampInvalid(rec.timestamp));
    }
    var uploaded := DynamodbUpload(table, millis.value, rec.host, rec.status, rec.edgeLocation, i !in rejected);
    if uploaded.Err? {
      return Err(uploaded.error);
    }
    return Ok(BuildUpdate(millis.value, rec.host, rec.status, rec.edgeLocation));
  }

  /** lambda_handler: the records in order, stopping at the first one that raises. */
  method LambdaHandler(table: Table, records: seq<string>, parseMillis: string -> Option<int>, rejected: set<nat>)
    returns (outcome: Outcome)
    modifies table
    ensures Report(table.items, outcome) == Ingest(old(table.items), Attempts(records, parseMillis, rejected), 0)
    ensures old(table.Valid()) ==> table.Valid()
  {
    ghost var steps := Attempts(records, parseMillis, rejected);
    var i := 0;
    while i < |records|
      invariant 0 <= i <= |records|
      invariant Ingest(table.items, steps, i) == Ingest(old(table.items), steps, 0)
      invariant old(table.Valid()) ==> table.Valid()
    {
      var r := HandleRecord(table, records, i, parseMillis, rejected);
      if r.Err? {
        return Aborted(i, r.error);
      }
      i := i + 1;
    }
    return Completed;
  }
}
