/** The nested dictionary that aggregate_data_by_minute builds: for each edge location, and within
    it for each status code, the sum of the counts read. */
module MinuteCounts {
  import opened OrderedDict

  /** One item projected to its edge_location, status_code and status_count. */
  datatype CountRow = CountRow(edgeLocation: string, statusCode: string, statusCount: int)

  /** Counts per edge location, then per status code, both in first-insertion order. */
  type Counts = Dict<Dict<int>>

  ghost predicate NestedValid(d: Counts)
  {
    d.Valid() && forall e | e in d.entries :: d.entries[e].Valid()
  }

  /** The status codes counted so far at an edge location; none when it was not seen. */
  function CodesOf(d: Counts, edge: string): (codes: Dict<int>)
    ensures NestedValid(d) ==> codes.Valid()
  {
    if edge in d.entries then d.entries[edge] else Empty()
  }

  /** The count so far of one status code at one edge location; 0 when not seen. */
  function CodeCount(d: Counts, edge: string, code: string): int
  {
    var codes := CodesOf(d, edge);
    if code in codes.entries then codes.entries[code] else 0
  }

  /** The body of the accumulation loop for one row: the edge's dictionary and the code's zero are
      created when missing, then the row's count is added. */
  function AddRow(d: Counts, row: CountRow): Counts
  {
    var codes := CodesOf(d, row.edgeLocation);
    d.Put(row.edgeLocation, codes.Put(row.statusCode, CodeCount(d, row.edgeLocation, row.statusCode) + row.statusCount))
  }

  /** Storing a well-formed code dictionary under an edge location keeps the nesting well formed. */
  lemma PutNestedValid(d: Counts, edge: string, codes: Dict<int>)
    requires NestedValid(d)
    requires codes.Valid()
    ensures NestedValid(d.Put(edge, codes))
  {
    PutValid(d, edge, codes);
    var r := d.Put(edge, codes);
    forall e | e in r.entries
      ensures r.entries[e].Valid()
    {
      if e != edge {
        assert r.entries[e] == d.entries[e];
      }
    }
  }

  lemma AddRowValid(d: Counts, row: CountRow)
    requires NestedValid(d)
    ensures NestedValid(AddRow(d, row))
  {
    var codes := CodesOf(d, row.edgeLocation);
    var count := CodeCount(d, row.edgeLocation, row.statusCode) + row.statusCount;
    PutValid(codes, row.statusCode, count);
    PutNestedValid(d, row.edgeLocation, codes.Put(row.statusCode, count));
    assert AddRow(d, row) == d.Put(row.edgeLocation, codes.Put(row.statusCode, count));
  }

  function AddRows(d: Counts, rows: seq<CountRow>): Counts
  {
    if rows == [] then d else AddRow(AddRows(d, rows[..|rows| - 1]), rows[|rows| - 1])
  }

  /** The nested dictionary built from the rows, starting empty. */
  function Tally(rows: seq<CountRow>): Counts
  {
    AddRows(Empty(), rows)
  }

  /** Every edge location's dictionary, and the outer one, stay well formed. */
  lemma {:induction false} AddRowsValid(d: Counts, rows: seq<CountRow>)
    requires NestedValid(d)
    ensures NestedValid(AddRows(d, rows))
  {
    if rows != [] {
      AddRowsValid(d, rows[..|rows| - 1]);
      AddRowValid(AddRows(d, rows[..|rows| - 1]), rows[|rows| - 1]);
    }
  }

  lemma TallyValid(rows: seq<CountRow>)
    ensures NestedValid(Tally(rows))
  {
    AddRowsValid(Empty(), rows);
  }

  lemma {:induction false} AddRowsAppend(d: Counts, a: seq<CountRow>, b: seq<CountRow>)
    ensures AddRows(d, a + b) == AddRows(AddRows(d, a), b)
  {
    if b != [] {
      assert (a + b)[..|a + b| - 1] == a + b[..|b| - 1];
      AddRowsAppend(d, a, b[..|b| - 1]);
    } else {
      assert a + b == a;
    }
  }

  /** The sum of the counts of the rows that `keep` selects. */
  function RowSum(rows: seq<CountRow>, keep: CountRow -> bool): int
  {
    if rows == [] then 0
    else
      var last := rows[|rows| - 1];
      RowSum(rows[..|rows| - 1], keep) + (if keep(last) then last.statusCount else 0)
  }

  /** The rows of one edge location whose status code `selected` accepts. */
  function AtEdge(edge: string, selected: string -> bool): CountRow -> bool
  {
    (row: CountRow) => row.edgeLocation == edge && selected(row.statusCode)
  }

  function Is(code: string): string -> bool
  {
    (k: string) => k == code
  }

  /** The edge locations that occur in the rows. */
  function EdgeSet(rows: seq<CountRow>): set<string>
  {
    if rows == [] then {} else EdgeSet(rows[..|rows| - 1]) + {rows[|rows| - 1].edgeLocation}
  }

  /** The (edge location, status code) pairs that occur in the rows. */
  function PairSet(rows: seq<CountRow>): set<(string, string)>
  {
    if rows == [] then {}
    else PairSet(rows[..|rows| - 1]) + {(rows[|rows| - 1].edgeLocation, rows[|rows| - 1].statusCode)}
  }

  lemma {:induction false} EdgeSetMembers(rows: seq<CountRow>, edge: string)
    ensures edge in EdgeSet(rows) <==> exists row | row in rows :: row.edgeLocation == edge
  {
    if rows != [] {
      var init, last := rows[..|rows| - 1], rows[|rows| - 1];
      EdgeSetMembers(init, edge);
      assert rows == init + [last];
    }
  }

  lemma {:induction false} PairSetMembers(rows: seq<CountRow>, edge: string, code: string)
    ensures (edge, code) in PairSet(rows) <==> exists row | row in rows :: row.edgeLocation == edge && row.statusCode == code
  {
    if rows != [] {
      var init, last := rows[..|rows| - 1], rows[|rows| - 1];
      PairSetMembers(init, edge, code);
      assert rows == init + [last];
    }
  }

  /** `keys`, followed by the edge locations of the rows that are not yet listed, in order of first
      appearance. */
  function FirstSeen(keys: seq<string>, rows: seq<CountRow>): seq<string>
  {
    if rows == [] then keys
    else
      var prev := FirstSeen(keys, rows[..|rows| - 1]);
      var edge := rows[|rows| - 1].edgeLocation;
      if edge in prev then prev else prev + [edge]
  }

  /** One row adds its edge location as a new last key when it is not there yet. */
  lemma AddRowKeys(d: Counts, row: CountRow)
    requires NestedValid(d)
    ensures AddRow(d, row).keys == if row.edgeLocation in d.keys then d.keys else d.keys + [row.edgeLocation]
    ensures AddRow(d, row).entries.Keys == d.entries.Keys + {row.edgeLocation}
  {
  }

  /** One row creates its (edge, code) pair if missing and adds its count to it; every other pair
      keeps its count. */
  lemma AddRowCount(d: Counts, row: CountRow, edge: string, code: string)
    requires NestedValid(d)
    ensures code in CodesOf(AddRow(d, row), edge).entries
        <==> code in CodesOf(d, edge).entries || (edge == row.edgeLocation && code == row.statusCode)
    ensures CodeCount(AddRow(d, row), edge, code)
         == CodeCount(d, edge, code) + (if edge == row.edgeLocation && code == row.statusCode then row.statusCount else 0)
  {
  }

  lemma AddRowSameEdge(d: Counts, row: CountRow)
    ensures CodesOf(AddRow(d, row), row.edgeLocation)
         == CodesOf(d, row.edgeLocation).Put(row.statusCode, CodeCount(d, row.edgeLocation, row.statusCode) + row.statusCount)
  {
  }

  lemma AddRowOtherEdge(d: Counts, row: CountRow, edge: string)
    requires edge != row.edgeLocation
    ensures CodesOf(AddRow(d, row), edge) == CodesOf(d, edge)
  {
  }

  /** One row moves every sum over selected codes of its edge location by its count, when its
      code is selected. */
  lemma AddRowSum(d: Counts, row: CountRow, edge: string, selected: string -> bool)
    requires NestedValid(d)
    ensures SumWhere(CodesOf(AddRow(d, row), edge), selected)
         == SumWhere(CodesOf(d, edge), selected) + (if AtEdge(edge, selected)(row) then row.statusCount else 0)
  {
    if edge == row.edgeLocation {
      AddRowSameEdge(d, row);
      PutSum(CodesOf(d, edge), selected, row.statusCode, CodeCount(d, edge, row.statusCode) + row.statusCount);
    } else {
      AddRowOtherEdge(d, row, edge);
    }
  }

  /** Folding rows adds the rows' new edge locations as keys, in order of first appearance. */
  lemma {:induction false} AddRowsKeys(d: Counts, rows: seq<CountRow>)
    requires NestedValid(d)
    ensures AddRows(d, rows).keys == FirstSeen(d.keys, rows)
  {
    if rows != [] {
      var init, last := rows[..|rows| - 1], rows[|rows| - 1];
      var prev := AddRows(d, init);
      assert AddRows(d, rows) == AddRow(prev, last);
      AddRowsValid(d, init);
      AddRowsKeys(d, init);
      AddRowKeys(prev, last);
    }
  }

  /** Folding rows adds exactly the rows' edge locations to the edges present. */
  lemma {:induction false} AddRowsEdges(d: Counts, rows: seq<CountRow>)
    requires NestedValid(d)
    ensures AddRows(d, rows).entries.Keys == d.entries.Keys + EdgeSet(rows)
  {
    if rows != [] {
      var init, last := rows[..|rows| - 1], rows[|rows| - 1];
      var prev := AddRows(d, init);
      assert AddRows(d, rows) == AddRow(prev, last);
      AddRowsValid(d, init);
      AddRowsEdges(d, init);
      AddRowKeys(prev, last);
    }
  }

  /** Folding rows creates exactly the pairs of the rows that are missing, and adds to each pair
      the counts of the rows that have it. */
  lemma {:induction false} AddRowsCount(d: Counts, rows: seq<CountRow>, edge: string, code: string)
    requires NestedValid(d)
    ensures code in CodesOf(AddRows(d, rows), edge).entries
        <==> code in CodesOf(d, edge).entries || (edge, code) in PairSet(rows)
    ensures CodeCount(AddRows(d, rows), edge, code) == CodeCount(d, edge, code) + RowSum(rows, AtEdge(edge, Is(code)))
  {
    if rows != [] {
      var init, last := rows[..|rows| - 1], rows[|rows| - 1];
      AddRowsValid(d, init);
      AddRowsCount(d, init, edge, code);
      AddRowCount(AddRows(d, init), last, edge, code);
    }
  }

  /** Folding rows adds to every sum over selected codes of an edge location the counts of the
      rows of that edge whose code is selected. */
  lemma {:induction false} AddRowsSum(d: Counts, rows: seq<CountRow>, edge: string, selected: string -> bool)
    requires NestedValid(d)
    ensures NestedValid(AddRows(d, rows))
    ensures SumWhere(CodesOf(AddRows(d, rows), edge), selected)
         == SumWhere(CodesOf(d, edge), selected) + RowSum(rows, AtEdge(edge, selected))
  {
    if rows != [] {
      var init, last := rows[..|rows| - 1], rows[|rows| - 1];
      AddRowsSum(d, init, edge, selected);
      AddRowsValid(d, rows);
      AddRowSum(AddRows(d, init), last, edge, selected);
    }
  }

  /** The dictionary built from the rows: its edge keys are the rows' edge locations in order of
      first appearance, each (edge, code) pair present exactly when some row has it, its value is
      the sum of those rows' counts, and a sum over selected codes of an edge is the sum over the
      rows of that edge with a selected code. */
  lemma TallyFacts(rows: seq<CountRow>, edge: string, code: string, selected: string -> bool)
    ensures NestedValid(Tally(rows))
    ensures Tally(rows).keys == FirstSeen([], rows)
    ensures edge in Tally(rows).entries <==> edge in EdgeSet(rows)
    ensures code in CodesOf(Tally(rows), edge).entries <==> (edge, code) in PairSet(rows)
    ensures CodeCount(Tally(rows), edge, code) == RowSum(rows, AtEdge(edge, Is(code)))
    ensures SumWhere(CodesOf(Tally(rows), edge), selected) == RowSum(rows, AtEdge(edge, selected))
  {
    TallyValid(rows);
    AddRowsKeys(Empty(), rows);
    AddRowsEdges(Empty(), rows);
    AddRowsCount(Empty(), rows, edge, code);
    AddRowsSum(Empty(), rows, edge, selected);
  }

  lemma {:induction false} RowSumAppend(a: seq<CountRow>, b: seq<CountRow>, keep: CountRow -> bool)
    ensures RowSum(a + b, keep) == RowSum(a, keep) + RowSum(b, keep)
  {
    if b == [] {
      assert a + b == a;
    } else {
      assert (a + b)[..|a + b| - 1] == a + b[..|b| - 1];
      RowSumAppend(a, b[..|b| - 1], keep);
    }
  }

  /** Taking row i out of a sequence takes its contribution out of a selective sum. */
  lemma RowSumRemove(b: seq<CountRow>, i: nat, keep: CountRow -> bool)
    requires i < |b|
    ensures RowSum(b, keep) == RowSum(b[..i] + b[i + 1..], keep) + (if keep(b[i]) then b[i].statusCount else 0)
  {
    assert b[..i + 1] + b[i + 1..] == b;
    RowSumAppend(b[..i + 1], b[i + 1..], keep);
    assert b[..i + 1][..i] == b[..i];
    RowSumAppend(b[..i], b[i + 1..], keep);
  }

  /** Taking row i out of a sequence takes one occurrence out of its multiset. */
  lemma MultisetRemove(b: seq<CountRow>, i: nat)
    requires i < |b|
    ensures multiset(b[..i] + b[i + 1..]) == multiset(b) - multiset{b[i]}
  {
    assert b == b[..i] + [b[i]] + b[i + 1..];
    assert multiset(b) == multiset(b[..i]) + multiset{b[i]} + multiset(b[i + 1..]);
  }

  /** A selective sum depends only on which rows there are, not on their order. */
  lemma {:induction false} RowSumPermutation(a: seq<CountRow>, b: seq<CountRow>, keep: CountRow -> bool)
    requires multiset(a) == multiset(b)
    ensures RowSum(a, keep) == RowSum(b, keep)
  {
    if a == [] {
      assert |b| == |multiset(b)| == 0;
    } else {
      var init, last := a[..|a| - 1], a[|a| - 1];
      assert a == init + [last];
      assert multiset(a) == multiset(init) + multiset{last};
      assert last in multiset(b);
      var i :| 0 <= i < |b| && b[i] == last;
      MultisetRemove(b, i);
      RowSumPermutation(init, b[..i] + b[i + 1..], keep);
      RowSumRemove(b, i, keep);
    }
  }

  /** The order in which rows arrive does not change which edge locations and status codes are
      counted, nor any count: only the order of the dictionary keys can differ. */
  lemma TallyOrderIndependent(a: seq<CountRow>, b: seq<CountRow>)
    requires multiset(a) == multiset(b)
    ensures Tally(a).entries.Keys == Tally(b).entries.Keys
    ensures forall edge :: CodesOf(Tally(a), edge).entries == CodesOf(Tally(b), edge).entries
  {
    forall edge
      ensures edge in Tally(a).entries <==> edge in Tally(b).entries
      ensures CodesOf(Tally(a), edge).entries == CodesOf(Tally(b), edge).entries
    {
      TallyEdgeOrderIndependent(a, b, edge);
    }
  }

  lemma TallyEdgeOrderIndependent(a: seq<CountRow>, b: seq<CountRow>, edge: string)
    requires multiset(a) == multiset(b)
    ensures edge in Tally(a).entries <==> edge in Tally(b).entries
    ensures CodesOf(Tally(a), edge).entries == CodesOf(Tally(b), edge).entries
  {
    SameMembers(a, b);
    AddRowsEdges(Empty(), a);
    AddRowsEdges(Empty(), b);
    EdgeSetMembers(a, edge);
    EdgeSetMembers(b, edge);
    var ca, cb := CodesOf(Tally(a), edge).entries, CodesOf(Tally(b), edge).entries;
    forall code
      ensures code in ca <==> code in cb
      ensures code in ca ==> ca[code] == cb[code]
    {
      TallyPairOrderIndependent(a, b, edge, code);
    }
    SameMaps(ca, cb);
  }

  lemma SameMaps(m: map<string, int>, n: map<string, int>)
    requires forall k :: k in m <==> k in n
    requires forall k | k in m :: m[k] == n[k]
    ensures m == n
  {
  }

  lemma TallyPairOrderIndependent(a: seq<CountRow>, b: seq<CountRow>, edge: string, code: string)
    requires multiset(a) == multiset(b)
    ensures code in CodesOf(Tally(a), edge).entries <==> code in CodesOf(Tally(b), edge).entries
    ensures CodeCount(Tally(a), edge, code) == CodeCount(Tally(b), edge, code)
  {
    SameMembers(a, b);
    AddRowsCount(Empty(), a, edge, code);
    AddRowsCount(Empty(), b, edge, code);
    PairSetMembers(a, edge, code);
    PairSetMembers(b, edge, code);
    RowSumPermutation(a, b, AtEdge(edge, Is(code)));
  }

  lemma SameMembers(a: seq<CountRow>, b: seq<CountRow>)
    requires multiset(a) == multiset(b)
    ensures forall row :: row in a <==> row in b
  {
    forall row
      ensures row in a <==> row in b
    {
      assert row in a <==> row in multiset(a);
      assert row in b <==> row in multiset(b);
    }
  }

  /** With every count at least 1, any selection that takes some row sums to at least 1; with
      every count non-negative, every selective sum is non-negative. */
  lemma {:induction false} RowSumPositive(rows: seq<CountRow>, keep: CountRow -> bool)
    requires forall row | row in rows :: row.statusCount >= 1
    requires exists row | row in rows :: keep(row)
    ensures RowSum(rows, keep) >= 1
  {
    var init, last := rows[..|rows| - 1], rows[|rows| - 1];
    assert rows == init + [last];
    RowSumNonNegative(init, keep);
    if !keep(last) {
      var row :| row in rows && keep(row);
      assert row in init;
      RowSumPositive(init, keep);
    }
  }

  lemma {:induction false} RowSumNonNegative(rows: seq<CountRow>, keep: CountRow -> bool)
    requires forall row | row in rows :: row.statusCount >= 0
    ensures RowSum(rows, keep) >= 0
  {
    if rows != [] {
      assert rows == rows[..|rows| - 1] + [rows[|rows| - 1]];
      RowSumNonNegative(rows[..|rows| - 1], keep);
    }
  }
}
