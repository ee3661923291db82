/** The key-value table both functions share: one item per (partition key, sort key), written by
    an atomic upsert that adds one to the item's count. */
module CounterTable {

  /** (partition key 'timestamp.distribution', sort key 'edgelocation.statuscode'). */
  type Key = (string, string)

  /** The attributes of one stored item; ttl is the N-typed attribute as written. */
  datatype Item = Item(statusCount: int, ttl: string, statusCode: string, edgeLocation: string)

  /** One update_item request: the item it targets and the attribute values it sets. */
  datatype Update = Update(key: Key, ttl: string, statusCode: string, edgeLocation: string)

  /** if_not_exists(status_count, 0). */
  function CountOf(items: map<Key, Item>, k: Key): int
  {
    if k in items then items[k].statusCount else 0
  }

  /** The effect of 'SET status_count = if_not_exists(status_count, :start) + :inc, #ttl = :ttl,
      status_code = :status_code, edge_location = :edge_location' on the table. */
  function Upsert(items: map<Key, Item>, u: Update): (r: map<Key, Item>)
    ensures r.Keys == items.Keys + {u.key}
    ensures r[u.key].statusCount == CountOf(items, u.key) + 1
    ensures r[u.key].ttl == u.ttl && r[u.key].statusCode == u.statusCode && r[u.key].edgeLocation == u.edgeLocation
    ensures forall k | k in items && k != u.key :: r[k] == items[k]
  {
    items[u.key := Item(CountOf(items, u.key) + 1, u.ttl, u.statusCode, u.edgeLocation)]
  }

  /** Every stored count is at least one. */
  ghost predicate AllPositive(items: map<Key, Item>)
  {
    forall k | k in items :: items[k].statusCount >= 1
  }

  /** The table after the given upserts, applied in order. */
  function Replay(items: map<Key, Item>, us: seq<Update>): map<Key, Item>
  {
    if us == [] then items else Upsert(Replay(items, us[..|us| - 1]), us[|us| - 1])
  }

  /** How many of the upserts target key k. */
  function Occurrences(us: seq<Update>, k: Key): nat
  {
    if us == [] then 0 else Occurrences(us[..|us| - 1], k) + (if us[|us| - 1].key == k then 1 else 0)
  }

  /** Every upsert of a key adds exactly one to its count, whatever other keys are written in
      between: N deliveries to a key that was absent leave count N. */
  lemma {:induction false} ReplayCount(items: map<Key, Item>, us: seq<Update>, k: Key)
    ensures CountOf(Replay(items, us), k) == CountOf(items, k) + Occurrences(us, k)
  {
    if us != [] {
      ReplayCount(items, us[..|us| - 1], k);
    }
  }

  /** A key no upsert targets keeps its item, or stays absent. */
  lemma {:induction false} ReplayUntouched(items: map<Key, Item>, us: seq<Update>, k: Key)
    requires Occurrences(us, k) == 0
    ensures k in Replay(items, us) <==> k in items
    ensures k in items ==> Replay(items, us)[k] == items[k]
  {
    if us != [] {
      ReplayUntouched(items, us[..|us| - 1], k);
    }
  }

  /** The ttl, status_code and edge_location of an item are those of the last upsert that
      targeted it. */
  lemma {:induction false} ReplayLastWriteWins(items: map<Key, Item>, us: seq<Update>, i: nat)
    requires i < |us|
    requires forall j | i < j < |us| :: us[j].key != us[i].key
    ensures us[i].key in Replay(items, us)
    ensures var it := Replay(items, us)[us[i].key];
            it.ttl == us[i].ttl && it.statusCode == us[i].statusCode && it.edgeLocation == us[i].edgeLocation
  {
    if i < |us| - 1 {
      ReplayLastWriteWins(items, us[..|us| - 1], i);
    }
  }

  /** Upserts keep every stored count at least one. */
  lemma {:induction false} ReplayPositive(items: map<Key, Item>, us: seq<Update>)
    requires AllPositive(items)
    ensures AllPositive(Replay(items, us))
  {
    if us != [] {
      ReplayPositive(items, us[..|us| - 1]);
    }
  }

  /** The table, as the update_item calls of the ingest function see it. */
  class Table {
    var items: map<Key, Item>

    ghost predicate Valid()
      reads this
    {
      AllPositive(items)
    }

    constructor ()
      ensures items == map[] && Valid()
    {
      items := map[];
    }

    /** update_item with ReturnValues='ALL_NEW': one atomic upsert; returns the item as it is now. */
    method Increment(u: Update) returns (updated: Item)
      modifies this
      ensures items == Upsert(old(items), u)
      ensures updated == items[u.key]
      ensures old(Valid()) ==> Valid()
    {
      items := Upsert(items, u);
      updated := items[u.key];
    }
  }
}
