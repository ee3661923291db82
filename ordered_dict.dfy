/** Python dicts with string keys, which remember the order in which keys were first inserted. */
module OrderedDict {

  /** A dict: its keys in insertion order, and the value of each key. */
  datatype Dict<V> = Dict(keys: seq<string>, entries: map<string, V>)
  {
    /** Every key is listed once, and exactly the listed keys have values. */
    ghost predicate Valid()
    {
      && (forall i, j | 0 <= i < j < |keys| :: keys[i] != keys[j])
      && (forall k :: k in entries <==> k in keys)
    }

    /** d[k] = v: the value of k is replaced; a new key goes after all existing ones, an
        existing key keeps its place. */
    function Put(k: string, v: V): (r: Dict<V>)
      ensures r.entries == entries[k := v]
      ensures k in entries ==> r.keys == keys
      ensures k !in entries ==> r.keys == keys + [k]
    {
      Dict(if k in entries then keys else keys + [k], entries[k := v])
    }
  }

  /** d[k] = v keeps a dict well formed. */
  lemma PutValid<V>(d: Dict<V>, k: string, v: V)
    requires d.Valid()
    ensures d.Put(k, v).Valid()
  {
    var r := d.Put(k, v);
    if k !in d.entries {
      forall i, j | 0 <= i < j < |r.keys|
        ensures r.keys[i] != r.keys[j]
      {
        if j == |d.keys| {
          assert r.keys[i] == d.keys[i];
        }
      }
    }
  }

  function Empty<V>(): (d: Dict<V>)
    ensures d.Valid() && d.keys == [] && d.entries == map[]
  {
    Dict([], map[])
  }

  /** The sum of the values of the selected keys, taken in key order. */
  function SumOver(keys: seq<string>, m: map<string, int>, selected: string -> bool): int
    requires forall k | k in keys :: k in m
  {
    if keys == [] then 0
    else
      var k := keys[|keys| - 1];
      SumOver(keys[..|keys| - 1], m, selected) + (if selected(k) then m[k] else 0)
  }

  /** sum(v for (k, v) in d.items() if selected(k)). */
  function SumWhere(d: Dict<int>, selected: string -> bool): int
    requires d.Valid()
  {
    SumOver(d.keys, d.entries, selected)
  }

  /** Changing the value of one key that occurs once changes the sum by the difference,
      if that key is selected, and not at all otherwise. */
  lemma {:induction false} SumOverUpdate(keys: seq<string>, m: map<string, int>, selected: string -> bool, k: string, v: int)
    requires forall x | x in keys :: x in m
    requires forall i, j | 0 <= i < j < |keys| :: keys[i] != keys[j]
    ensures SumOver(keys, m[k := v], selected)
         == SumOver(keys, m, selected) + (if k in keys && selected(k) then v - m[k] else 0)
  {
    if keys != [] {
      var init := keys[..|keys| - 1];
      SumOverUpdate(init, m, selected, k, v);
      assert keys[|keys| - 1] == k ==> k !in init;
      assert k in keys <==> k in init || keys[|keys| - 1] == k;
    }
  }

  /** The effect of d[k] = v on a selective sum. */
  lemma PutSum(d: Dict<int>, selected: string -> bool, k: string, v: int)
    requires d.Valid()
    ensures d.Put(k, v).Valid()
    ensures SumWhere(d.Put(k, v), selected)
         == SumWhere(d, selected) - (if k in d.entries && selected(k) then d.entries[k] else 0)
                                  + (if selected(k) then v else 0)
  {
    var r := d.Put(k, v);
    PutValid(d, k, v);
    SumOverUpdate(d.keys, d.entries, selected, k, v);
    if k !in d.entries {
      assert r.keys[..|r.keys| - 1] == d.keys;
    }
  }

  /** Over non-negative values, selecting fewer keys never gives a larger sum. */
  lemma {:induction false} SumOverMonotone(keys: seq<string>, m: map<string, int>, fewer: string -> bool, more: string -> bool)
    requires forall x | x in keys :: x in m && m[x] >= 0
    requires forall x | x in keys :: fewer(x) ==> more(x)
    ensures 0 <= SumOver(keys, m, fewer) <= SumOver(keys, m, more)
  {
    if keys != [] {
      SumOverMonotone(keys[..|keys| - 1], m, fewer, more);
    }
  }
}
