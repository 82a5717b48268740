/** `Dictionary<string, V>` as the session channel uses it: an association list in
    insertion order, which is also the order the dictionary enumerates its entries in
    when nothing has been removed. */
module Dict {
  import opened Basics

  type Dict<V> = seq<(string, V)>

  function Keys<V>(d: Dict<V>): (ks: seq<string>)
    ensures |ks| == |d| && forall i :: 0 <= i < |d| ==> ks[i] == d[i].0
  {
    if d == [] then [] else [d[0].0] + Keys(d[1..])
  }

  predicate HasKey<V>(d: Dict<V>, k: string) {
    exists i :: 0 <= i < |d| && d[i].0 == k
  }

  predicate DistinctKeys<V>(d: Dict<V>) {
    forall i, j :: 0 <= i < j < |d| ==> d[i].0 != d[j].0
  }

  /** `TryGetValue`: the value stored under `k`. */
  function Lookup<V>(d: Dict<V>, k: string): (r: Option<V>)
    ensures r.Some? <==> HasKey(d, k)
    ensures r.Some? ==> exists i :: 0 <= i < |d| && d[i] == (k, r.value)
  {
    if d == [] then None
    else if d[0].0 == k then Some(d[0].1)
    else
      var r := Lookup(d[1..], k);
      assert forall i :: 1 <= i < |d| ==> d[i] == d[1..][i - 1];
      r
  }

  /** The indexer `d[k]`, which throws on a missing key. */
  function Get<V>(d: Dict<V>, k: string): (r: Result<V>)
    ensures r.Ok? <==> HasKey(d, k)
    ensures r.Throws? ==> r.ex == KeyNotFound(k)
  {
    match Lookup(d, k)
    case Some(v) => Ok(v)
    case None => Throws(KeyNotFound(k))
  }

  /** The indexer assignment `d[k] = v`: replaces the value of an existing entry in
      place, or appends the entry. */
  function Insert<V>(d: Dict<V>, k: string, v: V): (r: Dict<V>)
    ensures HasKey(d, k) ==> |r| == |d| && forall i :: 0 <= i < |d| ==> r[i].0 == d[i].0
    ensures !HasKey(d, k) ==> r == d + [(k, v)]
    ensures forall i :: 0 <= i < |r| ==> r[i].0 == k || HasKey(d, r[i].0)
  {
    if d == [] then [(k, v)]
    else if d[0].0 == k then [(k, v)] + d[1..]
    else
      var rest := Insert(d[1..], k, v);
      assert forall i :: 1 <= i < |d| ==> d[i] == d[1..][i - 1];
      [d[0]] + rest
  }

  /** `Remove(k)`. */
  function Remove<V>(d: Dict<V>, k: string): (r: Dict<V>)
    ensures |r| <= |d| && !HasKey(r, k)
    ensures forall i :: 0 <= i < |r| ==> r[i] in d
  {
    if d == [] then []
    else if d[0].0 == k then Remove(d[1..], k)
    else [d[0]] + Remove(d[1..], k)
  }

  /** After an insertion `k` holds `v` and every other key keeps its value. */
  lemma {:induction false} InsertLookup<V>(d: Dict<V>, k: string, v: V, other: string)
    ensures Lookup(Insert(d, k, v), k) == Some(v)
    ensures other != k ==> Lookup(Insert(d, k, v), other) == Lookup(d, other)
  {
    if d != [] && d[0].0 != k {
      assert Insert(d, k, v) == [d[0]] + Insert(d[1..], k, v);
      InsertLookup(d[1..], k, v, other);
    } else if d != [] {
      assert Insert(d, k, v) == [(k, v)] + d[1..];
    }
  }

  /** Insertion keeps the keys distinct. */
  lemma InsertDistinct<V>(d: Dict<V>, k: string, v: V)
    requires DistinctKeys(d)
    ensures DistinctKeys(Insert(d, k, v))
  {
    if HasKey(d, k) {
      ReplaceDistinct(d, k, v);
    } else {
      AppendDistinct(d, k, v);
    }
  }

  lemma ReplaceDistinct<V>(d: Dict<V>, k: string, v: V)
    requires DistinctKeys(d) && HasKey(d, k)
    ensures DistinctKeys(Insert(d, k, v))
  {
    var r := Insert(d, k, v);
    forall i, j | 0 <= i < j < |r|
      ensures r[i].0 != r[j].0
    {
      assert r[i].0 == d[i].0 && r[j].0 == d[j].0;
    }
  }

  lemma AppendDistinct<V>(d: Dict<V>, k: string, v: V)
    requires DistinctKeys(d) && !HasKey(d, k)
    ensures DistinctKeys(Insert(d, k, v))
  {
    var r := Insert(d, k, v);
    forall i, j | 0 <= i < j < |r|
      ensures r[i].0 != r[j].0
    {
      assert r[i] == d[i];
      if j < |d| {
        assert r[j] == d[j];
      }
    }
  }

  /** In a dictionary with distinct keys, the entry at position `i` is what its key
      looks up. */
  lemma LookupDistinct<V>(d: Dict<V>, i: int)
    requires DistinctKeys(d) && 0 <= i < |d|
    ensures Lookup(d, d[i].0) == Some(d[i].1)
  {
    var r := Lookup(d, d[i].0);
    var j :| 0 <= j < |d| && d[j] == (d[i].0, r.value);
  }

  /** After a removal `k` is gone and every other key keeps its value. */
  lemma {:induction false} RemoveLookup<V>(d: Dict<V>, k: string, other: string)
    ensures Lookup(Remove(d, k), k) == None
    ensures other != k ==> Lookup(Remove(d, k), other) == Lookup(d, other)
  {
    if d != [] {
      RemoveLookup(d[1..], k, other);
    }
  }
}
