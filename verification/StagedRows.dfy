/** Staged batches of keyed rows and the check made before one is written
    (src/usagebassoon/backends/base.py, `_validate_upsert`). */
module StagedRows {
  import opened Wrappers

  datatype Entry<K, V> = Entry(key: K, row: V)

  ghost predicate DistinctKeys<K, V>(batch: seq<Entry<K, V>>) {
    forall i, j | 0 <= i < j < |batch| :: batch[i].key != batch[j].key
  }

  function Keys<K, V(==)>(batch: seq<Entry<K, V>>): set<K> {
    set e | e in batch :: e.key
  }

  function Get<K, V>(rows: map<K, V>, k: K): (r: Option<V>)
  {
    if k in rows then Some(rows[k]) else None
  }

  /** The staged row under `k`; later rows win, as in a dict built from the batch. */
  function Staged<K(==), V(==)>(batch: seq<Entry<K, V>>, k: K): (r: Option<V>)
    ensures r.Some? <==> k in Keys(batch)
    ensures r.Some? ==> Entry(k, r.value) in batch
  {
    if batch == [] then None
    else
      var init, last := batch[..|batch| - 1], batch[|batch| - 1];
      assert batch == init + [last];
      if last.key == k then Some(last.row) else Staged(init, k)
  }

  lemma StagedLast<K, V>(init: seq<Entry<K, V>>, last: Entry<K, V>, k: K)
    ensures Staged(init + [last], k) == if last.key == k then Some(last.row) else Staged(init, k)
  {
    assert (init + [last])[..|init|] == init;
  }

  datatype KeyError = NullKey | DuplicateKey

  ghost predicate KeysUsable<K(!new), V>(batch: seq<Entry<K, V>>, hasNull: K -> bool) {
    DistinctKeys(batch) && forall i | 0 <= i < |batch| :: !hasNull(batch[i].key)
  }

  /** Accepts a batch exactly when no key repeats or contains a null; otherwise
      names what is wrong with the first offending row. */
  method CheckKeys<K(==, !new), V>(batch: seq<Entry<K, V>>, hasNull: K -> bool) returns (r: Result<(), KeyError>)
    ensures r.Success? <==> KeysUsable(batch, hasNull)
    ensures r.Failure? ==>
      exists i | 0 <= i < |batch| ::
        KeysUsable(batch[..i], hasNull)
        && if hasNull(batch[i].key) then r.error.NullKey?
           else r.error.DuplicateKey? && exists j | 0 <= j < i :: batch[j].key == batch[i].key
  {
    var seen: set<K> := {};
    for i := 0 to |batch|
      invariant KeysUsable(batch[..i], hasNull)
      invariant forall k :: k in seen <==> exists j :: 0 <= j < i && batch[j].key == k
    {
      if hasNull(batch[i].key) {
        return Failure(NullKey);
      }
      if batch[i].key in seen {
        return Failure(DuplicateKey);
      }
      seen := seen + {batch[i].key};
    }
    assert batch[..|batch|] == batch;
    return Success(());
  }
}
