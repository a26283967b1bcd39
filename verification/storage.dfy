/**
 * The extension's local key-value storage as seen by `saveQueue` and `loadQueue`:
 * the list under `fp_queue`, the current index under `fp_queue_index`.
 */
module Storage {
  import opened Queue

  /** The two kinds of value the script writes. */
  datatype Value = QueueValue(entries: seq<Entry>) | IndexValue(index: int)

  const QueueKey: string := "fp_queue"
  const IndexKey: string := "fp_queue_index"

  type Store = map<string, Value>

  /** `saveQueue`: writes both keys; every other key is left as it was, and loading reads the
      saved state back. */
  function Saved(store: Store, s: QueueState): (r: Store)
    ensures r.Keys == store.Keys + {QueueKey, IndexKey}
    ensures forall k :: k in store && k != QueueKey && k != IndexKey ==> r[k] == store[k]
    ensures Loaded(r) == s
  {
    store[QueueKey := QueueValue(s.entries)][IndexKey := IndexValue(s.current)]
  }

  /** `loadQueue`: `fp_queue || []` and `fp_queue_index ?? -1`. */
  function Loaded(store: Store): (s: QueueState)
    ensures QueueKey in store && store[QueueKey].QueueValue? ==> s.entries == store[QueueKey].entries
    ensures IndexKey in store && store[IndexKey].IndexValue? ==> s.current == store[IndexKey].index
    ensures QueueKey !in store ==> s.entries == []
    ensures IndexKey !in store ==> s.current == -1
  {
    var entries := if QueueKey in store && store[QueueKey].QueueValue? then store[QueueKey].entries else [];
    var current := if IndexKey in store && store[IndexKey].IndexValue? then store[IndexKey].index else -1;
    QueueState(entries, current)
  }

  /** The stored state satisfies the queue invariant. */
  predicate StoreValid(store: Store) {
    Loaded(store).Valid()
  }

  /** Missing keys load as the empty queue with no current entry, while a stored index 0 is
      kept (the `??` default only replaces a missing value). */
  lemma LoadDefaults(store: Store)
    ensures QueueKey !in store && IndexKey !in store ==> Loaded(store) == QueueState([], -1)
    ensures IndexKey in store && store[IndexKey] == IndexValue(0) ==> Loaded(store).current == 0
  {
  }

  /** A later save replaces an earlier one entirely, and saving a valid state leaves valid storage. */
  lemma SaveOverwrites(store: Store, s: QueueState, t: QueueState)
    ensures Saved(Saved(store, s), t) == Saved(store, t)
    ensures t.Valid() ==> StoreValid(Saved(store, t))
  {
  }
}
