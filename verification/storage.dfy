/** The browser's `localStorage`, modelled as an in-memory map from keys to
    strings. Quota and disabled-storage failures are not modelled. */
module Storage {
  import opened Wrappers

  type Store = map<string, string>

  /** `localStorage.getItem(key)`: the stored string, or `None` for `null`. */
  function Get(store: Store, key: string): (r: Option<string>)
    ensures r.Some? <==> key in store
    ensures r.Some? ==> r.value == store[key]
  {
    if key in store then Some(store[key]) else None
  }

  /** `localStorage.setItem(key, value)`: the key now reads back `value`, every
      other key reads back what it did before. */
  function Set(store: Store, key: string, value: string): (r: Store)
    ensures Get(r, key) == Some(value)
    ensures forall k :: k != key ==> Get(r, k) == Get(store, k)
    ensures r.Keys == store.Keys + {key}
  {
    store[key := value]
  }
}
