/** Optional values and lookups shared by every other module. */
module Wrappers {

  datatype Option<+T> = None | Some(value: T)

  /** The entry of `m` at `k`, or None: a JavaScript `Map.get` or a missing row. */
  function Get<K, V>(m: map<K, V>, k: K): Option<V> {
    if k in m then Some(m[k]) else None
  }
}
