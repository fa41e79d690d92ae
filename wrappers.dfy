/** Optional values, standing for the absent fields and missing keys of the key-value store. */
module Wrappers {

  datatype Option<+T> = None | Some(value: T)

  /** What a key-value store's `get` returns for a key: the stored value, or nothing. */
  function Get<K, V>(m: map<K, V>, k: K): Option<V>
  {
    if k in m then Some(m[k]) else None
  }
}
