/** The Some/None datatype used wherever the source has a nil pointer, an empty
    string that means "unset", or a map lookup that may miss. */
module Options {

  datatype Option<+T> = None | Some(value: T)

  /** A map lookup that may miss: Go's `v, ok := m[k]`. */
  function Lookup<K, V>(m: map<K, V>, k: K): Option<V> {
    if k in m then Some(m[k]) else None
  }
}
