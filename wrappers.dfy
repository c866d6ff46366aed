/** Option values, used where the Python code returns None or raises, and the dictionary lookup with a default. */
module Wrappers {

  datatype Option<+T> = None | Some(value: T) {
    /** Python's `d.get(k, default)` once the lookup has produced an Option. */
    function GetOr(default: T): T {
      match this
      case Some(v) => v
      case None => default
    }
  }

  /** `d.get(k, default)`: the value at `k` when there is one, else the default. */
  function MapGet<K, V>(m: map<K, V>, k: K, default: V): (v: V)
    ensures k in m ==> v == m[k]
    ensures k !in m ==> v == default
  {
    if k in m then m[k] else default
  }
}
