/** Shared vocabulary: primary keys and the usual Option/Result wrappers. */
module Base {

  /** Every primary key of the catalog is a 128-bit UUID. */
  type Uuid = x: int | 0 <= x < 0x1_0000_0000_0000_0000_0000_0000_0000_0000

  datatype Option<+T> = None | Some(value: T)

  datatype Result<+T, +E> = Success(value: T) | Failure(error: E)

  /** `d.get(key, default)` on a Python dict. */
  function Get<K, V>(d: map<K, V>, key: K, default: V): (v: V)
    ensures key in d ==> v == d[key]
    ensures key !in d ==> v == default
  {
    if key in d then d[key] else default
  }
}
