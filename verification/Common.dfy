module Common {

  datatype Option<+T> = None | Some(value: T)

  /** A Go (value, error) pair. */
  datatype Result<+T, +E> = Ok(value: T) | Err(error: E)

  /** An element of a byte buffer, seen as a number. */
  type Byte = b: nat | b < 256

  const INT64_MAX: int := 0x7FFF_FFFF_FFFF_FFFF

  /** What a map holds under a key. */
  function Find<K, V>(m: map<K, V>, k: K): Option<V> {
    if k in m then Some(m[k]) else None
  }
}
