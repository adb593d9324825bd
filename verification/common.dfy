/** Small shared vocabulary: optional values and integer minimum. */
module Common {

  /** A value that may be absent: JavaScript's `null`/`undefined` or a missing row. */
  datatype Option<+T> = None | Some(value: T)

  function Min(a: int, b: int): (m: int)
    ensures m <= a && m <= b
    ensures m == a || m == b
  {
    if a <= b then a else b
  }
}
