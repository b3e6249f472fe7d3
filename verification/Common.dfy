/** Small shared vocabulary. */
module Common {
  /** A value that may be absent (`None` in the gateway's own dictionaries). */
  datatype Option<+T> = None | Some(value: T)

  function Max(a: int, b: int): int { if a < b then b else a }

  function Min(a: int, b: int): int { if a < b then a else b }
}
