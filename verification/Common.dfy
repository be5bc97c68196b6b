/** What every component shares. */
module Common {
  datatype Option<+T> = None | Some(value: T)
  datatype Result<+T> = Ok(value: T) | Err

  // Durations are nanoseconds.
  const SECOND: nat := 1_000_000_000
  const MAX_INT64: int := 0x7FFF_FFFF_FFFF_FFFF

  function Larger(a: int, b: int): int {
    if a < b then b else a
  }

  function Smaller(a: int, b: int): int {
    if a < b then a else b
  }

  function Elements<T>(s: seq<T>): set<T> {
    set x | x in s
  }
}
