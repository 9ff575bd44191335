/** Vocabulary shared by every module: optional values and the time line. */
module Base {

  datatype Option<+T> = None | Some(value: T)

  /** Instants and durations, in nanoseconds on a single line without zones or leap seconds. */
  type Time = int

  const SECOND: Time := 1_000_000_000
  const MINUTE: Time := 60_000_000_000
  const HOUR: Time := 3_600_000_000_000

  function Min(a: int, b: int): int {
    if a <= b then a else b
  }

  function Max(a: int, b: int): int {
    if a >= b then a else b
  }

  function Pow2(n: nat): (p: nat)
    ensures p >= 1
  {
    if n == 0 then 1 else 2 * Pow2(n - 1)
  }
}
