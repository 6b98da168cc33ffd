/** Small shared vocabulary: optional values, results, and the rounding the services use. */
module Common {

  datatype Option<+T> = None | Some(value: T)

  datatype Result<+T, +E> = Ok(value: T) | Err(error: E)

  function Max(a: int, b: int): int {
    if a >= b then a else b
  }

  function Min(a: int, b: int): int {
    if a <= b then a else b
  }

  function Abs(a: int): int {
    if a < 0 then -a else a
  }

  /** JavaScript's Math.round(ms / 1000) on exact numbers: round half up. */
  function RoundedSeconds(ms: int): int {
    (ms + 500) / 1000
  }

  /** The whole number nearest to a number of thousandths, the larger one of two equally near. */
  predicate NearestSecond(seconds: int, ms: int) {
    1000 * seconds - 500 <= ms < 1000 * seconds + 500
  }

  lemma RoundsToNearest(ms: int)
    ensures NearestSecond(RoundedSeconds(ms), ms)
  {
    var q := (ms + 500) / 1000;
    assert ms + 500 == 1000 * q + (ms + 500) % 1000;
  }

  /** Whole seconds that miss a number of milliseconds by at most half a second for each of n roundings. */
  predicate Near(seconds: int, ms: int, n: nat) {
    Abs(1000 * seconds - ms) <= 500 * n
  }

  /** Rounding to whole seconds moves a duration by at most half a second. */
  lemma RoundingError(ms: int)
    ensures Near(RoundedSeconds(ms), ms, 1)
  {
    RoundsToNearest(ms);
  }

  function Sum(s: seq<int>): int {
    if s == [] then 0 else Sum(s[..|s| - 1]) + s[|s| - 1]
  }

  lemma NearSum(s: int, ms: int, n: nat, s': int, ms': int, n': nat)
    requires Near(s, ms, n) && Near(s', ms', n')
    ensures Near(s + s', ms + ms', n + n')
  {
  }
}
